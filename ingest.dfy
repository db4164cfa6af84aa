/**
  Phase 1 of process_daily_scraps (ScrapDB/match_products.py): every
  scraped JSON file is read and each listing with a truthy store_name is
  appended, tagged with its file name, to the batch of that store.
*/
module Ingest {
  import opened Wrappers
  import opened Dicts
  import opened PyText
  import opened Json

  /** A scraped listing: the fields of a JSON object. */
  type Item = seq<(string, Value)>

  /** A file met by the directory walk, in walk order: its name and its decoded
      content, None when it cannot be opened or is not valid JSON. */
  datatype ScrapFile = ScrapFile(name: string, content: Option<Value>)

  /** One entry of store_batches: the store_name that opened it and its items. */
  datatype Batch = Batch(store: Value, items: seq<Item>)

  /** What the loop body does with one element of a file. */
  datatype Step = Take(store: Value, item: Item) | Pass | Stop

  /** The loop body for one element. Anything but an object fails at
      item.get; an unhashable store_name fails at `not in store_batches`.
      Both exceptions end the file, and items taken before stay taken. */
  function StepFor(v: Value, filename: string): Step
  {
    if !v.Obj? then Stop
    else
      var name := Get(v.fields, "store_name");
      if !Truthy(name) then Pass
      else if !Hashable(name) then Stop
      else Take(name, Put(v.fields, "_source_file", Str(filename)))
  }

  /** The elements the for loop visits: an object counts as a one-item list.
      A scalar is not iterable, and a non-empty string fails at its first
      character, so neither contributes anything. */
  function Elements(content: Value): seq<Value>
  {
    match content
    case Obj(_) => [content]
    case Arr(items) => items
    case _ => []
  }

  /** The (store name, tagged item) pairs one file contributes, in order. */
  function Accept(elems: seq<Value>, filename: string): seq<(Value, Item)>
  {
    if |elems| == 0 then []
    else
      match StepFor(elems[0], filename)
      case Stop => []
      case Pass => Accept(elems[1..], filename)
      case Take(name, item) => [(name, item)] + Accept(elems[1..], filename)
  }

  predicate IsJson(f: ScrapFile)
  {
    EndsWith(f.name, ".json")
  }

  function FileAccepted(f: ScrapFile): seq<(Value, Item)>
  {
    if !IsJson(f) || f.content.None? then [] else Accept(Elements(f.content.value), f.name)
  }

  /** All accepted pairs of the walk, in traversal order. */
  function AllAccepted(files: seq<ScrapFile>): seq<(Value, Item)>
  {
    if |files| == 0 then [] else FileAccepted(files[0]) + AllAccepted(files[1..])
  }

  /** The position of the batch whose key equals name, as dict keys compare. */
  function FindBatch(batches: seq<Batch>, name: Value): (r: Option<nat>)
    ensures r.Some? ==> r.value < |batches| && PyEq(batches[r.value].store, name)
    ensures r.None? ==> forall k :: 0 <= k < |batches| ==> !PyEq(batches[k].store, name)
  {
    if |batches| == 0 then None
    else if PyEq(batches[0].store, name) then Some(0)
    else
      var r := FindBatch(batches[1..], name);
      if r.Some? then Some(r.value + 1) else None
  }

  /** `store_batches.setdefault(s_name, []).append(item)` */
  function AddTo(batches: seq<Batch>, name: Value, item: Item): seq<Batch>
  {
    match FindBatch(batches, name)
    case Some(k) => batches[k := Batch(batches[k].store, batches[k].items + [item])]
    case None => batches + [Batch(name, [item])]
  }

  function GroupFrom(batches: seq<Batch>, ps: seq<(Value, Item)>): seq<Batch>
    decreases |ps|
  {
    if |ps| == 0 then batches else GroupFrom(AddTo(batches, ps[0].0, ps[0].1), ps[1..])
  }

  /** store_batches after the walk. */
  function Ingested(files: seq<ScrapFile>): seq<Batch>
  {
    GroupFrom([], AllAccepted(files))
  }

  lemma {:induction false} GroupFromAppend(b: seq<Batch>, x: seq<(Value, Item)>, y: seq<(Value, Item)>)
    ensures GroupFrom(b, x + y) == GroupFrom(GroupFrom(b, x), y)
    decreases |x|
  {
    if |x| > 0 {
      assert (x + y)[1..] == x[1..] + y;
      GroupFromAppend(AddTo(b, x[0].0, x[0].1), x[1..], y);
    } else {
      assert x + y == y;
    }
  }

  /** The walk, as the source runs it: nested loops filling store_batches. */
  method IngestFiles(files: seq<ScrapFile>) returns (batches: seq<Batch>)
    ensures batches == Ingested(files)
  {
    batches := [];
    var i := 0;
    while i < |files|
      invariant 0 <= i <= |files|
      invariant GroupFrom(batches, AllAccepted(files[i..])) == Ingested(files)
    {
      var f := files[i];
      assert files[i..] == [f] + files[i + 1..];
      GroupFromAppend(batches, FileAccepted(f), AllAccepted(files[i + 1..]));
      if IsJson(f) && f.content.Some? {
        var elems := Elements(f.content.value);
        ghost var start := batches;
        var j := 0;
        while j < |elems|
          invariant 0 <= j <= |elems|
          invariant GroupFrom(batches, Accept(elems[j..], f.name)) == GroupFrom(start, Accept(elems, f.name))
        {
          var step := StepFor(elems[j], f.name);
          assert elems[j..][0] == elems[j] && elems[j..][1..] == elems[j + 1..];
          if step.Stop? {
            break;
          }
          if step.Take? {
            batches := AddTo(batches, step.store, step.item);
          }
          j := j + 1;
        }
        assert j == |elems| ==> elems[j..] == [];
      }
      i := i + 1;
    }
  }

  // ---------------------------------------------------------------- what the batches hold

  /** The items paired with a name equal to key, in order. */
  function ItemsFor(ps: seq<(Value, Item)>, key: Value): seq<Item>
  {
    if |ps| == 0 then []
    else ItemsFor(ps[..|ps| - 1], key) + (if PyEq(ps[|ps| - 1].0, key) then [ps[|ps| - 1].1] else [])
  }

  /** The batches group exactly the pairs qs: keys pairwise different, each
      batch the items of its key in order, every name with a batch. */
  predicate GroupedAs(b: seq<Batch>, qs: seq<(Value, Item)>)
  {
    (forall k, l :: 0 <= k < l < |b| ==> !PyEq(b[k].store, b[l].store))
    && (forall k :: 0 <= k < |b| ==> b[k].items == ItemsFor(qs, b[k].store))
    && (forall m :: 0 <= m < |qs| ==> exists k :: 0 <= k < |b| && PyEq(b[k].store, qs[m].0))
  }

  lemma {:induction false} ItemsForNone(qs: seq<(Value, Item)>, key: Value)
    requires forall m :: 0 <= m < |qs| ==> !PyEq(qs[m].0, key)
    ensures ItemsFor(qs, key) == []
  {
    if |qs| > 0 {
      ItemsForNone(qs[..|qs| - 1], key);
    }
  }

  lemma ItemsForSnoc(qs: seq<(Value, Item)>, name: Value, item: Item, key: Value)
    ensures ItemsFor(qs + [(name, item)], key) == ItemsFor(qs, key) + (if PyEq(name, key) then [item] else [])
  {
    assert (qs + [(name, item)])[..|qs|] == qs;
  }

  lemma AddToGrouped(b: seq<Batch>, qs: seq<(Value, Item)>, name: Value, item: Item)
    requires GroupedAs(b, qs) && Hashable(name)
    ensures GroupedAs(AddTo(b, name, item), qs + [(name, item)])
  {
    forall key ensures ItemsFor(qs + [(name, item)], key) == ItemsFor(qs, key) + (if PyEq(name, key) then [item] else []) {
      ItemsForSnoc(qs, name, item, key);
    }
    match FindBatch(b, name)
    case Some(k0) =>
      AddToExisting(b, qs, name, item, k0);
    case None =>
      AddToFresh(b, qs, name, item);
  }

  /** A name that already has a batch extends that batch. */
  lemma AddToExisting(b: seq<Batch>, qs: seq<(Value, Item)>, name: Value, item: Item, k0: nat)
    requires GroupedAs(b, qs) && Hashable(name)
    requires k0 < |b| && PyEq(b[k0].store, name)
    requires forall key :: ItemsFor(qs + [(name, item)], key) == ItemsFor(qs, key) + (if PyEq(name, key) then [item] else [])
    ensures GroupedAs(b[k0 := Batch(b[k0].store, b[k0].items + [item])], qs + [(name, item)])
  {
    var b' := b[k0 := Batch(b[k0].store, b[k0].items + [item])];
    assert forall k :: 0 <= k < |b'| ==> b'[k].store == b[k].store;
    ExistingItems(b, qs, name, item, k0);
    assert (qs + [(name, item)])[..|qs|] == qs;
    ExistingCovered(b, qs, b', qs + [(name, item)], k0);
  }

  lemma ExistingItems(b: seq<Batch>, qs: seq<(Value, Item)>, name: Value, item: Item, k0: nat)
    requires GroupedAs(b, qs) && Hashable(name)
    requires k0 < |b| && PyEq(b[k0].store, name)
    requires forall key :: ItemsFor(qs + [(name, item)], key) == ItemsFor(qs, key) + (if PyEq(name, key) then [item] else [])
    ensures var b' := b[k0 := Batch(b[k0].store, b[k0].items + [item])];
      forall k :: 0 <= k < |b'| ==> b'[k].items == ItemsFor(qs + [(name, item)], b'[k].store)
  {
    var qs' := qs + [(name, item)];
    var b' := b[k0 := Batch(b[k0].store, b[k0].items + [item])];
    forall k | 0 <= k < |b'| ensures b'[k].items == ItemsFor(qs', b'[k].store) {
      PyEqEquivalence(b[k0].store, name, name);
      if k != k0 && PyEq(name, b[k].store) {
        PyEqEquivalence(b[k0].store, name, b[k].store);
      }
    }
  }

  lemma ExistingCovered(b: seq<Batch>, qs: seq<(Value, Item)>, b': seq<Batch>, qs': seq<(Value, Item)>, k0: nat)
    requires GroupedAs(b, qs)
    requires k0 < |b| && |b'| == |b| && forall k :: 0 <= k < |b| ==> b'[k].store == b[k].store
    requires |qs'| == |qs| + 1 && qs'[..|qs|] == qs && PyEq(b[k0].store, qs'[|qs|].0)
    ensures forall m :: 0 <= m < |qs'| ==> exists k :: 0 <= k < |b'| && PyEq(b'[k].store, qs'[m].0)
  {
    forall m | 0 <= m < |qs'| ensures exists k :: 0 <= k < |b'| && PyEq(b'[k].store, qs'[m].0) {
      if m < |qs| {
        assert qs'[m] == qs[m];
        var k :| 0 <= k < |b| && PyEq(b[k].store, qs[m].0);
        assert b'[k].store == b[k].store;
      } else {
        assert b'[k0].store == b[k0].store;
      }
    }
  }

  /** A name with no batch yet opens a new one at the end. */
  lemma AddToFresh(b: seq<Batch>, qs: seq<(Value, Item)>, name: Value, item: Item)
    requires GroupedAs(b, qs) && Hashable(name)
    requires forall k :: 0 <= k < |b| ==> !PyEq(b[k].store, name)
    requires forall key :: ItemsFor(qs + [(name, item)], key) == ItemsFor(qs, key) + (if PyEq(name, key) then [item] else [])
    ensures GroupedAs(b + [Batch(name, [item])], qs + [(name, item)])
  {
    var qs' := qs + [(name, item)];
    var b' := b + [Batch(name, [item])];
    forall m | 0 <= m < |qs| ensures !PyEq(qs[m].0, name) {
      var k :| 0 <= k < |b| && PyEq(b[k].store, qs[m].0);
      if PyEq(qs[m].0, name) {
        PyEqEquivalence(b[k].store, qs[m].0, name);
      }
    }
    ItemsForNone(qs, name);
    PyEqEquivalence(name, name, name);
    forall k | 0 <= k < |b'| ensures b'[k].items == ItemsFor(qs', b'[k].store) {
      if k < |b| {
        PyEqEquivalence(b[k].store, name, name);
      }
    }
    forall k, l | 0 <= k < l < |b'| ensures !PyEq(b'[k].store, b'[l].store) {
      if l == |b| {
        assert b'[l].store == name;
      }
    }
    forall m | 0 <= m < |qs'| ensures exists k :: 0 <= k < |b'| && PyEq(b'[k].store, qs'[m].0) {
      if m < |qs| {
        var k :| 0 <= k < |b| && PyEq(b[k].store, qs[m].0);
        assert b'[k].store == b[k].store;
      } else {
        assert b'[|b|].store == name;
      }
    }
  }

  /** Every accepted name is truthy and hashable. */
  predicate NamesHashable(ps: seq<(Value, Item)>)
  {
    forall m :: 0 <= m < |ps| ==> Hashable(ps[m].0) && Truthy(ps[m].0)
  }

  lemma {:induction false} GroupFromGrouped(b: seq<Batch>, qs: seq<(Value, Item)>, ps: seq<(Value, Item)>)
    requires GroupedAs(b, qs) && NamesHashable(ps)
    ensures GroupedAs(GroupFrom(b, ps), qs + ps)
    decreases |ps|
  {
    if |ps| > 0 {
      AddToGrouped(b, qs, ps[0].0, ps[0].1);
      assert (qs + [ps[0]]) + ps[1..] == qs + ps;
      GroupFromGrouped(AddTo(b, ps[0].0, ps[0].1), qs + [ps[0]], ps[1..]);
    } else {
      assert qs + ps == qs;
    }
  }

  // ---------------------------------------------------------------- what is accepted

  /** Each accepted pair is a listing whose store_name is that truthy,
      hashable name, tagged with the name of the file it came from. */
  predicate WellTagged(ps: seq<(Value, Item)>, files: seq<ScrapFile>)
  {
    forall m :: 0 <= m < |ps| ==> TaggedPair(ps[m], files)
  }

  predicate TaggedPair(p: (Value, Item), files: seq<ScrapFile>)
  {
    Hashable(p.0) && Truthy(p.0) && Get(p.1, "store_name") == p.0
    && exists i :: 0 <= i < |files| && IsJson(files[i]) && Lookup(p.1, "_source_file") == Some(Str(files[i].name))
  }

  lemma {:induction false} AcceptTagged(elems: seq<Value>, f: ScrapFile, files: seq<ScrapFile>)
    requires f in files && IsJson(f)
    ensures WellTagged(Accept(elems, f.name), files)
  {
    if |elems| > 0 {
      AcceptTagged(elems[1..], f, files);
      var i :| 0 <= i < |files| && files[i] == f;
      var rest := Accept(elems[1..], f.name);
      match StepFor(elems[0], f.name)
      case Stop =>
      case Pass =>
      case Take(name, item) =>
        var ps := [(name, item)] + rest;
        forall m | 0 <= m < |ps| ensures TaggedPair(ps[m], files) {
          if m > 0 {
            assert ps[m] == rest[m - 1];
          } else {
            assert Lookup(item, "_source_file") == Some(Str(files[i].name));
          }
        }
    }
  }

  lemma {:induction false} AllAcceptedTagged(files: seq<ScrapFile>, all: seq<ScrapFile>)
    requires forall i :: 0 <= i < |files| ==> files[i] in all
    ensures WellTagged(AllAccepted(files), all)
  {
    if |files| > 0 {
      AllAcceptedTagged(files[1..], all);
      var f := files[0];
      if IsJson(f) && f.content.Some? {
        AcceptTagged(Elements(f.content.value), f, all);
      }
      TaggedAppend(FileAccepted(f), AllAccepted(files[1..]), all);
    }
  }

  lemma TaggedAppend(x: seq<(Value, Item)>, y: seq<(Value, Item)>, all: seq<ScrapFile>)
    requires WellTagged(x, all) && WellTagged(y, all)
    ensures WellTagged(x + y, all)
  {
    forall m | 0 <= m < |x + y| ensures TaggedPair((x + y)[m], all) {
      if m < |x| {
        assert (x + y)[m] == x[m];
      } else {
        assert (x + y)[m] == y[m - |x|];
      }
    }
  }

  /** The ingest promise: store_batches groups exactly the accepted listings.
      Keys are pairwise different names; each batch holds, in traversal
      order, every accepted listing whose store_name equals its key and
      nothing else; every accepted listing has a batch; and every listing in
      a batch has a truthy store_name and carries its file's name in
      _source_file. Listings without a truthy store_name are never accepted. */
  lemma IngestGroups(files: seq<ScrapFile>)
    ensures GroupedAs(Ingested(files), AllAccepted(files))
    ensures WellTagged(AllAccepted(files), files)
  {
    AllAcceptedTagged(files, files);
    GroupFromGrouped([], [], AllAccepted(files));
    assert [] + AllAccepted(files) == AllAccepted(files);
  }

  predicate StoresHashable(b: seq<Batch>)
  {
    forall k :: 0 <= k < |b| ==> Hashable(b[k].store)
  }

  lemma {:induction false} GroupFromHashable(b: seq<Batch>, ps: seq<(Value, Item)>)
    requires StoresHashable(b) && NamesHashable(ps)
    ensures StoresHashable(GroupFrom(b, ps))
    decreases |ps|
  {
    if |ps| > 0 {
      var b' := AddTo(b, ps[0].0, ps[0].1);
      assert StoresHashable(b') by {
        if FindBatch(b, ps[0].0).Some? {
          var k0 := FindBatch(b, ps[0].0).value;
          assert forall k :: 0 <= k < |b'| ==> b'[k].store == b[k].store;
        } else {
          assert forall k :: 0 <= k < |b| ==> b'[k] == b[k];
        }
      }
      GroupFromHashable(b', ps[1..]);
    }
  }

  /** No two batches share a store name: each store is processed once. */
  lemma IngestedStoresDistinct(files: seq<ScrapFile>)
    ensures var b := Ingested(files);
      forall k, l :: 0 <= k < l < |b| ==> b[k].store != b[l].store
  {
    IngestGroups(files);
    GroupFromHashable([], AllAccepted(files));
    var b := Ingested(files);
    forall k, l | 0 <= k < l < |b| ensures b[k].store != b[l].store {
      PyEqEquivalence(b[k].store, b[k].store, b[k].store);
    }
  }

  /** `if isinstance(content, dict): content = [content]` */
  lemma ObjectIsOneItemList(name: string, fields: seq<(string, Value)>)
    ensures FileAccepted(ScrapFile(name, Some(Obj(fields)))) == FileAccepted(ScrapFile(name, Some(Arr([Obj(fields)]))))
  {
  }

  /** A listing without a truthy store_name is passed over, and the next one is still read. */
  lemma NamelessSkipped(fields: seq<(string, Value)>, rest: seq<Value>, filename: string)
    requires !Truthy(Get(fields, "store_name"))
    ensures Accept([Obj(fields)] + rest, filename) == Accept(rest, filename)
  {
    assert ([Obj(fields)] + rest)[1..] == rest;
  }

  /** An element that is not an object ends its file: later listings are lost. */
  lemma NonObjectEndsFile(v: Value, rest: seq<Value>, filename: string)
    requires !v.Obj?
    ensures Accept([v] + rest, filename) == []
  {
  }
}
