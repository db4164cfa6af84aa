/**
  Phase A of process_daily_scraps (ScrapDB/match_products.py): each listing
  of one store is matched to a spec id, and the cheapest observation of
  every spec id is kept in unique_products_today; listings of a known
  category that match nothing are logged.

  The price is read with a bare int(), so a string such as "$1.990" is
  rejected and its listing dropped; a later offer replaces the kept one only
  when it is strictly cheaper, so a tie keeps the first offer seen.
*/
module Dedup {
  import opened Wrappers
  import opened Dicts
  import opened PyText
  import opened Json
  import opened Categories
  import opened SpecMatcher
  import opened Ingest

  /** What unique_products_today keeps for a spec id besides the id itself. */
  datatype Winner = Winner(table: string, price: int, url: Value, imageUrl: Value)

  /** What one listing comes to. */
  datatype Observation =
    | Skipped                  // a falsy type, part # or price, or an unknown category: no log line
    | Unmatched(line: string)  // a known category without a spec match: one log line
    | Unpriced                 // matched, but int(price) fails: dropped without a log line
    | Priced(id: string, offer: Winner)
    | Crashed                  // an unhashable type: CATEGORY_TO_TABLE.get raises and the run ends

  /** f"[{source_file}] {url} | TYPE: {raw_type} | PN: {part_num}" */
  function UnmatchedLine(source: Value, url: Value, rawType: Value, partNumber: Value): string
  {
    "[" + PyStr(source) + "] " + PyStr(url) + " | TYPE: " + PyStr(rawType) + " | PN: " + PyStr(partNumber)
  }

  /** CATEGORY_TO_TABLE.get(raw_type) for a hashable value: only strings are keys. */
  function TargetOf(rawType: Value): (r: Option<Target>)
    ensures r.Some? ==> rawType.Str? && TargetTruthy(r.value) && UsableTarget(r.value)
  {
    if rawType.Str? then CategoryToTable(rawType.s) else None
  }

  /** The body of the dedup loop for one listing, up to the dictionary update. */
  function Observe(item: Item, query: Query): Observation
  {
    var rawType := Get(item, "type");
    var partNumber := Get(item, "part #");
    var price := Get(item, "price");
    var url := Get(item, "url");
    var source := Lookup(item, "_source_file").GetOr(Str("unknown"));
    if !Truthy(rawType) || !Truthy(partNumber) || !Truthy(price) then Skipped
    else if !Hashable(rawType) then Crashed
    else
      var target := TargetOf(rawType);
      if target.None? || !TargetTruthy(target.value) then Skipped
      else
        var found := FindSpecId(target.value, partNumber, query);
        if found.Some? && found.value.id != "" && found.value.table != "" then
          match PyInt(price)
          case None => Unpriced
          case Some(p) => Priced(found.value.id, Winner(found.value.table, p, url, Get(item, "image_url")))
        else
          Unmatched(UnmatchedLine(source, url, rawType, partNumber))
  }

  function ObserveAll(items: seq<Item>, query: Query): (r: seq<Observation>)
    ensures |r| == |items|
  {
    seq(|items|, k requires 0 <= k < |items| => Observe(items[k], query))
  }

  /** unique_products_today and unmatched_buffer after the loop. */
  datatype Tally = Tally(unique: seq<(string, Winner)>, unmatched: seq<string>)

  /** The minimum-price update: a new id is stored, a known one replaced only
      by a strictly lower price. */
  function Record(unique: seq<(string, Winner)>, id: string, w: Winner): seq<(string, Winner)>
  {
    match Lookup(unique, id)
    case Some(existing) => if w.price < existing.price then Put(unique, id, w) else unique
    case None => Put(unique, id, w)
  }

  /** The loop over a store's observations; None once one of them crashes. */
  function TallyOf(obs: seq<Observation>): Option<Tally>
  {
    if |obs| == 0 then Some(Tally([], []))
    else
      match TallyOf(obs[..|obs| - 1])
      case None => None
      case Some(t) =>
        match obs[|obs| - 1]
        case Crashed => None
        case Priced(id, w) => Some(Tally(Record(t.unique, id, w), t.unmatched))
        case Unmatched(line) => Some(Tally(t.unique, t.unmatched + [line]))
        case Skipped => Some(t)
        case Unpriced => Some(t)
  }

  lemma {:induction false} CrashPersists(obs: seq<Observation>, i: nat)
    requires i <= |obs| && TallyOf(obs[..i]).None?
    ensures TallyOf(obs).None?
    decreases |obs| - i
  {
    if i < |obs| {
      assert obs[..i + 1][..i] == obs[..i];
      CrashPersists(obs, i + 1);
    } else {
      assert obs[..i] == obs;
    }
  }

  /** Phase A for one store, as the source runs it. None: the run aborted. */
  method DedupStore(items: seq<Item>, query: Query) returns (r: Option<Tally>)
    ensures r == TallyOf(ObserveAll(items, query))
  {
    ghost var obs := ObserveAll(items, query);
    var unique: seq<(string, Winner)> := [];
    var unmatched: seq<string> := [];
    var i := 0;
    while i < |items|
      invariant 0 <= i <= |items|
      invariant TallyOf(obs[..i]) == Some(Tally(unique, unmatched))
    {
      var o := Observe(items[i], query);
      assert obs[..i + 1][..i] == obs[..i] && obs[i] == o;
      match o {
        case Crashed =>
          CrashPersists(obs, i + 1);
          return None;
        case Priced(id, w) =>
          var existing := Lookup(unique, id);
          if existing.Some? {
            if w.price < existing.value.price {
              unique := Put(unique, id, w);
            }
          } else {
            unique := Put(unique, id, w);
          }
        case Unmatched(line) =>
          unmatched := unmatched + [line];
        case Skipped =>
        case Unpriced =>
      }
      i := i + 1;
    }
    assert obs[..i] == obs;
    return Some(Tally(unique, unmatched));
  }

  // ---------------------------------------------------------------- minimum price, first seen wins

  predicate PricedFor(o: Observation, id: string)
  {
    o.Priced? && o.id == id
  }

  /** Observation k is the earliest one of id at the lowest price of id. */
  predicate IsBest(obs: seq<Observation>, id: string, k: int)
  {
    0 <= k < |obs| && PricedFor(obs[k], id)
    && (forall j :: 0 <= j < |obs| && PricedFor(obs[j], id) ==> obs[k].offer.price <= obs[j].offer.price)
    && (forall j :: 0 <= j < k && PricedFor(obs[j], id) ==> obs[k].offer.price < obs[j].offer.price)
  }

  /** The log lines of the unmatched observations, in order. */
  function UnmatchedLines(obs: seq<Observation>): seq<string>
  {
    if |obs| == 0 then []
    else UnmatchedLines(obs[..|obs| - 1]) + (if obs[|obs| - 1].Unmatched? then [obs[|obs| - 1].line] else [])
  }

  /** The dict holds exactly the ids of the priced observations. */
  ghost predicate KeysCovered(obs: seq<Observation>, unique: seq<(string, Winner)>)
  {
    forall id :: HasKey(unique, id) <==> exists k :: 0 <= k < |obs| && PricedFor(obs[k], id)
  }

  /** Each entry is the offer of the best observation of its id. */
  ghost predicate BestKept(obs: seq<Observation>, unique: seq<(string, Winner)>)
  {
    forall id :: HasKey(unique, id) ==>
      exists k :: IsBest(obs, id, k) && obs[k].offer == Lookup(unique, id).value
  }

  ghost predicate TallyMeets(obs: seq<Observation>, t: Tally)
  {
    DistinctKeys(t.unique) && t.unmatched == UnmatchedLines(obs)
    && KeysCovered(obs, t.unique) && BestKept(obs, t.unique)
  }

  lemma PricedKeys(obs: seq<Observation>, unique: seq<(string, Winner)>, id: string, w: Winner)
    requires KeysCovered(obs, unique)
    ensures KeysCovered(obs + [Priced(id, w)], Record(unique, id, w))
  {
    var obs' := obs + [Priced(id, w)];
    var u' := Record(unique, id, w);
    forall x ensures HasKey(u', x) <==> exists k :: 0 <= k < |obs'| && PricedFor(obs'[k], x) {
      if x == id {
        assert obs'[|obs|] == Priced(id, w);
        assert PricedFor(obs'[|obs|], x);
        assert HasKey(u', x) by {
          if HasKey(unique, id) {
          } else {
            assert Lookup(u', id) == Some(w);
          }
        }
      } else {
        assert Lookup(u', x) == Lookup(unique, x);
        assert HasKey(unique, x) <==> exists k :: 0 <= k < |obs| && PricedFor(obs[k], x);
        if exists k :: 0 <= k < |obs| && PricedFor(obs[k], x) {
          var k :| 0 <= k < |obs| && PricedFor(obs[k], x);
          assert obs'[k] == obs[k];
        }
        if exists k :: 0 <= k < |obs'| && PricedFor(obs'[k], x) {
          var k :| 0 <= k < |obs'| && PricedFor(obs'[k], x);
          assert k < |obs| && obs'[k] == obs[k];
        }
      }
    }
  }

  /** An earlier best observation stays best after a later one of another id
      or one that is not strictly cheaper. */
  lemma BestExtends(obs: seq<Observation>, o: Observation, x: string, k: int)
    requires IsBest(obs, x, k)
    requires PricedFor(o, x) ==> obs[k].offer.price <= o.offer.price
    ensures IsBest(obs + [o], x, k) && (obs + [o])[k] == obs[k]
  {
    var obs' := obs + [o];
    assert forall j :: 0 <= j < |obs| ==> obs'[j] == obs[j];
  }

  /** A new observation strictly cheaper than every earlier one of its id is the best. */
  lemma BestNew(obs: seq<Observation>, id: string, w: Winner)
    requires forall j :: 0 <= j < |obs| && PricedFor(obs[j], id) ==> w.price < obs[j].offer.price
    ensures IsBest(obs + [Priced(id, w)], id, |obs|)
  {
    var obs' := obs + [Priced(id, w)];
    assert forall j :: 0 <= j < |obs| ==> obs'[j] == obs[j];
  }

  lemma PricedBest(obs: seq<Observation>, unique: seq<(string, Winner)>, id: string, w: Winner)
    requires KeysCovered(obs, unique) && BestKept(obs, unique)
    ensures BestKept(obs + [Priced(id, w)], Record(unique, id, w))
  {
    var o := Priced(id, w);
    var obs' := obs + [o];
    var u' := Record(unique, id, w);
    forall x | HasKey(u', x) ensures exists k :: IsBest(obs', x, k) && obs'[k].offer == Lookup(u', x).value {
      if x != id {
        var k :| IsBest(obs, x, k) && obs[k].offer == Lookup(unique, x).value;
        BestExtends(obs, o, x, k);
      } else {
        match Lookup(unique, id)
        case None =>
          assert !exists k :: 0 <= k < |obs| && PricedFor(obs[k], id);
          BestNew(obs, id, w);
        case Some(existing) =>
          var k :| IsBest(obs, id, k) && obs[k].offer == existing;
          if w.price < existing.price {
            BestNew(obs, id, w);
          } else {
            BestExtends(obs, o, id, k);
          }
      }
    }
  }

  lemma PricedStep(obs: seq<Observation>, t: Tally, id: string, w: Winner)
    requires TallyMeets(obs, t)
    ensures TallyMeets(obs + [Priced(id, w)], Tally(Record(t.unique, id, w), t.unmatched))
  {
    var obs' := obs + [Priced(id, w)];
    assert obs'[..|obs|] == obs;
    PutDistinct(t.unique, id, w);
    PricedKeys(obs, t.unique, id, w);
    PricedBest(obs, t.unique, id, w);
  }

  lemma OtherStep(obs: seq<Observation>, t: Tally, o: Observation)
    requires TallyMeets(obs, t) && !o.Priced? && !o.Crashed?
    ensures TallyMeets(obs + [o], if o.Unmatched? then Tally(t.unique, t.unmatched + [o.line]) else t)
  {
    var obs' := obs + [o];
    assert obs'[..|obs|] == obs;
    forall x ensures HasKey(t.unique, x) <==> exists k :: 0 <= k < |obs'| && PricedFor(obs'[k], x) {
      if exists k :: 0 <= k < |obs| && PricedFor(obs[k], x) {
        var k :| 0 <= k < |obs| && PricedFor(obs[k], x);
        assert obs'[k] == obs[k];
      }
      if exists k :: 0 <= k < |obs'| && PricedFor(obs'[k], x) {
        var k :| 0 <= k < |obs'| && PricedFor(obs'[k], x);
        assert k < |obs| && obs'[k] == obs[k];
      }
    }
    forall x | HasKey(t.unique, x) ensures exists k :: IsBest(obs', x, k) && obs'[k].offer == Lookup(t.unique, x).value {
      var k :| IsBest(obs, x, k) && obs[k].offer == Lookup(t.unique, x).value;
      BestExtends(obs, o, x, k);
    }
  }

  /** What unique_products_today and unmatched_buffer hold after a store's
      loop that did not crash: the dict is keyed by spec id alone and holds
      exactly the ids of the priced matches; each entry comes from the
      earliest observation at that id's minimum price (a later one replaces
      it only when strictly cheaper); the log holds one line per unmatched
      listing, in input order. */
  lemma {:induction false} TallyCorrect(obs: seq<Observation>)
    ensures TallyOf(obs).Some? ==> TallyMeets(obs, TallyOf(obs).value)
  {
    if |obs| > 0 {
      var init := obs[..|obs| - 1];
      var o := obs[|obs| - 1];
      TallyCorrect(init);
      assert init + [o] == obs;
      if TallyOf(init).Some? && !o.Crashed? {
        var t := TallyOf(init).value;
        if o.Priced? {
          PricedStep(init, t, o.id, o.offer);
        } else {
          OtherStep(init, t, o);
        }
      }
    }
  }

  /** The run survives a store exactly when none of its listings crashes. */
  /** A listing aborts the pass exactly when its type, part # and price are
      all truthy and its type cannot be hashed; other listings are skipped first. */
  lemma ObserveCrashes(item: Item, query: Query)
    ensures Observe(item, query).Crashed? <==>
      Truthy(Get(item, "type")) && Truthy(Get(item, "part #")) && Truthy(Get(item, "price"))
      && !Hashable(Get(item, "type"))
  {
  }

  lemma {:induction false} TallyAborts(obs: seq<Observation>)
    ensures TallyOf(obs).None? <==> exists k :: 0 <= k < |obs| && obs[k].Crashed?
  {
    if |obs| > 0 {
      var init := obs[..|obs| - 1];
      TallyAborts(init);
      assert forall k :: 0 <= k < |init| ==> init[k] == obs[k];
      if exists k :: 0 <= k < |init| && init[k].Crashed? {
        var k :| 0 <= k < |init| && init[k].Crashed?;
        assert obs[k].Crashed?;
      }
    }
  }

  // ---------------------------------------------------------------- dropping and logging rules

  /** A listing with a falsy type, part # or price, or whose type is a
      hashable value that is not a known category, is skipped without a log line. */
  lemma SkippedListings(item: Item, query: Query)
    ensures !Truthy(Get(item, "type")) || !Truthy(Get(item, "part #")) || !Truthy(Get(item, "price"))
      ==> Observe(item, query) == Skipped
    ensures Truthy(Get(item, "type")) && Truthy(Get(item, "part #")) && Truthy(Get(item, "price"))
      && Hashable(Get(item, "type")) && TargetOf(Get(item, "type")).None?
      ==> Observe(item, query) == Skipped
  {
  }

  /** A listing of a known category logs exactly its line when find_spec_id
      finds nothing, and a matched listing whose price int() rejects is dropped. */
  lemma LoggedAndDropped(item: Item, query: Query)
    requires Truthy(Get(item, "type")) && Truthy(Get(item, "part #")) && Truthy(Get(item, "price"))
    requires TargetOf(Get(item, "type")).Some?
    ensures var found := FindSpecId(TargetOf(Get(item, "type")).value, Get(item, "part #"), query);
      found.None? ==>
        Observe(item, query) == Unmatched(UnmatchedLine(
          Lookup(item, "_source_file").GetOr(Str("unknown")), Get(item, "url"),
          Get(item, "type"), Get(item, "part #")))
    ensures var found := FindSpecId(TargetOf(Get(item, "type")).value, Get(item, "part #"), query);
      found.Some? && found.value.id != "" && PyInt(Get(item, "price")).None? ==>
        Observe(item, query) == Unpriced
  {
    var target := TargetOf(Get(item, "type")).value;
    assert Hashable(Get(item, "type")) && TargetTruthy(target);
    var found := FindSpecId(target, Get(item, "part #"), query);
    FindSpecIdFirstHit(target, Get(item, "part #"), query);
    if found.Some? {
      assert found.value.table != "";
    }
  }

  /** A price is whatever int() accepts: a plain decimal string is read as
      its value, one with a currency sign is dropped, a bool is 0 or 1. */
  lemma PriceParsing()
    ensures PyInt(Str("$1.990")) == None
    ensures forall n: int {:trigger Decimal(n)} :: PyInt(Str(Decimal(n))) == Some(n)
    ensures PyInt(Bool(true)) == Some(1)
  {
    assert !IsDigit('$');
    forall n: int ensures PyInt(Str(Decimal(n))) == Some(n) {
      DecimalRoundTrip(n);
    }
  }
}
