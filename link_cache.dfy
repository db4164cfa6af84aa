/**
  SpecDB/Rebuild_PCPP_Links.py: rebuilds the cache of PCPartPicker links
  that have already been scraped, from the JSON records in the data
  directory. Every ".json" file is counted; a record without a link or with
  an unknown product name is counted as skipped; the other links are
  stripped, deduplicated and written out in ascending order, one per line.

  The directory walk is a sequence of files in walk order, each with its
  decoded record or None when reading or decoding it fails.
*/
module LinkCache {
  import opened Wrappers
  import opened Dicts
  import opened PyText
  import opened Json
  import opened Sorting
  import opened SpecUpload

  /** What the loop does with one file. */
  datatype Verdict =
    | NotJson          // the name does not end in ".json"
    | Failed           // reading, decoding or a method call on the record raised
    | NoUrl            // counted in skipped_no_url
    | UnknownName      // counted in skipped_unknown
    | Accepted(link: string)

  /** The name the record is filed under: "Unknown Product" when the key is missing. */
  function NameOf(fields: seq<(string, Value)>): Value
  {
    Lookup(fields, "name").GetOr(Str("Unknown Product"))
  }

  /** data.get("pcpartpicker_url") or data.get("url") */
  function UrlOf(fields: seq<(string, Value)>): Value
  {
    Or(Get(fields, "pcpartpicker_url"), Get(fields, "url"))
  }

  function VerdictOf(f: RecordFile): Verdict
  {
    if !EndsWith(f.name, ".json") then NotJson
    else if f.content.None? || !f.content.value.Obj? then Failed
    else
      var fields := f.content.value.fields;
      var url := UrlOf(fields);
      if !Truthy(url) then NoUrl
      else if NameOf(fields) == Str("Unknown Product") || NameOf(fields) == Str("Unknown") then UnknownName
      else if !url.Str? then Failed
      else Accepted(Strip(url.s))
  }

  /** The link check comes first: a record without a link is counted as
      missing its url whatever its name. */
  lemma NoUrlFirst(f: RecordFile)
    requires EndsWith(f.name, ".json") && f.content.Some? && f.content.value.Obj?
    ensures VerdictOf(f) == NoUrl <==> !Truthy(UrlOf(f.content.value.fields))
    ensures !Truthy(Get(f.content.value.fields, "pcpartpicker_url")) && !Truthy(Get(f.content.value.fields, "url"))
      ==> VerdictOf(f) == NoUrl
  {
  }

  /** A record with a link but without a name is skipped as unknown; the
      pcpartpicker_url field wins over url when it is set. */
  lemma UnknownByDefault(f: RecordFile)
    requires EndsWith(f.name, ".json") && f.content.Some? && f.content.value.Obj?
    requires Truthy(UrlOf(f.content.value.fields))
    ensures !HasKey(f.content.value.fields, "name") ==> VerdictOf(f) == UnknownName
    ensures var fields := f.content.value.fields;
      var p := Get(fields, "pcpartpicker_url");
      VerdictOf(f).Accepted? && p.Str? && p.s != "" ==> VerdictOf(f).link == Strip(p.s)
  {
  }

  /** Every accepted link comes from the record's link field and is stripped. */
  lemma AcceptedLink(f: RecordFile)
    requires VerdictOf(f).Accepted?
    ensures var fields := f.content.value.fields;
      && UrlOf(fields).Str? && VerdictOf(f).link == Strip(UrlOf(fields).s)
      && NameOf(fields) != Str("Unknown Product") && NameOf(fields) != Str("Unknown")
    ensures Strip(VerdictOf(f).link) == VerdictOf(f).link
  {
    StripWithIdempotent(UrlOf(f.content.value.fields).s, IsSpace);
  }

  /** The three counters the script prints. */
  datatype Counters = Counters(filesProcessed: nat, skippedUnknown: nat, skippedNoUrl: nat)

  function CountersOf(files: seq<RecordFile>): Counters
  {
    if |files| == 0 then Counters(0, 0, 0)
    else
      var c := CountersOf(files[..|files| - 1]);
      var v := VerdictOf(files[|files| - 1]);
      Counters(
        c.filesProcessed + (if v.NotJson? then 0 else 1),
        c.skippedUnknown + (if v.UnknownName? then 1 else 0),
        c.skippedNoUrl + (if v.NoUrl? then 1 else 0))
  }

  /** The number of files whose link was accepted. */
  function AcceptedCount(files: seq<RecordFile>): nat
  {
    if |files| == 0 then 0
    else AcceptedCount(files[..|files| - 1]) + (if VerdictOf(files[|files| - 1]).Accepted? then 1 else 0)
  }

  /** The number of ".json" files. */
  function JsonFiles(files: seq<RecordFile>): nat
  {
    if |files| == 0 then 0
    else JsonFiles(files[..|files| - 1]) + (if EndsWith(files[|files| - 1].name, ".json") then 1 else 0)
  }

  /** unique_links */
  function LinkSet(files: seq<RecordFile>): set<string>
  {
    if |files| == 0 then {}
    else
      var v := VerdictOf(files[|files| - 1]);
      LinkSet(files[..|files| - 1]) + (if v.Accepted? then {v.link} else {})
  }

  /** Every ".json" file is counted, readable or not; the skips and the
      accepted records together never outnumber the files processed, and
      there are no more distinct links than accepted records. */
  lemma {:induction false} CountersBound(files: seq<RecordFile>)
    ensures CountersOf(files).filesProcessed == JsonFiles(files)
    ensures CountersOf(files).skippedNoUrl + CountersOf(files).skippedUnknown + AcceptedCount(files)
      <= CountersOf(files).filesProcessed
    ensures |LinkSet(files)| <= AcceptedCount(files)
  {
    if |files| > 0 {
      var init := files[..|files| - 1];
      CountersBound(init);
      var v := VerdictOf(files[|files| - 1]);
      if v.Accepted? {
        assert |LinkSet(init) + {v.link}| <= |LinkSet(init)| + 1;
      }
    }
  }

  /** The files whose verdict accepts the link l. */
  predicate AcceptedIn(files: seq<RecordFile>, l: string)
  {
    exists k :: 0 <= k < |files| && VerdictOf(files[k]) == Accepted(l)
  }

  lemma AcceptedInAppend(files: seq<RecordFile>, f: RecordFile, l: string)
    ensures AcceptedIn(files + [f], l) <==> AcceptedIn(files, l) || VerdictOf(f) == Accepted(l)
  {
    var g := files + [f];
    if AcceptedIn(files, l) {
      var k :| 0 <= k < |files| && VerdictOf(files[k]) == Accepted(l);
      assert g[k] == files[k];
    }
    if VerdictOf(f) == Accepted(l) {
      assert g[|files|] == f;
    }
    if AcceptedIn(g, l) {
      var k :| 0 <= k < |g| && VerdictOf(g[k]) == Accepted(l);
      if k < |files| {
        assert files[k] == g[k];
      }
    }
  }

  /** The links in the set are exactly the accepted links of the files. */
  lemma {:induction false} LinkSetMembers(files: seq<RecordFile>, l: string)
    ensures l in LinkSet(files) <==> AcceptedIn(files, l)
  {
    if |files| > 0 {
      var init := files[..|files| - 1];
      LinkSetMembers(init, l);
      AcceptedInAppend(init, files[|files| - 1], l);
      assert init + [files[|files| - 1]] == files;
    }
  }

  // ---------------------------------------------------------------- sorted output

  predicate NoDuplicates(s: seq<string>)
  {
    forall i, j :: 0 <= i < j < |s| ==> s[i] != s[j]
  }

  /** Each line is strictly below the next one. */
  predicate StrictlyAscending(s: seq<string>)
  {
    forall i, j :: 0 <= i < j < |s| ==> LexLess(s[i], s[j])
  }

  lemma {:induction false} CountAtMostOne(s: seq<string>, x: string)
    requires NoDuplicates(s)
    ensures multiset(s)[x] <= 1
  {
    if |s| > 0 {
      CountAtMostOne(s[1..], x);
      assert s == [s[0]] + s[1..];
      if s[0] == x {
        assert x !in s[1..];
      }
    }
  }

  lemma NoDuplicatesKept(a: seq<string>, b: seq<string>)
    requires multiset(a) == multiset(b) && NoDuplicates(a)
    ensures NoDuplicates(b)
  {
    forall i, j | 0 <= i < j < |b| ensures b[i] != b[j] {
      if b[i] == b[j] {
        assert b == b[..j] + b[j..];
        assert b[i] in multiset(b[..j]) && b[j] in multiset(b[j..]);
        assert multiset(b)[b[i]] == multiset(b[..j])[b[i]] + multiset(b[j..])[b[i]];
        CountAtMostOne(a, b[i]);
      }
    }
  }

  /** The file contents are fixed by the set alone: two strictly ascending
      lists with the same elements are the same list. */
  lemma {:induction false} AscendingUnique(a: seq<string>, b: seq<string>)
    requires StrictlyAscending(a) && StrictlyAscending(b)
    requires forall x :: x in a <==> x in b
    ensures a == b
  {
    assert |a| > 0 ==> a[0] in b;
    assert |b| > 0 ==> b[0] in a;
    if |a| > 0 && |b| > 0 {
      assert a[0] == b[0] by {
        assert a[0] in a && b[0] in b;
        var ka :| 0 <= ka < |b| && b[ka] == a[0];
        var kb :| 0 <= kb < |a| && a[kb] == b[0];
        if a[0] != b[0] {
          assert ka > 0 && kb > 0;
          LexLessAsymmetric(b[0], b[ka]);
          assert false;
        }
      }
      forall x ensures x in a[1..] <==> x in b[1..] {
        if x in a[1..] {
          var k :| 1 <= k < |a| && a[k] == x;
          LexLessIrreflexive(a[0]);
          assert x != a[0] && x in b;
        }
        if x in b[1..] {
          var k :| 1 <= k < |b| && b[k] == x;
          LexLessIrreflexive(b[0]);
          assert x != b[0] && x in a;
        }
      }
      AscendingUnique(a[1..], b[1..]);
      assert a == [a[0]] + a[1..] && b == [b[0]] + b[1..];
    }
  }

  /** sorted(unique_links) for links collected without repetition. */
  lemma SortedLinks(links: seq<string>)
    requires NoDuplicates(links)
    ensures StrictlyAscending(SortBy(links, Itself))
    ensures forall x :: x in SortBy(links, Itself) <==> x in links
  {
    SortBySorted(links, Itself);
    NoDuplicatesKept(links, SortBy(links, Itself));
    StrictlySorted(SortBy(links, Itself));
    forall x ensures x in SortBy(links, Itself) <==> x in links {
      assert x in SortBy(links, Itself) <==> x in multiset(SortBy(links, Itself));
    }
  }

  // ---------------------------------------------------------------- main

  /** What main leaves behind: the lines of the cache file and its counters. */
  datatype Rebuilt = Rebuilt(lines: seq<string>, counters: Counters)

  /** main: nothing happens when the data directory is missing. */
  method RebuildLinkCache(dirExists: bool, files: seq<RecordFile>) returns (r: Option<Rebuilt>)
    ensures r.Some? <==> dirExists
    ensures r.Some? ==>
      && r.value.counters == CountersOf(files)
      && StrictlyAscending(r.value.lines)
      && (forall l :: l in r.value.lines <==> l in LinkSet(files))
      && |r.value.lines| == |LinkSet(files)|
  {
    if !dirExists {
      return None;
    }
    var uniqueLinks: set<string> := {};
    var links: seq<string> := [];
    var filesProcessed, skippedUnknown, skippedNoUrl := 0, 0, 0;
    for i := 0 to |files|
      invariant uniqueLinks == LinkSet(files[..i])
      invariant forall l :: l in links <==> l in uniqueLinks
      invariant NoDuplicates(links)
      invariant Counters(filesProcessed, skippedUnknown, skippedNoUrl) == CountersOf(files[..i])
    {
      assert files[..i + 1][..i] == files[..i];
      var f := files[i];
      if !EndsWith(f.name, ".json") {
        continue;
      }
      filesProcessed := filesProcessed + 1;
      if f.content.None? || !f.content.value.Obj? {
        continue;
      }
      var data := f.content.value.fields;
      var name := Lookup(data, "name").GetOr(Str("Unknown Product"));
      var url := Or(Get(data, "pcpartpicker_url"), Get(data, "url"));
      if !Truthy(url) {
        skippedNoUrl := skippedNoUrl + 1;
        continue;
      }
      if name == Str("Unknown Product") || name == Str("Unknown") {
        skippedUnknown := skippedUnknown + 1;
        continue;
      }
      if !url.Str? {
        continue;
      }
      var link := Strip(url.s);
      if link !in uniqueLinks {
        links := links + [link];
      }
      uniqueLinks := uniqueLinks + {link};
    }
    assert files[..|files|] == files;
    SortedLinks(links);
    var lines := SortBy(links, Itself);
    assert |lines| == |uniqueLinks| by {
      SortBySorted(links, Itself);
      DistinctCard(lines, uniqueLinks);
    }
    r := Some(Rebuilt(lines, Counters(filesProcessed, skippedUnknown, skippedNoUrl)));
  }

  /** A list without repetition has as many elements as the set it lists. */
  lemma {:induction false} DistinctCard(s: seq<string>, t: set<string>)
    requires NoDuplicates(s)
    requires forall x :: x in s <==> x in t
    ensures |s| == |t|
  {
    if |s| > 0 {
      var rest := t - {s[0]};
      forall x ensures x in s[1..] <==> x in rest {
        if x in s[1..] {
          var k :| 1 <= k < |s| && s[k] == x;
        }
      }
      DistinctCard(s[1..], rest);
    }
  }
}
