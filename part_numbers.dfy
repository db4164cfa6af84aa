/**
  parse_part_numbers (ScrapDB/match_products.py): turns the raw "part #"
  field of a scraped listing into the ordered list of candidate part numbers
  that the spec matcher searches for.
*/
module PartNumbers {
  import opened PyText
  import opened Json

  /** s.startswith("[") and s.endswith("]") */
  predicate Bracketed(s: string)
  {
    |s| >= 2 && s[0] == '[' && s[|s| - 1] == ']'
  }

  /** s[1:-1] */
  function Inner(s: string): string
    requires Bracketed(s)
  {
    s[1..|s| - 1]
  }

  /** p.strip().strip("'").strip('"') */
  function CleanPiece(p: string): string
  {
    StripChar(StripChar(Strip(p), '\''), '"')
  }

  function KeepNonEmpty(c: string): seq<string>
  {
    if c != "" then [c] else []
  }

  /** What the loop over content.split(',') collects: each piece cleaned,
      empty results dropped, order kept. */
  function CleanPieces(ps: seq<string>): seq<string>
  {
    if |ps| == 0 then [] else CleanPieces(ps[..|ps| - 1]) + KeepNonEmpty(CleanPiece(ps[|ps| - 1]))
  }

  /** [str(v).strip() for v in raw_val if v] */
  function ListCandidates(items: seq<Value>): seq<string>
  {
    if |items| == 0 then []
    else (if Truthy(items[0]) then [Strip(PyStr(items[0]))] else []) + ListCandidates(items[1..])
  }

  /** The candidates parse_part_numbers returns for a raw field value. */
  function Candidates(raw: Value): seq<string>
  {
    if !Truthy(raw) then []
    else if raw.Arr? then ListCandidates(raw.items)
    else
      var s := Strip(PyStr(raw));
      if Bracketed(s) then CleanPieces(Split(Inner(s), ',')) else [s]
  }

  /** parse_part_numbers, with the accumulating loop of the bracketed case. */
  method ParsePartNumbers(raw: Value) returns (parts: seq<string>)
    ensures parts == Candidates(raw)
  {
    if !Truthy(raw) {
      return [];
    }
    if raw.Arr? {
      return ListCandidates(raw.items);
    }
    var s := Strip(PyStr(raw));
    if Bracketed(s) {
      var pieces := Split(Inner(s), ',');
      parts := [];
      var i := 0;
      while i < |pieces|
        invariant 0 <= i <= |pieces|
        invariant parts == CleanPieces(pieces[..i])
      {
        var p := CleanPiece(pieces[i]);
        if p != "" {
          parts := parts + [p];
        }
        assert pieces[..i + 1][..i] == pieces[..i];
        i := i + 1;
      }
      assert pieces[..|pieces|] == pieces;
      return parts;
    }
    return [s];
  }

  // ---------------------------------------------------------------- the three basic cases

  /** A falsy field has no candidates; a list gives its stripped truthy
      elements in order; an unbracketed value gives exactly its trimmed str(). */
  lemma {:induction false} BasicCases(raw: Value)
    ensures !Truthy(raw) ==> Candidates(raw) == []
    ensures Truthy(raw) && raw.Arr? ==>
      Candidates(raw) == ListCandidates(raw.items) && |Candidates(raw)| <= |raw.items|
    ensures Truthy(raw) && !raw.Arr? && !Bracketed(Strip(PyStr(raw))) ==>
      Candidates(raw) == [Strip(PyStr(raw))]
  {
    if raw.Arr? {
      ListCandidatesLength(raw.items);
    }
  }

  lemma {:induction false} ListCandidatesLength(items: seq<Value>)
    ensures |ListCandidates(items)| <= |items|
    ensures forall c :: c in ListCandidates(items) ==>
      exists k :: 0 <= k < |items| && Truthy(items[k]) && c == Strip(PyStr(items[k]))
  {
    if |items| > 0 {
      ListCandidatesLength(items[1..]);
      forall c | c in ListCandidates(items)
        ensures exists k :: 0 <= k < |items| && Truthy(items[k]) && c == Strip(PyStr(items[k]))
      {
        if !(Truthy(items[0]) && c == Strip(PyStr(items[0]))) {
          assert c in ListCandidates(items[1..]);
          var k :| 0 <= k < |items[1..]| && Truthy(items[1..][k]) && c == Strip(PyStr(items[1..][k]));
          assert items[k + 1] == items[1..][k];
        }
      }
    }
  }

  /** Bracketed strings yield only non-empty, comma-free candidates. */
  lemma {:induction false} BracketedCandidatesClean(ps: seq<string>)
    requires forall k :: 0 <= k < |ps| ==> ',' !in ps[k]
    ensures |CleanPieces(ps)| <= |ps|
    ensures forall k :: 0 <= k < |CleanPieces(ps)| ==>
      CleanPieces(ps)[k] != "" && ',' !in CleanPieces(ps)[k]
  {
    if |ps| > 0 {
      BracketedCandidatesClean(ps[..|ps| - 1]);
      var p := ps[|ps| - 1];
      CleanPieceSub(p);
    }
  }

  /** Cleaning only removes characters: nothing that was absent appears. */
  lemma CleanPieceSub(p: string)
    ensures forall c :: c in CleanPiece(p) ==> c in p
  {
    var a := Strip(p);
    var b := StripChar(a, '\'');
    StripSub(p, IsSpace);
    StripSub(a, x => x == '\'');
    StripSub(b, x => x == '"');
  }

  lemma StripSub(s: string, p: char -> bool)
    ensures forall c :: c in StripWith(s, p) ==> c in s
  {
    StripLeftShape(s, p);
    StripRightShape(StripLeft(s, p), p);
  }

  lemma CandidatesOfBracketed(raw: Value)
    requires Truthy(raw) && !raw.Arr? && Bracketed(Strip(PyStr(raw)))
    ensures forall k :: 0 <= k < |Candidates(raw)| ==>
      Candidates(raw)[k] != "" && ',' !in Candidates(raw)[k]
  {
    var s := Strip(PyStr(raw));
    BracketedCandidatesClean(Split(Inner(s), ','));
  }

  /** A whitespace-only part number is truthy but gives the single empty
      candidate, which a substring search finds in every part number. */
  lemma BlankPartNumber(raw: Value, partNumberColumn: string)
    requires raw == Str(" ")
    ensures Candidates(raw) == [""]
    ensures Contains(partNumberColumn, Candidates(raw)[0])
  {
    assert OccursAt(partNumberColumn, "", 0);
  }

  // ---------------------------------------------------------------- stripping wrapped strings

  lemma {:induction false} StripLeftPrefix(pre: string, y: string, p: char -> bool)
    requires forall i :: 0 <= i < |pre| ==> p(pre[i])
    requires y == [] || !p(y[0])
    ensures StripLeft(pre + y, p) == y
  {
    if |pre| > 0 {
      assert (pre + y)[1..] == pre[1..] + y;
      StripLeftPrefix(pre[1..], y, p);
    } else {
      assert pre + y == y;
    }
  }

  lemma {:induction false} StripRightSuffix(y: string, post: string, p: char -> bool)
    requires forall i :: 0 <= i < |post| ==> p(post[i])
    requires y == [] || !p(y[|y| - 1])
    ensures StripRight(y + post, p) == y
  {
    if |post| > 0 {
      assert (y + post)[..|y + post| - 1] == y + post[..|post| - 1];
      StripRightSuffix(y, post[..|post| - 1], p);
    } else {
      assert y + post == y;
    }
  }

  /** Stripping a non-empty x wrapped in strippable characters gives x back,
      provided x's own ends are not strippable. */
  lemma StripWrapped(pre: string, x: string, post: string, p: char -> bool)
    requires forall i :: 0 <= i < |pre| ==> p(pre[i])
    requires forall i :: 0 <= i < |post| ==> p(post[i])
    requires x != [] && !p(x[0]) && !p(x[|x| - 1])
    ensures StripWith(pre + x + post, p) == x
  {
    assert pre + x + post == pre + (x + post);
    StripLeftPrefix(pre, x + post, p);
    StripRightSuffix(x, post, p);
  }

  /** An item between single quotes, optionally after one space, cleans to the item. */
  lemma CleanQuoted(x: string, lead: string)
    requires lead == "" || lead == " "
    requires x != [] && forall i :: 0 <= i < |x| ==> Plain(x[i])
    ensures CleanPiece(lead + "'" + x + "'") == x
  {
    var q := "'" + x + "'";
    assert lead + "'" + x + "'" == lead + q + "";
    StripWrapped(lead, q, "", IsSpace);
    StripWrapped("'", x, "'", c => c == '\'');
    StripWithFixed(x, c => c == '"');
  }

  /** An item after optional one space, with no quotes and unstripped ends,
      cleans to the item. */
  lemma CleanBare(x: string, lead: string)
    requires lead == "" || lead == " "
    requires x != [] && !IsSpace(x[0]) && !IsSpace(x[|x| - 1])
    requires '\'' !in x && '"' !in x
    ensures CleanPiece(lead + x) == x
  {
    assert lead + x == lead + x + "";
    StripWrapped(lead, x, "", IsSpace);
    StripWithFixed(x, c => c == '\'');
    StripWithFixed(x, c => c == '"');
  }

  // ---------------------------------------------------------------- round trips

  /** The first piece as is, every later one after a space: what splitting
      a ", "-join on ',' yields. */
  function SpacedAfterFirst(xs: seq<string>): seq<string>
  {
    seq(|xs|, k requires 0 <= k < |xs| => if k == 0 then xs[0] else " " + xs[k])
  }

  lemma {:induction false} SplitCommaSpaceJoin(xs: seq<string>)
    requires |xs| >= 1
    requires forall k :: 0 <= k < |xs| ==> ',' !in xs[k]
    ensures Split(Join(", ", xs), ',') == SpacedAfterFirst(xs)
  {
    if |xs| == 1 {
      SplitPrefix(xs[0], "", ',');
      assert xs[0] + "" == xs[0];
    } else {
      var j1 := Join(", ", xs[1..]);
      SplitCommaSpaceJoin(xs[1..]);
      assert Join(", ", xs) == xs[0] + ("," + (" " + j1));
      SplitAfterCommaSpace(xs[0], j1);
      SpacedCons(xs);
    }
  }

  lemma SpacedCons(xs: seq<string>)
    requires |xs| >= 2
    ensures var s := SpacedAfterFirst(xs[1..]);
      [xs[0]] + ([" " + s[0]] + s[1..]) == SpacedAfterFirst(xs)
  {
  }

  /** Splitting "a, j" on ',' gives a, then " " glued to the first piece of j. */
  lemma SplitAfterCommaSpace(a: string, j: string)
    requires ',' !in a
    ensures Split(a + ("," + (" " + j)), ',') == [a] + ([" " + Split(j, ',')[0]] + Split(j, ',')[1..])
  {
    var t := "," + (" " + j);
    SplitPrefix(a, t, ',');
    assert t[0] == ',' && t[1..] == " " + j;
    assert Split(t, ',') == [""] + Split(" " + j, ',');
    SplitPrefix(" ", j, ',');
    assert a + "" == a;
  }

  lemma {:induction false} CleanPiecesAll(ps: seq<string>, items: seq<string>)
    requires |ps| == |items|
    requires forall k :: 0 <= k < |ps| ==> CleanPiece(ps[k]) == items[k] && items[k] != ""
    ensures CleanPieces(ps) == items
  {
    if |ps| > 0 {
      CleanPiecesAll(ps[..|ps| - 1], items[..|items| - 1]);
      assert items == items[..|items| - 1] + [items[|items| - 1]];
    }
  }

  predicate ReprSafe(items: seq<string>)
  {
    forall k :: 0 <= k < |items| ==>
      (items[k] != "" && ',' !in items[k] && forall i :: 0 <= i < |items[k]| ==> Plain(items[k][i]))
  }

  function StrList(items: seq<string>): Value
  {
    Arr(seq(|items|, k requires 0 <= k < |items| => Str(items[k])))
  }

  function Quoted(items: seq<string>): seq<string>
  {
    seq(|items|, k requires 0 <= k < |items| => "'" + items[k] + "'")
  }

  /** str() of a list of plain strings is "['a', 'b', ...]". */
  lemma ReprStrList(items: seq<string>)
    requires ReprSafe(items)
    ensures PyStr(StrList(items)) == "[" + Join(", ", Quoted(items)) + "]"
  {
    var v := StrList(items);
    var reprs := seq(|v.items|, k requires 0 <= k < |v.items| => Repr(v.items[k]));
    forall k | 0 <= k < |items| ensures reprs[k] == Quoted(items)[k] {
      ReprPlainString(items[k]);
    }
    assert reprs == Quoted(items);
  }

  /** A bracketed string field goes straight to the piece loop. */
  lemma PartNumbersBracketed(s: string)
    requires Bracketed(s)
    ensures Candidates(Str(s)) == CleanPieces(Split(Inner(s), ','))
  {
    StripWithFixed(s, IsSpace);
  }

  lemma CleanSplitQuoted(items: seq<string>)
    requires ReprSafe(items)
    ensures CleanPieces(Split(Join(", ", Quoted(items)), ',')) == items
  {
    var qs := Quoted(items);
    if |items| == 0 {
      assert Join(", ", qs) == "";
      assert Split("", ',') == [""];
      assert CleanPiece("") == "";
    } else {
      forall k | 0 <= k < |qs| ensures ',' !in qs[k] {
        assert qs[k] == "'" + items[k] + "'";
      }
      SplitCommaSpaceJoin(qs);
      var ps := SpacedAfterFirst(qs);
      forall k | 0 <= k < |ps| ensures CleanPiece(ps[k]) == items[k] {
        var lead := if k == 0 then "" else " ";
        assert ps[k] == lead + "'" + items[k] + "'";
        CleanQuoted(items[k], lead);
      }
      CleanPiecesAll(ps, items);
    }
  }

  /** parse_part_numbers inverts str() of a list of non-empty, comma-free
      strings without quotes, backslashes or unprintable characters
      (the MetaPartNumber column written by SpecDB/UpdateToSupabase.py). */
  lemma ListStringRoundTrip(items: seq<string>)
    requires ReprSafe(items)
    ensures Candidates(Str(PyStr(StrList(items)))) == items
  {
    ReprStrList(items);
    var j := Join(", ", Quoted(items));
    var s := "[" + j + "]";
    assert Bracketed(s) && Inner(s) == j;
    PartNumbersBracketed(s);
    CleanSplitQuoted(items);
  }

  lemma CleanSplitBare(items: seq<string>)
    requires BareSafe(items)
    ensures CleanPieces(Split(Join(", ", items), ',')) == items
  {
    if |items| == 0 {
      assert Split("", ',') == [""];
      assert CleanPiece("") == "";
    } else {
      SplitCommaSpaceJoin(items);
      var ps := SpacedAfterFirst(items);
      forall k | 0 <= k < |ps| ensures CleanPiece(ps[k]) == items[k] {
        var lead := if k == 0 then "" else " ";
        assert ps[k] == lead + items[k];
        CleanBare(items[k], lead);
      }
      CleanPiecesAll(ps, items);
    }
  }

  predicate BareSafe(items: seq<string>)
  {
    forall k :: 0 <= k < |items| ==>
      (items[k] != "" && ',' !in items[k] && '\'' !in items[k] && '"' !in items[k]
       && !IsSpace(items[k][0]) && !IsSpace(items[k][|items[k]| - 1]))
  }

  /** parse_part_numbers inverts the "[v1, v2]" list strings that
      SpecDB/Scrap_PCPP.py writes from stripped, comma-free, quote-free values. */
  lemma BracketJoinRoundTrip(items: seq<string>)
    requires BareSafe(items)
    ensures Candidates(Str("[" + Join(", ", items) + "]")) == items
  {
    var j := Join(", ", items);
    var s := "[" + j + "]";
    assert Bracketed(s) && Inner(s) == j;
    PartNumbersBracketed(s);
    CleanSplitBare(items);
  }

  /** The worked example in repr() spelling: "['A1', 'A2']" gives ["A1", "A2"]. */
  lemma ExampleQuotedList()
    ensures Candidates(Str("['A1', 'A2']")) == ["A1", "A2"]
  {
    var items := ["A1", "A2"];
    assert Quoted(items)[0] == "'A1'" && Quoted(items)[1] == "'A2'";
    assert Quoted(items) == ["'A1'", "'A2'"];
    var qs := Quoted(items);
    assert qs == ["'A1'", "'A2'"];
    assert qs[1..] == ["'A2'"];
    assert Join(", ", qs[1..]) == "'A2'";
    var j := Join(", ", qs);
    assert j == "'A1'" + ", " + "'A2'";
    assert j == "'A1', 'A2'";
    var s := "[" + j + "]";
    assert s == "['A1', 'A2']";
    assert Bracketed(s) && Inner(s) == j;
    assert ReprSafe(items);
    CleanSplitQuoted(items);
    PartNumbersBracketed(s);
  }

  /** The worked example in bare spelling: "[A1, A2]" gives ["A1", "A2"]. */
  lemma ExampleBareList()
    ensures Candidates(Str("[A1, A2]")) == ["A1", "A2"]
  {
    var items := ["A1", "A2"];
    var j := Join(", ", items);
    assert j == "A1, A2";
    var s := "[" + j + "]";
    assert s == "[A1, A2]";
    assert Bracketed(s) && Inner(s) == j;
    assert BareSafe(items);
    CleanSplitBare(items);
    PartNumbersBracketed(s);
  }

  /** An unbracketed value is one candidate: "A1" gives ["A1"]. */
  lemma ExampleSingle()
    ensures Candidates(Str("A1")) == ["A1"]
  {
    StripWithFixed("A1", IsSpace);
  }

  /** A missing or empty field, or "[]", gives no candidates. */
  lemma ExampleEmpty()
    ensures Candidates(Null) == [] && Candidates(Str("")) == []
    ensures Candidates(Str("[]")) == []
  {
    PartNumbersBracketed("[]");
    assert Inner("[]") == "";
    assert Split("", ',') == [""];
    assert CleanPiece("") == "";
  }
}
