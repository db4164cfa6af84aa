/**
  find_spec_id (ScrapDB/match_products.py): searches the target tables in
  order and, inside each table, the part-number candidates in order, and
  returns the first (Id, table) any lookup yields.
*/
module SpecMatcher {
  import opened Wrappers
  import opened PyText
  import opened Json
  import opened Categories
  import opened PartNumbers

  /** What one lookup `MetaPartNumber ilike '%candidate%' limit 1` gives:
      the Id of the first row returned, no rows, or an exception. */
  datatype Answer = Row(id: string) | NoRows | Raised

  /** The database seen through that lookup: (table, candidate) to answer. */
  type Query = (string, string) -> Answer

  /** A spec id together with the table it was found in. */
  datatype Match = Match(id: string, table: string)

  /** The inner loop over the candidates for one table. */
  function SearchCandidates(table: string, candidates: seq<string>, query: Query): Option<Match>
  {
    if |candidates| == 0 then None
    else if query(table, candidates[0]).Row? then Some(Match(query(table, candidates[0]).id, table))
    else SearchCandidates(table, candidates[1..], query)
  }

  /** The outer loop over the target tables. */
  function SearchTables(tables: seq<string>, candidates: seq<string>, query: Query): Option<Match>
  {
    if |tables| == 0 then None
    else
      var hit := SearchCandidates(tables[0], candidates, query);
      if hit.Some? then hit else SearchTables(tables[1..], candidates, query)
  }

  /** find_spec_id(tables, part_number); None stands for (None, None). */
  function FindSpecId(target: Target, partNumber: Value, query: Query): Option<Match>
  {
    var candidates := Candidates(partNumber);
    if candidates == [] then None else SearchTables(TargetTables(target), candidates, query)
  }

  // ---------------------------------------------------------------- first hit wins

  lemma {:induction false} SearchCandidatesFirst(table: string, cs: seq<string>, query: Query)
    ensures SearchCandidates(table, cs, query).None? <==>
      forall j :: 0 <= j < |cs| ==> !query(table, cs[j]).Row?
    ensures SearchCandidates(table, cs, query).Some? ==>
      var m := SearchCandidates(table, cs, query).value;
      m.table == table &&
      exists j :: 0 <= j < |cs| && query(table, cs[j]) == Row(m.id) &&
        forall j' :: 0 <= j' < j ==> !query(table, cs[j']).Row?
  {
    if |cs| > 0 {
      SearchCandidatesFirst(table, cs[1..], query);
      if !query(table, cs[0]).Row? {
        assert forall j :: 1 <= j < |cs| ==> cs[j] == cs[1..][j - 1];
        var r := SearchCandidates(table, cs, query);
        if r.Some? {
          var j :| 0 <= j < |cs[1..]| && query(table, cs[1..][j]) == Row(r.value.id) &&
            forall j' :: 0 <= j' < j ==> !query(table, cs[1..][j']).Row?;
          assert query(table, cs[j + 1]) == Row(r.value.id);
          forall j' | 0 <= j' < j + 1 ensures !query(table, cs[j']).Row? {
            if j' > 0 {
              assert cs[j'] == cs[1..][j' - 1];
            }
          }
        }
      } else {
        assert query(table, cs[0]) == Row(SearchCandidates(table, cs, query).value.id);
      }
    }
  }

  /** No pair (table i, candidate j) hits. */
  predicate AllMiss(tables: seq<string>, cs: seq<string>, query: Query)
  {
    forall i, j :: 0 <= i < |tables| && 0 <= j < |cs| ==> !query(tables[i], cs[j]).Row?
  }

  /** Pair (i, j) hits with the given id, and every pair before it in the
      loop order (earlier table, or same table and earlier candidate) misses. */
  predicate FirstHitAt(tables: seq<string>, cs: seq<string>, query: Query, i: int, j: int, id: string)
  {
    0 <= i < |tables| && 0 <= j < |cs| && query(tables[i], cs[j]) == Row(id) &&
    (forall i', j' :: 0 <= i' < i && 0 <= j' < |cs| ==> !query(tables[i'], cs[j']).Row?) &&
    (forall j' :: 0 <= j' < j ==> !query(tables[i], cs[j']).Row?)
  }

  lemma {:induction false} SearchTablesFirst(tables: seq<string>, cs: seq<string>, query: Query)
    ensures SearchTables(tables, cs, query).None? <==> AllMiss(tables, cs, query)
    ensures SearchTables(tables, cs, query).Some? ==>
      var m := SearchTables(tables, cs, query).value;
      exists i, j :: FirstHitAt(tables, cs, query, i, j, m.id) && tables[i] == m.table
  {
    if |tables| > 0 {
      var t1 := tables[1..];
      SearchCandidatesFirst(tables[0], cs, query);
      SearchTablesFirst(t1, cs, query);
      var hit := SearchCandidates(tables[0], cs, query);
      var r := SearchTables(tables, cs, query);
      if hit.Some? {
        var j :| 0 <= j < |cs| && query(tables[0], cs[j]) == Row(hit.value.id) &&
          forall j' :: 0 <= j' < j ==> !query(tables[0], cs[j']).Row?;
        assert FirstHitAt(tables, cs, query, 0, j, r.value.id);
        assert !AllMiss(tables, cs, query);
      } else {
        assert AllMiss(tables, cs, query) <==> AllMiss(t1, cs, query) by {
          if AllMiss(t1, cs, query) {
            forall i, j | 0 <= i < |tables| && 0 <= j < |cs| ensures !query(tables[i], cs[j]).Row? {
              if i > 0 {
                assert tables[i] == t1[i - 1];
              }
            }
          }
          if AllMiss(tables, cs, query) {
            forall i, j | 0 <= i < |t1| && 0 <= j < |cs| ensures !query(t1[i], cs[j]).Row? {
              assert t1[i] == tables[i + 1];
            }
          }
        }
        if r.Some? {
          var i, j :| FirstHitAt(t1, cs, query, i, j, r.value.id) && t1[i] == r.value.table;
          forall i', j' | 0 <= i' < i + 1 && 0 <= j' < |cs| ensures !query(tables[i'], cs[j']).Row? {
            if i' > 0 {
              assert tables[i'] == t1[i' - 1];
            }
          }
          assert tables[i + 1] == t1[i];
          assert FirstHitAt(tables, cs, query, i + 1, j, r.value.id);
        }
      }
    }
  }

  /** find_spec_id yields (None, None) exactly when there are no candidates
      or no (table, candidate) pair hits; otherwise it yields the first hit
      in loop order, and its table is one of the target tables. */
  lemma FindSpecIdFirstHit(target: Target, partNumber: Value, query: Query)
    ensures var cs := Candidates(partNumber);
      FindSpecId(target, partNumber, query).None? <==>
        (cs == [] || AllMiss(TargetTables(target), cs, query))
    ensures var cs := Candidates(partNumber);
      var r := FindSpecId(target, partNumber, query);
      r.Some? ==>
        r.value.table in TargetTables(target) &&
        exists i, j :: FirstHitAt(TargetTables(target), cs, query, i, j, r.value.id) &&
          TargetTables(target)[i] == r.value.table
  {
    SearchTablesFirst(TargetTables(target), Candidates(partNumber), query);
  }

  /** A single table name is searched as the one-element list holding it. */
  lemma SingleTableAsList(name: string, partNumber: Value, query: Query)
    ensures FindSpecId(Table(name), partNumber, query) == FindSpecId(Tables([name]), partNumber, query)
  {
  }

  /** Only hits matter: a lookup that raises is a miss for that pair alone,
      exactly like one that returns no rows. */
  lemma {:induction false} RaisedIsMiss(tables: seq<string>, cs: seq<string>, q1: Query, q2: Query)
    requires forall t, c :: q1(t, c).Row? <==> q2(t, c).Row?
    requires forall t, c :: q1(t, c).Row? ==> q1(t, c) == q2(t, c)
    ensures SearchTables(tables, cs, q1) == SearchTables(tables, cs, q2)
  {
    if |tables| > 0 {
      CandidatesAlike(tables[0], cs, q1, q2);
      RaisedIsMiss(tables[1..], cs, q1, q2);
    }
  }

  lemma {:induction false} CandidatesAlike(table: string, cs: seq<string>, q1: Query, q2: Query)
    requires forall t, c :: q1(t, c).Row? <==> q2(t, c).Row?
    requires forall t, c :: q1(t, c).Row? ==> q1(t, c) == q2(t, c)
    ensures SearchCandidates(table, cs, q1) == SearchCandidates(table, cs, q2)
  {
    if |cs| > 0 {
      CandidatesAlike(table, cs[1..], q1, q2);
    }
  }

  // ---------------------------------------------------------------- the ilike lookup

  /** A specification row as the lookup sees it. */
  datatype SpecRow = SpecRow(id: string, partNumber: string)

  /** `ilike '%c%'` read as a case-insensitive substring test. */
  predicate IlikeMatches(row: SpecRow, candidate: string)
  {
    Contains(Lower(row.partNumber), Lower(candidate))
  }

  /** A query agrees with the ilike lookup over the given tables: a hit is a
      matching row of that table, and "no rows" means none matches. Which of
      several matching rows limit(1) returns is left open. */
  ghost predicate IlikeQuery(query: Query, rowsOf: string -> seq<SpecRow>)
  {
    forall t, c ::
      (query(t, c).Row? ==> exists k :: 0 <= k < |rowsOf(t)| && rowsOf(t)[k].id == query(t, c).id && IlikeMatches(rowsOf(t)[k], c))
      && (query(t, c) == NoRows ==> forall k :: 0 <= k < |rowsOf(t)| ==> !IlikeMatches(rowsOf(t)[k], c))
  }

  /** Under the ilike lookup, a match names a row of the returned table whose
      part number contains one of the candidates, ignoring case. */
  lemma MatchIsGenuine(target: Target, partNumber: Value, query: Query, rowsOf: string -> seq<SpecRow>)
    requires IlikeQuery(query, rowsOf)
    ensures var r := FindSpecId(target, partNumber, query);
      r.Some? ==>
        exists k, j :: 0 <= k < |rowsOf(r.value.table)| && 0 <= j < |Candidates(partNumber)| &&
          rowsOf(r.value.table)[k].id == r.value.id &&
          IlikeMatches(rowsOf(r.value.table)[k], Candidates(partNumber)[j])
  {
    FindSpecIdFirstHit(target, partNumber, query);
    var r := FindSpecId(target, partNumber, query);
    if r.Some? {
      var cs := Candidates(partNumber);
      var ts := TargetTables(target);
      var i, j :| FirstHitAt(ts, cs, query, i, j, r.value.id) && ts[i] == r.value.table;
      assert query(ts[i], cs[j]).Row?;
    }
  }

  /** A whitespace-only part number is matched by the first row of the first
      target table when that lookup succeeds: the empty candidate is part of
      every part number. */
  lemma BlankPartNumberMatchesAnything(target: Target, query: Query, rowsOf: string -> seq<SpecRow>)
    requires IlikeQuery(query, rowsOf)
    requires TargetTables(target) != [] && |rowsOf(TargetTables(target)[0])| > 0
    requires query(TargetTables(target)[0], "") != Raised
    ensures var r := FindSpecId(target, Str(" "), query);
      r.Some? && r.value.table == TargetTables(target)[0]
  {
    BlankPartNumber(Str(" "), "");
    var t := TargetTables(target)[0];
    assert OccursAt(Lower(rowsOf(t)[0].partNumber), Lower(""), 0);
    assert IlikeMatches(rowsOf(t)[0], "");
    assert query(t, "").Row?;
  }
}
