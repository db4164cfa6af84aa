/**
  process_daily_scraps (ScrapDB/match_products.py): the listings are read
  and grouped by store, then each store in turn is deduplicated (phase A),
  its cheapest offers are written to the pricing tables (phase B), and the
  offers it no longer lists are marked out of stock (phase C).
*/
module DailyScraps {
  import opened Wrappers
  import opened Dicts
  import opened Json
  import opened SpecMatcher
  import opened Ingest
  import opened Dedup
  import opened Backend

  /** The first line of the no-match report. */
  function Header(now: string): string
  {
    "--- Reporte de No Match: " + now + " ---"
  }

  /** The ProductPricing row phase B upserts for one winner. */
  function PricingFor(id: string, w: Winner, storeId: nat, now: string): PricingRow
  {
    PricingRow(id, w.table, storeId, w.price, true, w.url, now)
  }

  function HistoryFor(id: string, w: Winner, storeId: nat, now: string): HistoryRow
  {
    HistoryRow(id, w.table, storeId, w.price, now)
  }

  /** One PriceHistory row per winner, in the order of unique_products_today. */
  function HistoryOf(unique: seq<(string, Winner)>, storeId: nat, now: string): (r: seq<HistoryRow>)
    ensures |r| == |unique|
  {
    seq(|unique|, k requires 0 <= k < |unique| => HistoryFor(unique[k].0, unique[k].1, storeId, now))
  }

  /** found_ids_today: the spec ids of the winners. */
  function IdsOf(unique: seq<(string, Winner)>): set<string>
  {
    set k | 0 <= k < |unique| :: unique[k].0
  }

  /** The conflict keys of the winners' rows at store storeId. */
  function WinnerKeys(unique: seq<(string, Winner)>, storeId: nat): set<(string, string, nat)>
  {
    set k | 0 <= k < |unique| :: (unique[k].0, unique[k].1.table, storeId)
  }

  /** Only a spec row that had no image, and that some winner with an image
      other than "N/A" points at, can have its ImageUrl changed. */
  ghost predicate ImagesKept(before: map<(string, string), Value>, after: map<(string, string), Value>,
                             unique: seq<(string, Winner)>)
  {
    after.Keys == before.Keys
    && forall key :: key in before && after[key] != before[key] ==>
      !Truthy(before[key])
      && exists k :: 0 <= k < |unique| && key == (unique[k].1.table, unique[k].0) && unique[k].1.imageUrl != Str("N/A")
  }

  /** Phase B: upsert, history row and image for every winner. */
  method PersistWinners(db: Database, storeId: nat, unique: seq<(string, Winner)>,
                        fetch: string -> bool, upload: string -> Option<string>, now: string)
    returns (found: set<string>)
    requires db.Valid() && DistinctKeys(unique)
    modifies db
    ensures db.Valid()
    ensures found == IdsOf(unique)
    ensures db.stores == old(db.stores) && db.nextStoreId == old(db.nextStoreId)
    ensures db.history == old(db.history) + HistoryOf(unique, storeId, now)
    ensures InStockIds(db.pricing, storeId) == InStockIds(old(db.pricing), storeId) + found
    ensures OtherStores(db.pricing, storeId) == OtherStores(old(db.pricing), storeId)
    ensures forall k :: 0 <= k < |unique| ==> PricingFor(unique[k].0, unique[k].1, storeId, now) in db.pricing
    ensures KeysOf(db.pricing) == KeysOf(old(db.pricing)) + WinnerKeys(unique, storeId)
    ensures ImagesKept(old(db.images), db.images, unique)
  {
    found := {};
    var i := 0;
    while i < |unique|
      invariant 0 <= i <= |unique| && db.Valid()
      invariant found == IdsOf(unique[..i])
      invariant db.stores == old(db.stores) && db.nextStoreId == old(db.nextStoreId)
      invariant db.history == old(db.history) + HistoryOf(unique[..i], storeId, now)
      invariant InStockIds(db.pricing, storeId) == InStockIds(old(db.pricing), storeId) + found
      invariant OtherStores(db.pricing, storeId) == OtherStores(old(db.pricing), storeId)
      invariant forall k :: 0 <= k < i ==> PricingFor(unique[k].0, unique[k].1, storeId, now) in db.pricing
      invariant KeysOf(db.pricing) == KeysOf(old(db.pricing)) + WinnerKeys(unique[..i], storeId)
      invariant ImagesKept(old(db.images), db.images, unique[..i])
    {
      var (id, w) := unique[i];
      var row := PricingFor(id, w, storeId, now);
      ghost var pricing0 := db.pricing;
      ghost var images0 := db.images;
      ghost var history0 := db.history;
      PersistOne(db, storeId, id, w, fetch, upload, now);
      found := found + {id};
      PersistStep(unique, i, old(db.images), images0, db.images);
      PersistCounts(unique, i, storeId, now);
      UpsertInStock(pricing0, row);
      UpsertOtherStores(pricing0, row);
      UpsertKeys(pricing0, row);
      WinnersKept(unique, i, storeId, now, pricing0);
      i := i + 1;
    }
    assert unique[..i] == unique;
  }

  /** The three writes of phase B for one winner. */
  method PersistOne(db: Database, storeId: nat, id: string, w: Winner,
                    fetch: string -> bool, upload: string -> Option<string>, now: string)
    requires db.Valid()
    modifies db
    ensures db.Valid()
    ensures db.pricing == Upsert(old(db.pricing), PricingFor(id, w, storeId, now))
    ensures db.history == old(db.history) + [HistoryFor(id, w, storeId, now)]
    ensures db.stores == old(db.stores) && db.nextStoreId == old(db.nextStoreId)
    ensures db.images.Keys == old(db.images).Keys
    ensures forall key :: key in old(db.images) && db.images[key] != old(db.images)[key] ==>
      !Truthy(old(db.images)[key]) && key == (w.table, id) && w.imageUrl != Str("N/A")
  {
    db.UpsertPricing(PricingFor(id, w, storeId, now));
    db.InsertHistory(HistoryFor(id, w, storeId, now));
    if w.imageUrl != Str("N/A") {
      var _ := db.ProcessProductImage(id, w.table, w.imageUrl, fetch, upload);
    }
  }

  /** Winners have distinct spec ids, so no upsert overwrites an earlier winner's row. */
  lemma WinnersKept(unique: seq<(string, Winner)>, i: nat, storeId: nat, now: string, rows: seq<PricingRow>)
    requires DistinctKeys(unique) && i < |unique|
    requires forall k :: 0 <= k < i ==> PricingFor(unique[k].0, unique[k].1, storeId, now) in rows
    ensures forall k :: 0 <= k < i + 1 ==>
      PricingFor(unique[k].0, unique[k].1, storeId, now) in Upsert(rows, PricingFor(unique[i].0, unique[i].1, storeId, now))
  {
    UpsertStores(rows, PricingFor(unique[i].0, unique[i].1, storeId, now));
  }

  lemma PersistCounts(unique: seq<(string, Winner)>, i: nat, storeId: nat, now: string)
    requires i < |unique|
    ensures HistoryOf(unique[..i + 1], storeId, now) ==
      HistoryOf(unique[..i], storeId, now) + [HistoryFor(unique[i].0, unique[i].1, storeId, now)]
    ensures IdsOf(unique[..i + 1]) == IdsOf(unique[..i]) + {unique[i].0}
    ensures WinnerKeys(unique[..i + 1], storeId) == WinnerKeys(unique[..i], storeId) + {KeyOf(PricingFor(unique[i].0, unique[i].1, storeId, now))}
  {
    assert unique[..i + 1] == unique[..i] + [unique[i]];
    assert forall k :: 0 <= k < i ==> unique[..i + 1][k] == unique[..i][k];
  }

  /** The image step of one winner keeps ImagesKept. */
  lemma PersistStep(unique: seq<(string, Winner)>, i: nat, start: map<(string, string), Value>,
                    before: map<(string, string), Value>, after: map<(string, string), Value>)
    requires i < |unique| && ImagesKept(start, before, unique[..i])
    requires after.Keys == before.Keys
    requires forall key :: key in before && after[key] != before[key] ==>
      !Truthy(before[key]) && key == (unique[i].1.table, unique[i].0) && unique[i].1.imageUrl != Str("N/A")
    ensures ImagesKept(start, after, unique[..i + 1])
  {
    var u := unique[..i + 1];
    assert forall k :: 0 <= k < i ==> u[k] == unique[..i][k];
    forall key | key in start && after[key] != start[key]
      ensures !Truthy(start[key])
      ensures exists k :: 0 <= k < |u| && key == (u[k].1.table, u[k].0) && u[k].1.imageUrl != Str("N/A")
    {
      if before[key] != start[key] {
        var k :| 0 <= k < i && key == (unique[..i][k].1.table, unique[..i][k].0) && unique[..i][k].1.imageUrl != Str("N/A");
        assert u[k] == unique[..i][k];
      } else {
        assert u[i] == unique[i];
      }
    }
  }

  /** A row after phase C: rows of the store whose spec id is in missing
      are out of stock as of now; every other row is as it was. */
  function Flipped(r: PricingRow, storeId: nat, missing: set<string>, now: string): PricingRow
  {
    if r.storeId == storeId && r.specId in missing then r.(inStock := false, lastUpdated := now) else r
  }

  /** Marking one more missing spec id extends the flipped set by it. */
  lemma MarkStep(start: seq<PricingRow>, rows: seq<PricingRow>, storeId: nat, done: set<string>, x: string, now: string)
    requires |rows| == |start| && x !in done
    requires forall k :: 0 <= k < |rows| ==> rows[k] == Flipped(start[k], storeId, done, now)
    ensures var m := MarkOutOfStock(rows, x, storeId, now);
      forall k :: 0 <= k < |m| ==> m[k] == Flipped(start[k], storeId, done + {x}, now)
  {
  }

  /** Phase C leaves every key in place. */
  lemma FlippedKeys(start: seq<PricingRow>, rows: seq<PricingRow>, storeId: nat, missing: set<string>, now: string)
    requires |rows| == |start|
    requires forall k :: 0 <= k < |rows| ==> rows[k] == Flipped(start[k], storeId, missing, now)
    ensures KeysOf(rows) == KeysOf(start)
  {
    assert forall k :: 0 <= k < |rows| ==> KeyOf(rows[k]) == KeyOf(start[k]);
  }

  /** Phase C takes exactly the missing spec ids out of the store's in-stock ids. */
  lemma FlippedInStock(start: seq<PricingRow>, rows: seq<PricingRow>, storeId: nat, missing: set<string>, now: string)
    requires |rows| == |start|
    requires forall k :: 0 <= k < |rows| ==> rows[k] == Flipped(start[k], storeId, missing, now)
    ensures InStockIds(rows, storeId) == InStockIds(start, storeId) - missing
  {
    forall x | x in InStockIds(start, storeId) - missing ensures x in InStockIds(rows, storeId) {
      var k :| 0 <= k < |start| && start[k].storeId == storeId && start[k].inStock && start[k].specId == x;
      assert rows[k] == start[k];
    }
    forall x | x in InStockIds(rows, storeId) ensures x in InStockIds(start, storeId) - missing {
      var k :| 0 <= k < |rows| && rows[k].storeId == storeId && rows[k].inStock && rows[k].specId == x;
      assert rows[k] == start[k];
    }
  }

  /** Phase C leaves the rows of every other store as they were. */
  lemma {:induction false} FlippedOthers(start: seq<PricingRow>, rows: seq<PricingRow>, storeId: nat, missing: set<string>, now: string)
    requires |rows| == |start|
    requires forall k :: 0 <= k < |rows| ==> rows[k] == Flipped(start[k], storeId, missing, now)
    ensures OtherStores(rows, storeId) == OtherStores(start, storeId)
  {
    if |rows| > 0 {
      FlippedOthers(start[1..], rows[1..], storeId, missing, now);
    }
  }

  /** A row phase C does not flip is still there afterwards. */
  lemma FlippedKeeps(start: seq<PricingRow>, rows: seq<PricingRow>, storeId: nat, missing: set<string>, now: string, r: PricingRow)
    requires |rows| == |start| && r in start && (r.storeId != storeId || r.specId !in missing)
    requires forall k :: 0 <= k < |rows| ==> rows[k] == Flipped(start[k], storeId, missing, now)
    ensures r in rows
  {
    var k :| 0 <= k < |start| && start[k] == r;
    assert rows[k] == r;
  }


  /** The winners' rows written in phase B survive phase C, which flips only ids that were not found. */
  lemma WinnersSurvive(start: seq<PricingRow>, rows: seq<PricingRow>, storeId: nat, found: set<string>,
                       unique: seq<(string, Winner)>, now: string)
    requires |rows| == |start| && found == IdsOf(unique)
    requires forall k :: 0 <= k < |rows| ==> rows[k] == Flipped(start[k], storeId, InStockIds(start, storeId) - found, now)
    requires forall k :: 0 <= k < |unique| ==> PricingFor(unique[k].0, unique[k].1, storeId, now) in start
    ensures forall k :: 0 <= k < |unique| ==> PricingFor(unique[k].0, unique[k].1, storeId, now) in rows
    ensures KeysOf(rows) == KeysOf(start)
  {
    var missing := InStockIds(start, storeId) - found;
    forall k | 0 <= k < |unique| ensures PricingFor(unique[k].0, unique[k].1, storeId, now) in rows {
      assert unique[k].0 in found;
      FlippedKeeps(start, rows, storeId, missing, now, PricingFor(unique[k].0, unique[k].1, storeId, now));
    }
    FlippedKeys(start, rows, storeId, missing, now);
  }

  /** Phase C: every spec id of the store that was in stock and not found
      today is marked out of stock, in whatever order the set yields them.
      The rows of the store with such a spec id, whatever their table, get
      StockStatus False and LastUpdated now; no other row changes. */
  method CloseStock(db: Database, storeId: nat, found: set<string>, now: string)
    requires db.Valid()
    modifies db
    ensures db.Valid()
    ensures InStockIds(db.pricing, storeId) == InStockIds(old(db.pricing), storeId) * found
    ensures OtherStores(db.pricing, storeId) == OtherStores(old(db.pricing), storeId)
    ensures |db.pricing| == |old(db.pricing)|
    ensures forall k :: 0 <= k < |db.pricing| ==>
      db.pricing[k] == Flipped(old(db.pricing)[k], storeId, InStockIds(old(db.pricing), storeId) - found, now)
    ensures db.stores == old(db.stores) && db.nextStoreId == old(db.nextStoreId)
    ensures db.history == old(db.history) && db.images == old(db.images)
  {
    var active := InStockIds(db.pricing, storeId);
    var missing := active - found;
    ghost var done: set<string> := {};
    while missing != {}
      invariant db.Valid()
      invariant missing <= active - found && done == (active - found) - missing
      invariant |db.pricing| == |old(db.pricing)|
      invariant forall k :: 0 <= k < |db.pricing| ==> db.pricing[k] == Flipped(old(db.pricing)[k], storeId, done, now)
      invariant db.stores == old(db.stores) && db.nextStoreId == old(db.nextStoreId)
      invariant db.history == old(db.history) && db.images == old(db.images)
      decreases missing
    {
      var x :| x in missing;
      MarkStep(old(db.pricing), db.pricing, storeId, done, x, now);
      db.MarkMissing(x, storeId, now);
      missing := missing - {x};
      done := done + {x};
    }
    FlippedInStock(old(db.pricing), db.pricing, storeId, done, now);
    FlippedOthers(old(db.pricing), db.pricing, storeId, done, now);
  }

  /** Whether a store's dedup loop raises (an unhashable type). */
  predicate Crashes(b: Batch, query: Query)
  {
    TallyOf(ObserveAll(b.items, query)).None?
  }

  /** One store: its Id, phase A, and, when phase A did not raise, phases B
      and C and its LastScrapedAt. The result is the store's no-match lines. */
  method ProcessStore(db: Database, batch: Batch, query: Query,
                      fetch: string -> bool, upload: string -> Option<string>, now: string)
    returns (storeId: nat, lines: Option<seq<string>>)
    requires db.Valid()
    modifies db
    ensures db.Valid()
    ensures StoreIdOf(db.stores, batch.store) == Some(storeId)
    ensures forall other :: other != batch.store ==> StoreIdOf(db.stores, other) == old(StoreIdOf(db.stores, other))
    ensures OtherStores(db.pricing, storeId) == OtherStores(old(db.pricing), storeId)
    ensures lines.None? <==> Crashes(batch, query)
    ensures lines.None? ==> db.pricing == old(db.pricing) && db.history == old(db.history) && db.images == old(db.images)
    ensures lines.Some? ==>
      var t := TallyOf(ObserveAll(batch.items, query)).value;
      lines.value == t.unmatched
      && InStockIds(db.pricing, storeId) == IdsOf(t.unique)
      && (forall k :: 0 <= k < |t.unique| ==> PricingFor(t.unique[k].0, t.unique[k].1, storeId, now) in db.pricing)
      && KeysOf(db.pricing) == KeysOf(old(db.pricing)) + WinnerKeys(t.unique, storeId)
      && db.history == old(db.history) + HistoryOf(t.unique, storeId, now)
      && ImagesKept(old(db.images), db.images, t.unique)
      && (forall i :: 0 <= i < |db.stores| && db.stores[i].id == storeId ==> db.stores[i].lastScrapedAt == Some(now))
    ensures |old(db.stores)| <= |db.stores| <= |old(db.stores)| + 1
    ensures forall i :: 0 <= i < |old(db.stores)| && old(db.stores)[i].id != storeId ==> db.stores[i] == old(db.stores)[i]
    ensures lines.None? ==> forall i :: 0 <= i < |old(db.stores)| ==> db.stores[i] == old(db.stores)[i]
  {
    storeId := db.GetOrCreateStore(batch.store);
    var tally := DedupStore(batch.items, query);
    if tally.None? {
      return storeId, None;
    }
    var t := tally.value;
    TallyCorrect(ObserveAll(batch.items, query));
    var found := PersistWinners(db, storeId, t.unique, fetch, upload, now);
    assert found <= InStockIds(db.pricing, storeId);
    ghost var pb := db.pricing;
    CloseStock(db, storeId, found, now);
    WinnersSurvive(pb, db.pricing, storeId, found, t.unique, now);
    db.TouchStore(storeId, now);
    lines := Some(t.unmatched);
  }

  /** The no-match lines of the stores processed before the first one that raises. */
  function StoreLog(batches: seq<Batch>, query: Query): seq<string>
  {
    if |batches| == 0 then []
    else match TallyOf(ObserveAll(batches[0].items, query))
      case None => []
      case Some(t) => t.unmatched + StoreLog(batches[1..], query)
  }

  lemma StoreLogStep(batches: seq<Batch>, i: nat, query: Query)
    requires i < |batches|
    ensures Crashes(batches[i], query) ==> StoreLog(batches[i..], query) == []
    ensures !Crashes(batches[i], query) ==>
      StoreLog(batches[i..], query) ==
      TallyOf(ObserveAll(batches[i].items, query)).value.unmatched + StoreLog(batches[i + 1..], query)
  {
    assert batches[i..][1..] == batches[i + 1..];
  }

  /** The stores processed so far, closed[k] being the Id of batch k, each
      hold exactly their matched spec ids in stock. */
  ghost predicate StoresClosed(stores: seq<StoreRow>, pricing: seq<PricingRow>, batches: seq<Batch>,
                               closed: seq<nat>, query: Query)
  {
    |closed| <= |batches|
    && forall k :: 0 <= k < |closed| ==> StoreClosed(stores, pricing, batches[k], closed[k], query)
  }

  /** Batch b ran to the end, its store has Id id, and that store holds
      exactly the batch's matched spec ids in stock. */
  ghost predicate StoreClosed(stores: seq<StoreRow>, pricing: seq<PricingRow>, b: Batch, id: nat, query: Query)
  {
    !Crashes(b, query)
    && StoreIdOf(stores, b.store) == Some(id)
    && InStockIds(pricing, id) == IdsOf(TallyOf(ObserveAll(b.items, query)).value.unique)
  }

  /** Processing the next store leaves the earlier ones closed. */
  lemma ClosedExtends(stores0: seq<StoreRow>, pricing0: seq<PricingRow>, stores: seq<StoreRow>,
                      pricing: seq<PricingRow>, batches: seq<Batch>, closed: seq<nat>, query: Query, storeId: nat)
    requires StoresClosed(stores0, pricing0, batches, closed, query) && |closed| < |batches|
    requires forall k :: 0 <= k < |closed| ==> batches[k].store != batches[|closed|].store
    requires StoreIdsDistinct(stores)
    requires StoreIdOf(stores, batches[|closed|].store) == Some(storeId)
    requires forall other :: other != batches[|closed|].store ==> StoreIdOf(stores, other) == StoreIdOf(stores0, other)
    requires OtherStores(pricing, storeId) == OtherStores(pricing0, storeId)
    requires !Crashes(batches[|closed|], query)
    requires InStockIds(pricing, storeId) == IdsOf(TallyOf(ObserveAll(batches[|closed|].items, query)).value.unique)
    ensures StoresClosed(stores, pricing, batches, closed + [storeId], query)
  {
    var i := |closed|;
    var c := closed + [storeId];
    forall k | 0 <= k < |c|
      ensures !Crashes(batches[k], query)
      ensures StoreIdOf(stores, batches[k].store) == Some(c[k])
      ensures InStockIds(pricing, c[k]) == IdsOf(TallyOf(ObserveAll(batches[k].items, query)).value.unique)
    {
      if k == i {
        assert c[k] == storeId;
      } else {
        assert c[k] == closed[k];
        assert batches[k].store != batches[i].store;
        assert StoreIdOf(stores, batches[k].store) == StoreIdOf(stores0, batches[k].store);
        EarlierStoreKept(stores0, pricing0, stores, pricing, batches[k].store, batches[i].store, closed[k], storeId);
      }
    }
  }

  lemma NoneClosed(stores: seq<StoreRow>, pricing: seq<PricingRow>, batches: seq<Batch>, query: Query)
    ensures StoresClosed(stores, pricing, batches, [], query)
  {
  }

  /** A store that raises leaves the stores closed before it as they were. */
  lemma ClosedKept(stores0: seq<StoreRow>, stores: seq<StoreRow>, pricing: seq<PricingRow>,
                   batches: seq<Batch>, closed: seq<nat>, query: Query)
    requires StoresClosed(stores0, pricing, batches, closed, query) && |closed| < |batches|
    requires forall k :: 0 <= k < |closed| ==> batches[k].store != batches[|closed|].store
    requires forall other :: other != batches[|closed|].store ==> StoreIdOf(stores, other) == StoreIdOf(stores0, other)
    ensures StoresClosed(stores, pricing, batches, closed, query)
  {
    forall k | 0 <= k < |closed|
      ensures StoreIdOf(stores, batches[k].store) == Some(closed[k])
    {
      assert batches[k].store != batches[|closed|].store;
    }
  }

  /** A store closed earlier keeps its id and its in-stock rows. */
  lemma EarlierStoreKept(stores0: seq<StoreRow>, pricing0: seq<PricingRow>, stores: seq<StoreRow>,
                         pricing: seq<PricingRow>, name: Value, current: Value, id: nat, storeId: nat)
    requires name != current && StoreIdOf(stores0, name) == Some(id)
    requires StoreIdsDistinct(stores) && StoreIdOf(stores, current) == Some(storeId)
    requires StoreIdOf(stores, name) == StoreIdOf(stores0, name)
    requires OtherStores(pricing, storeId) == OtherStores(pricing0, storeId)
    ensures StoreIdOf(stores, name) == Some(id) && InStockIds(pricing, id) == InStockIds(pricing0, id)
  {
    StoreIdInjective(stores, name, current);
    SameOtherStores(pricing, pricing0, storeId, id);
  }

  /** One turn of the loop over store_batches: batch i is processed, and the
      stores closed so far stay closed, with batch i among them unless it raises. */
  method ProcessNext(db: Database, batches: seq<Batch>, i: nat, ghost closed: seq<nat>, query: Query,
                     fetch: string -> bool, upload: string -> Option<string>, now: string)
    returns (storeId: nat, more: Option<seq<string>>)
    requires db.Valid() && i == |closed| < |batches|
    requires forall k, l :: 0 <= k < l < |batches| ==> batches[k].store != batches[l].store
    requires StoresClosed(db.stores, db.pricing, batches, closed, query)
    modifies db
    ensures db.Valid()
    ensures more.None? <==> Crashes(batches[i], query)
    ensures StoreLog(batches[i..], query) == if more.None? then [] else more.value + StoreLog(batches[i + 1..], query)
    ensures more.None? ==> StoresClosed(db.stores, db.pricing, batches, closed, query)
    ensures more.Some? ==> StoresClosed(db.stores, db.pricing, batches, closed + [storeId], query)
  {
    ghost var stores0 := db.stores;
    ghost var pricing0 := db.pricing;
    storeId, more := ProcessStore(db, batches[i], query, fetch, upload, now);
    StoreLogStep(batches, i, query);
    if more.None? {
      ClosedKept(stores0, db.stores, db.pricing, batches, closed, query);
    } else {
      ClosedExtends(stores0, pricing0, db.stores, db.pricing, batches, closed, query, storeId);
    }
  }

  lemma ConcatAssoc(a: seq<string>, b: seq<string>, c: seq<string>)
    ensures a + (b + c) == (a + b) + c
  {
  }

  /** The loop over store_batches: stores in order until one raises. */
  method ProcessStores(db: Database, batches: seq<Batch>, query: Query,
                       fetch: string -> bool, upload: string -> Option<string>, now: string)
    returns (lines: seq<string>, completed: bool, ghost closed: seq<nat>)
    requires db.Valid()
    requires forall k, l :: 0 <= k < l < |batches| ==> batches[k].store != batches[l].store
    modifies db
    ensures db.Valid()
    ensures lines == StoreLog(batches, query)
    ensures completed <==> forall k :: 0 <= k < |batches| ==> !Crashes(batches[k], query)
    ensures completed ==> |closed| == |batches|
    ensures StoresClosed(db.stores, db.pricing, batches, closed, query)
  {
    lines := [];
    closed := [];
    NoneClosed(db.stores, db.pricing, batches, query);
    var i := 0;
    while i < |batches|
      invariant 0 <= i <= |batches| && db.Valid()
      invariant |closed| == i
      invariant StoreLog(batches, query) == lines + StoreLog(batches[i..], query)
      invariant StoresClosed(db.stores, db.pricing, batches, closed, query)
    {
      var storeId, more := ProcessNext(db, batches, i, closed, query, fetch, upload, now);
      if more.None? {
        assert lines + [] == lines;
        return lines, false, closed;
      }
      ConcatAssoc(lines, more.value, StoreLog(batches[i + 1..], query));
      lines := lines + more.value;
      closed := closed + [storeId];
      i := i + 1;
    }
    assert batches[i..] == [];
    return lines, true, closed;
  }

  /** The whole run. The report starts with its header; a missing directory
      ends the run there. Otherwise each store is processed in the order its
      name was first seen; a store whose loop raises ends the run with its own
      no-match lines unwritten. Every store processed to the end is left with
      exactly today's matched spec ids in stock. */
  method ProcessDailyScraps(dirExists: bool, files: seq<ScrapFile>, db: Database, query: Query,
                            fetch: string -> bool, upload: string -> Option<string>, now: string)
    returns (report: seq<string>, completed: bool, ghost closed: seq<nat>)
    requires db.Valid()
    modifies db
    ensures db.Valid()
    ensures report == [Header(now)] + (if dirExists then StoreLog(Ingested(files), query) else [])
    ensures completed <==> !dirExists || forall k :: 0 <= k < |Ingested(files)| ==> !Crashes(Ingested(files)[k], query)
    ensures dirExists && completed ==> |closed| == |Ingested(files)|
    ensures dirExists ==> StoresClosed(db.stores, db.pricing, Ingested(files), closed, query)
  {
    if !dirExists {
      return [Header(now)], true, [];
    }
    var batches := IngestFiles(files);
    IngestedStoresDistinct(files);
    var lines;
    lines, completed, closed := ProcessStores(db, batches, query, fetch, upload, now);
    report := [Header(now)] + lines;
  }
}
