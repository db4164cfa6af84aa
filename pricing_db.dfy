/**
  The backend tables process_daily_scraps (ScrapDB/match_products.py)
  reads and writes: Stores, ProductPricing, PriceHistory and the ImageUrl
  column of the specification tables. Every write is taken to succeed.
*/
module Backend {
  import opened Wrappers
  import opened Json

  datatype StoreRow = StoreRow(id: nat, name: Value, lastScrapedAt: Option<string>)

  /** A ProductPricing row; (SpecId, SpecTableName, StoreId) is its key. */
  datatype PricingRow = PricingRow(specId: string, table: string, storeId: nat,
                                   price: int, inStock: bool, url: Value, lastUpdated: string)

  datatype HistoryRow = HistoryRow(specId: string, table: string, storeId: nat, price: int, recordedAt: string)

  predicate SameKey(a: PricingRow, b: PricingRow)
  {
    a.specId == b.specId && a.table == b.table && a.storeId == b.storeId
  }

  /** The on_conflict constraint of ProductPricing. */
  predicate KeysUnique(rows: seq<PricingRow>)
  {
    forall i, j :: 0 <= i < j < |rows| ==> !SameKey(rows[i], rows[j])
  }

  /** upsert(row, on_conflict="SpecId, SpecTableName, StoreId"): the row with
      the same key is overwritten where it stands, otherwise the row is added. */
  function Upsert(rows: seq<PricingRow>, row: PricingRow): seq<PricingRow>
  {
    if |rows| == 0 then [row]
    else if SameKey(rows[0], row) then [row] + rows[1..]
    else [rows[0]] + Upsert(rows[1..], row)
  }

  /** update({StockStatus: False, LastUpdated: now}).eq("SpecId", specId).eq("StoreId", storeId):
      every table's row of that spec id at that store. */
  function MarkOutOfStock(rows: seq<PricingRow>, specId: string, storeId: nat, now: string): (r: seq<PricingRow>)
    ensures |r| == |rows|
  {
    seq(|rows|, k requires 0 <= k < |rows| =>
      if rows[k].specId == specId && rows[k].storeId == storeId
      then rows[k].(inStock := false, lastUpdated := now) else rows[k])
  }

  /** select("SpecId").eq("StoreId", storeId).eq("StockStatus", True), as a set. */
  function InStockIds(rows: seq<PricingRow>, storeId: nat): set<string>
  {
    set k | 0 <= k < |rows| && rows[k].storeId == storeId && rows[k].inStock :: rows[k].specId
  }

  /** The rows of every other store, in order. */
  function OtherStores(rows: seq<PricingRow>, storeId: nat): seq<PricingRow>
  {
    if |rows| == 0 then []
    else (if rows[0].storeId != storeId then [rows[0]] else []) + OtherStores(rows[1..], storeId)
  }

  // ---------------------------------------------------------------- upsert

  /** After the upsert the row is stored, and every other row is kept unless it had the same key. */
  lemma {:induction false} UpsertStores(rows: seq<PricingRow>, row: PricingRow)
    ensures row in Upsert(rows, row)
    ensures forall r :: r in Upsert(rows, row) ==> r == row || r in rows
    ensures forall r :: r in rows && !SameKey(r, row) ==> r in Upsert(rows, row)
    ensures |Upsert(rows, row)| <= |rows| + 1
  {
    if |rows| > 0 && !SameKey(rows[0], row) {
      UpsertStores(rows[1..], row);
      assert rows == [rows[0]] + rows[1..];
    }
  }

  lemma {:induction false} UpsertKeysUnique(rows: seq<PricingRow>, row: PricingRow)
    requires KeysUnique(rows)
    ensures KeysUnique(Upsert(rows, row))
  {
    if |rows| > 0 && !SameKey(rows[0], row) {
      var rest := rows[1..];
      UpsertKeysUnique(rest, row);
      UpsertStores(rest, row);
      var t := Upsert(rest, row);
      forall r | r in t ensures !SameKey(rows[0], r) {
        if r != row {
          var m :| 0 <= m < |rest| && rest[m] == r;
          assert rows[m + 1] == r;
        }
      }
      ConsKeysUnique(rows[0], t);
    } else if |rows| > 0 {
      var r := [row] + rows[1..];
      forall i, j | 0 <= i < j < |r| ensures !SameKey(r[i], r[j]) {
        assert r[j] == rows[j];
        if i > 0 {
          assert r[i] == rows[i];
        }
      }
    }
  }

  /** A row whose key no later row shares keeps the keys unique. */
  lemma ConsKeysUnique(x: PricingRow, t: seq<PricingRow>)
    requires KeysUnique(t) && forall r :: r in t ==> !SameKey(x, r)
    ensures KeysUnique([x] + t)
  {
    var r := [x] + t;
    forall i, j | 0 <= i < j < |r| ensures !SameKey(r[i], r[j]) {
      assert r[j] == t[j - 1];
      if i > 0 {
        assert r[i] == t[i - 1];
      }
    }
  }

  /** An in-stock row of a store adds its spec id to the store's in-stock ids
      and takes none away: the row it overwrites has the same spec id. */
  lemma UpsertInStock(rows: seq<PricingRow>, row: PricingRow)
    requires row.inStock
    ensures InStockIds(Upsert(rows, row), row.storeId) == InStockIds(rows, row.storeId) + {row.specId}
  {
    var u := Upsert(rows, row);
    var sid := row.storeId;
    UpsertStores(rows, row);
    forall x | x in InStockIds(rows, sid) ensures x in InStockIds(u, sid) {
      var k :| 0 <= k < |rows| && rows[k].storeId == sid && rows[k].inStock && rows[k].specId == x;
      if !SameKey(rows[k], row) {
        assert rows[k] in u;
        var m :| 0 <= m < |u| && u[m] == rows[k];
      } else {
        var m :| 0 <= m < |u| && u[m] == row;
      }
    }
    var m :| 0 <= m < |u| && u[m] == row;
    assert row.specId in InStockIds(u, sid);
    forall x | x in InStockIds(u, sid) ensures x in InStockIds(rows, sid) + {row.specId} {
      var k :| 0 <= k < |u| && u[k].storeId == sid && u[k].inStock && u[k].specId == x;
      assert u[k] in u;
      if u[k] != row {
        var j :| 0 <= j < |rows| && rows[j] == u[k];
      }
    }
  }

  /** Upserting a row of one store leaves every other store's rows as they were. */
  lemma {:induction false} UpsertOtherStores(rows: seq<PricingRow>, row: PricingRow)
    ensures OtherStores(Upsert(rows, row), row.storeId) == OtherStores(rows, row.storeId)
  {
    if |rows| == 0 {
    } else if SameKey(rows[0], row) {
      assert ([row] + rows[1..])[1..] == rows[1..];
    } else {
      UpsertOtherStores(rows[1..], row);
      assert ([rows[0]] + Upsert(rows[1..], row))[1..] == Upsert(rows[1..], row);
    }
  }

  /** The conflict key of a row. */
  function KeyOf(r: PricingRow): (string, string, nat)
  {
    (r.specId, r.table, r.storeId)
  }

  /** The conflict keys present in the table. */
  function KeysOf(rows: seq<PricingRow>): set<(string, string, nat)>
  {
    set k | 0 <= k < |rows| :: KeyOf(rows[k])
  }

  /** An upsert never loses a key: it adds exactly the row's key. */
  lemma UpsertKeys(rows: seq<PricingRow>, row: PricingRow)
    ensures KeysOf(Upsert(rows, row)) == KeysOf(rows) + {KeyOf(row)}
  {
    var u := Upsert(rows, row);
    UpsertStores(rows, row);
    forall x | x in KeysOf(u) ensures x in KeysOf(rows) + {KeyOf(row)} {
      var k :| 0 <= k < |u| && KeyOf(u[k]) == x;
      assert u[k] in u;
      if u[k] != row {
        var j :| 0 <= j < |rows| && rows[j] == u[k];
      }
    }
    forall x | x in KeysOf(rows) + {KeyOf(row)} ensures x in KeysOf(u) {
      if x == KeyOf(row) {
        var m :| 0 <= m < |u| && u[m] == row;
      } else {
        var k :| 0 <= k < |rows| && KeyOf(rows[k]) == x;
        assert rows[k] in rows;
        var m :| 0 <= m < |u| && u[m] == rows[k];
      }
    }
  }

  // ---------------------------------------------------------------- out of stock

  /** Marking takes exactly that spec id out of the store's in-stock ids. */
  lemma MarkInStock(rows: seq<PricingRow>, specId: string, storeId: nat, now: string)
    ensures InStockIds(MarkOutOfStock(rows, specId, storeId, now), storeId) == InStockIds(rows, storeId) - {specId}
  {
    var m := MarkOutOfStock(rows, specId, storeId, now);
    forall x | x in InStockIds(rows, storeId) - {specId} ensures x in InStockIds(m, storeId) {
      var k :| 0 <= k < |rows| && rows[k].storeId == storeId && rows[k].inStock && rows[k].specId == x;
      assert m[k] == rows[k];
    }
    forall x | x in InStockIds(m, storeId) ensures x in InStockIds(rows, storeId) - {specId} {
      var k :| 0 <= k < |m| && m[k].storeId == storeId && m[k].inStock && m[k].specId == x;
      assert m[k] == rows[k];
    }
  }

  /** Marking changes only the stock flag and timestamp of that spec id's
      rows at that store, which end up out of stock; every other row, of
      this store or another, is left as it was. */
  lemma {:induction false} MarkKeepsRest(rows: seq<PricingRow>, specId: string, storeId: nat, now: string)
    ensures var m := MarkOutOfStock(rows, specId, storeId, now);
      forall k :: 0 <= k < |rows| ==>
        m[k] == rows[k]
        || (rows[k].specId == specId && rows[k].storeId == storeId && m[k] == rows[k].(inStock := false, lastUpdated := now))
    ensures var m := MarkOutOfStock(rows, specId, storeId, now);
      forall k :: 0 <= k < |rows| && rows[k].specId == specId && rows[k].storeId == storeId ==>
        !m[k].inStock && m[k].lastUpdated == now
    ensures var m := MarkOutOfStock(rows, specId, storeId, now);
      forall k :: 0 <= k < |rows| ==> SameKey(m[k], rows[k]) && m[k].price == rows[k].price && m[k].url == rows[k].url
    ensures OtherStores(MarkOutOfStock(rows, specId, storeId, now), storeId) == OtherStores(rows, storeId)
  {
    if |rows| > 0 {
      var m := MarkOutOfStock(rows, specId, storeId, now);
      MarkKeepsRest(rows[1..], specId, storeId, now);
      assert m[1..] == MarkOutOfStock(rows[1..], specId, storeId, now);
    }
  }

  lemma MarkKeysUnique(rows: seq<PricingRow>, specId: string, storeId: nat, now: string)
    requires KeysUnique(rows)
    ensures KeysUnique(MarkOutOfStock(rows, specId, storeId, now))
  {
    MarkKeepsRest(rows, specId, storeId, now);
  }

  /** An other store's in-stock ids depend on its own rows alone. */
  lemma {:induction false} InStockOfOthers(rows: seq<PricingRow>, storeId: nat, other: nat)
    requires other != storeId
    ensures InStockIds(rows, other) == InStockIds(OtherStores(rows, storeId), other)
  {
    if |rows| > 0 {
      InStockOfOthers(rows[1..], storeId, other);
      InStockCons(rows, other);
      var t := OtherStores(rows[1..], storeId);
      if rows[0].storeId != storeId {
        InStockCons([rows[0]] + t, other);
        assert ([rows[0]] + t)[1..] == t;
      } else {
        assert OtherStores(rows, storeId) == t;
      }
    }
  }

  lemma InStockCons(rows: seq<PricingRow>, storeId: nat)
    requires |rows| > 0
    ensures InStockIds(rows, storeId) ==
      (if rows[0].storeId == storeId && rows[0].inStock then {rows[0].specId} else {}) + InStockIds(rows[1..], storeId)
  {
    var rest := rows[1..];
    forall x | x in InStockIds(rows, storeId)
      ensures x in (if rows[0].storeId == storeId && rows[0].inStock then {rows[0].specId} else {}) + InStockIds(rest, storeId)
    {
      var k :| 0 <= k < |rows| && rows[k].storeId == storeId && rows[k].inStock && rows[k].specId == x;
      if k > 0 {
        assert rest[k - 1] == rows[k];
      }
    }
    forall x | x in InStockIds(rest, storeId) ensures x in InStockIds(rows, storeId) {
      var k :| 0 <= k < |rest| && rest[k].storeId == storeId && rest[k].inStock && rest[k].specId == x;
      assert rows[k + 1] == rest[k];
    }
  }

  /** Two tables that agree outside a store agree on every other store's in-stock ids. */
  lemma SameOtherStores(a: seq<PricingRow>, b: seq<PricingRow>, storeId: nat, other: nat)
    requires OtherStores(a, storeId) == OtherStores(b, storeId) && other != storeId
    ensures InStockIds(a, other) == InStockIds(b, other)
  {
    InStockOfOthers(a, storeId, other);
    InStockOfOthers(b, storeId, other);
  }

  // ---------------------------------------------------------------- stores

  /** The index of the first store row with that name, as select().eq("Name", name) finds it. */
  function FindStore(stores: seq<StoreRow>, name: Value): (r: Option<nat>)
    ensures r.Some? ==>
      r.value < |stores| && stores[r.value].name == name &&
      forall j :: 0 <= j < r.value ==> stores[j].name != name
    ensures r.None? ==> forall j :: 0 <= j < |stores| ==> stores[j].name != name
  {
    if |stores| == 0 then None
    else if stores[0].name == name then Some(0)
    else
      var r := FindStore(stores[1..], name);
      if r.Some? then Some(r.value + 1) else None
  }

  /** The Id get_or_create_store would read back for a name, if its row exists. */
  function StoreIdOf(stores: seq<StoreRow>, name: Value): Option<nat>
  {
    match FindStore(stores, name)
    case Some(i) => Some(stores[i].id)
    case None => None
  }

  predicate StoreIdsDistinct(stores: seq<StoreRow>)
  {
    forall i, j :: 0 <= i < j < |stores| ==> stores[i].id != stores[j].id
  }

  /** Adding a store row leaves what every other name resolves to as it was. */
  lemma StoreIdAppend(stores: seq<StoreRow>, row: StoreRow, name: Value)
    requires row.name != name
    ensures StoreIdOf(stores + [row], name) == StoreIdOf(stores, name)
  {
    var r := FindStore(stores + [row], name);
    var r0 := FindStore(stores, name);
    assert forall j :: 0 <= j < |stores| ==> (stores + [row])[j] == stores[j];
    if r.Some? {
      assert r.value < |stores|;
    }
  }

  /** Changing anything but names and Ids leaves every name's store as it was. */
  lemma {:induction false} StoreIdSameNames(a: seq<StoreRow>, b: seq<StoreRow>, name: Value)
    requires |a| == |b| && forall i :: 0 <= i < |a| ==> a[i].name == b[i].name && a[i].id == b[i].id
    ensures StoreIdOf(a, name) == StoreIdOf(b, name)
    ensures FindStore(a, name) == FindStore(b, name)
  {
    if |a| > 0 {
      StoreIdSameNames(a[1..], b[1..], name);
    }
  }

  /** With distinct Ids, two names never resolve to the same store. */
  lemma StoreIdInjective(stores: seq<StoreRow>, a: Value, b: Value)
    requires StoreIdsDistinct(stores) && a != b
    requires StoreIdOf(stores, a).Some? && StoreIdOf(stores, b).Some?
    ensures StoreIdOf(stores, a) != StoreIdOf(stores, b)
  {
  }

  // ---------------------------------------------------------------- the tables

  class Database {
    var stores: seq<StoreRow>
    var nextStoreId: nat
    var pricing: seq<PricingRow>
    var history: seq<HistoryRow>
    /** The ImageUrl column of every specification row, by (table, Id). */
    var images: map<(string, string), Value>

    ghost predicate Valid()
      reads this
    {
      KeysUnique(pricing) && StoreIdsDistinct(stores)
      && (forall i :: 0 <= i < |stores| ==> stores[i].id < nextStoreId)
    }

    constructor(stores0: seq<StoreRow>, nextStoreId0: nat, pricing0: seq<PricingRow>,
                history0: seq<HistoryRow>, images0: map<(string, string), Value>)
      requires KeysUnique(pricing0) && StoreIdsDistinct(stores0)
      requires forall i :: 0 <= i < |stores0| ==> stores0[i].id < nextStoreId0
      ensures Valid()
      ensures stores == stores0 && nextStoreId == nextStoreId0
      ensures pricing == pricing0 && history == history0 && images == images0
    {
      stores := stores0;
      nextStoreId := nextStoreId0;
      pricing := pricing0;
      history := history0;
      images := images0;
    }

    /** get_or_create_store: the Id of the first store with that name, or of
        a new store row with the next identity value. */
    method GetOrCreateStore(name: Value) returns (id: nat)
      requires Valid()
      modifies this
      ensures Valid()
      ensures pricing == old(pricing) && history == old(history) && images == old(images)
      ensures old(StoreIdOf(stores, name)).Some? ==>
        stores == old(stores) && nextStoreId == old(nextStoreId) && Some(id) == old(StoreIdOf(stores, name))
      ensures old(StoreIdOf(stores, name)).None? ==>
        id == old(nextStoreId) && stores == old(stores) + [StoreRow(id, name, None)] && nextStoreId == id + 1
      ensures StoreIdOf(stores, name) == Some(id)
      ensures forall other :: other != name ==> StoreIdOf(stores, other) == old(StoreIdOf(stores, other))
    {
      var found := FindStore(stores, name);
      if found.Some? {
        id := stores[found.value].id;
      } else {
        id := nextStoreId;
        var row := StoreRow(id, name, None);
        forall other | other != name ensures StoreIdOf(stores + [row], other) == StoreIdOf(stores, other) {
          StoreIdAppend(stores, row, other);
        }
        assert FindStore(stores + [row], name) == Some(|stores|) by {
          assert forall j :: 0 <= j < |stores| ==> (stores + [row])[j] == stores[j];
          assert (stores + [row])[|stores|].name == name;
        }
        stores := stores + [row];
        nextStoreId := nextStoreId + 1;
      }
    }

    /** update({LastScrapedAt: now}).eq("Id", storeId) on Stores. */
    method TouchStore(storeId: nat, now: string)
      requires Valid()
      modifies this
      ensures Valid()
      ensures pricing == old(pricing) && history == old(history) && images == old(images) && nextStoreId == old(nextStoreId)
      ensures |stores| == |old(stores)|
      ensures forall i :: 0 <= i < |stores| ==>
        stores[i] == if old(stores)[i].id == storeId then old(stores)[i].(lastScrapedAt := Some(now)) else old(stores)[i]
      ensures forall name :: StoreIdOf(stores, name) == old(StoreIdOf(stores, name))
    {
      var before := stores;
      stores := seq(|stores|, i requires 0 <= i < |stores| reads this =>
        if stores[i].id == storeId then stores[i].(lastScrapedAt := Some(now)) else stores[i]);
      forall name ensures StoreIdOf(stores, name) == StoreIdOf(before, name) {
        StoreIdSameNames(stores, before, name);
      }
    }

    method UpsertPricing(row: PricingRow)
      requires Valid()
      modifies this
      ensures Valid()
      ensures pricing == Upsert(old(pricing), row)
      ensures stores == old(stores) && nextStoreId == old(nextStoreId) && history == old(history) && images == old(images)
    {
      UpsertKeysUnique(pricing, row);
      pricing := Upsert(pricing, row);
    }

    method InsertHistory(row: HistoryRow)
      requires Valid()
      modifies this
      ensures Valid()
      ensures history == old(history) + [row]
      ensures stores == old(stores) && nextStoreId == old(nextStoreId) && pricing == old(pricing) && images == old(images)
    {
      history := history + [row];
    }

    method MarkMissing(specId: string, storeId: nat, now: string)
      requires Valid()
      modifies this
      ensures Valid()
      ensures pricing == MarkOutOfStock(old(pricing), specId, storeId, now)
      ensures stores == old(stores) && nextStoreId == old(nextStoreId) && history == old(history) && images == old(images)
    {
      MarkKeysUnique(pricing, specId, storeId, now);
      pricing := MarkOutOfStock(pricing, specId, storeId, now);
    }

    /** process_product_image: a spec row whose ImageUrl is already truthy is
        left alone; otherwise the image is downloaded (fetch), stored as
        "<specId>.webp" (upload gives its public URL) and that URL recorded.
        Returns whether the row ends up with an image from this or an earlier run. */
    method ProcessProductImage(specId: string, table: string, imageUrl: Value,
                               fetch: string -> bool, upload: string -> Option<string>) returns (ok: bool)
      requires Valid()
      modifies this
      ensures Valid()
      ensures stores == old(stores) && nextStoreId == old(nextStoreId) && pricing == old(pricing) && history == old(history)
      ensures (table, specId) !in old(images) ==> !ok && images == old(images)
      ensures (table, specId) in old(images) && Truthy(old(images)[(table, specId)]) ==> ok && images == old(images)
      ensures (table, specId) in old(images) && !Truthy(old(images)[(table, specId)]) ==>
        var published := upload(specId + ".webp");
        var stored := imageUrl.Str? && fetch(imageUrl.s) && published.Some? && published.value != "";
        ok == stored
        && images == if stored then old(images)[(table, specId) := Str(published.value)] else old(images)
    {
      var key := (table, specId);
      if key !in images {
        return false;
      }
      if Truthy(images[key]) {
        return true;
      }
      if !imageUrl.Str? || !fetch(imageUrl.s) {
        return false;
      }
      var publicUrl := upload(specId + ".webp");
      if publicUrl.None? || publicUrl.value == "" {
        return false;
      }
      images := images[key := Str(publicUrl.value)];
      return true;
    }
  }
}
