# PC part pricing pipeline — a verified Dafny model

This project models the core of a data pipeline. The pipeline scrapes PC-part
listings from online stores and matches each listing to a product in a
specifications database. It then keeps per-store current prices, a price
history and stock status. The model covers four scripts.

- `ScrapDB/match_products.py`. This is the nightly matcher. It reads the
  scrapers' JSON output and groups the listings by store. For each store it
  does the following:
  - drops listings without a type, part number or price;
  - maps the category to one or more specification tables;
  - turns the part-number field into candidates and looks each one up;
  - keeps the cheapest offer per matched product;
  - upserts the current price, appends to the price history and fetches the
    product image if it is missing;
  - marks the store's products that were not seen today as out of stock.
- `SpecDB/UpdateToSupabase.py`. This is the specification uploader. It
  resolves each data folder to its table and maps every record to a row
  whose column names are normalized. Records without a link are skipped, and
  the rest are sent in chunks of 100.
- `ScrapDB/run_all_scrapers.py`. This is the orchestrator. It reads its
  settings from the environment and discovers the `scrap_*.py` scrapers. It
  runs each one headless or headful. A scraper that succeeds with no output
  is retried headful. Then it runs the matcher and computes the exit code:
  0 when everything succeeds, 2 when some scraper failed, 1 when the matcher
  failed.
- `SpecDB/Rebuild_PCPP_Links.py`. This is the link-cache rebuild. It scans
  the specification JSON files and counts the skipped ones. It collects the
  distinct stripped links of the named products and writes them out sorted.

## Modules

- `Wrappers`: `Option`.
- `Dicts`: ordered dictionaries as sequences of pairs, with insertion order
  kept as in Python.
- `PyText`: Python's `str.strip`, ASCII `lower`, `split`, `join`, `int()`
  parsing and substring search.
- `Json`: JSON values, Python truthiness, `str()`/`repr()` and the hashable
  equality that dictionary keys use (`True == 1`).
- `Sorting`: a stable sort by key.
- `PartNumbers`: `parse_part_numbers`.
- `Categories`: the matcher's `CATEGORY_TO_TABLE`.
- `SpecMatcher`: `find_spec_id`.
- `Ingest`: the file walk and the grouping by store.
- `Dedup`: the per-store deduplication and minimum-price pass.
- `Backend`: the `Database` class holding the Stores, ProductPricing,
  PriceHistory and specification image tables, and `process_product_image`.
- `DailyScraps`: `process_daily_scraps`.
- `SpecUpload`: the uploader.
- `ScraperRunner`: the orchestrator.
- `LinkCache`: the link-cache rebuild.

Follow-up operations take the database's answers and the effects of the
outside world as parameters:

- the `ilike … limit(1)` lookup is a `Query` function from table and
  candidate to a row, a miss or a raised exception;
- image download and storage upload are `fetch` and `upload`;
- the result of a subprocess is `run`, and the count of JSON files a
  scraper left behind is `count`;
- the upload of a chunk is `ok`.

## Model

| member | source | states |
|---|---|---|
| PartNumbers.ParsePartNumbers | ScrapDB/match_products.py:61-74 | The loop over the comma-split bracket contents returns exactly the specified candidate list `Candidates(raw)`. |
| PartNumbers.BasicCases | ScrapDB/match_products.py:62-65 | A falsy value yields no candidates. A list yields its truthy items, stringified and stripped, and never more candidates than items. Any other value that is not bracketed yields its single stripped string. |
| PartNumbers.ListCandidatesLength | ScrapDB/match_products.py:63-64 | Every candidate from a list is the stripped `str()` of some truthy item of the list. |
| PartNumbers.BracketedCandidatesClean | ScrapDB/match_products.py:67-73 | The cleaned pieces of a comma split are non-empty, contain no comma and are no more numerous than the pieces. |
| PartNumbers.CandidatesOfBracketed | ScrapDB/match_products.py:66-73 | Every candidate of a bracketed string is non-empty and free of commas. |
| PartNumbers.PartNumbersBracketed | ScrapDB/match_products.py:66-73 | A bracketed string yields the cleaned pieces of its inner text split on commas. |
| PartNumbers.ListStringRoundTrip | ScrapDB/match_products.py:65-73 | Parsing the Python `repr` of a list of plain strings (such as `"['A1', 'A2']"`) gives back the list. |
| PartNumbers.BracketJoinRoundTrip | ScrapDB/match_products.py:66-73 | Parsing `"[" + ", ".join(items) + "]"` gives back the items when they are trimmed, non-empty and free of commas and quotes. |
| PartNumbers.BlankPartNumber | ScrapDB/match_products.py:61-74 | The part number `" "` is truthy. It yields the single candidate `""`, which occurs in every part-number column. |
| PartNumbers.ExampleQuotedList | ScrapDB/match_products.py:66-73 | `"['A1', 'A2']"` yields `["A1", "A2"]`. |
| PartNumbers.ExampleBareList | ScrapDB/match_products.py:66-73 | `"[A1, A2]"` yields `["A1", "A2"]`. |
| PartNumbers.ExampleSingle | ScrapDB/match_products.py:74 | `"A1"` yields `["A1"]`. |
| PartNumbers.ExampleEmpty | ScrapDB/match_products.py:62-73 | `None`, `""` and `"[]"` yield no candidates. |
| Categories.CategoryToTable | ScrapDB/match_products.py:25-56 | Every mapped category gives a non-empty table name or a non-empty list of non-empty names. |
| Categories.CombinedCategories | ScrapDB/match_products.py:25-56 | The four combined categories map to their table lists in the source's order. `CPUCooler_Air` maps to the cooler table. An unlisted category maps to nothing. |
| SpecMatcher.SearchCandidatesFirst | ScrapDB/match_products.py:91-101 | Searching one table misses iff no candidate's lookup returns a row. A hit is the first candidate that does, and a raised lookup counts as a miss. |
| SpecMatcher.SearchTablesFirst | ScrapDB/match_products.py:90-102 | Searching the tables misses iff every table/candidate pair misses. A hit comes from the first table, in order, that has a hit, and carries that table's name. |
| SpecMatcher.FindSpecIdFirstHit | ScrapDB/match_products.py:84-102 | `find_spec_id` returns nothing iff there are no candidates or every lookup misses. Otherwise it returns the first hit, in table-major then candidate order, together with its table. |
| SpecMatcher.SingleTableAsList | ScrapDB/match_products.py:85-86 | A single table name behaves exactly like the one-element list holding it. |
| SpecMatcher.RaisedIsMiss | ScrapDB/match_products.py:100-101 | Two lookups that agree on their hits give the same result, whichever of their misses raise. |
| SpecMatcher.MatchIsGenuine | ScrapDB/match_products.py:93-99 | Under the `ilike '%c%'` semantics, a returned id belongs to a row of the returned table whose part number contains one of the candidates, ignoring ASCII case. |
| SpecMatcher.BlankPartNumberMatchesAnything | ScrapDB/match_products.py:87-99 | The part number `" "` matches the first target table whenever that table has a row and the lookup does not raise. |
| Ingest.FindBatch | ScrapDB/match_products.py:235 | Finds the batch whose store equals the name under dictionary-key equality, or reports that none does. |
| Ingest.IngestFiles | ScrapDB/match_products.py:223-239 | The walk over the files returns exactly the specified grouping `Ingested(files)`. |
| Ingest.GroupFromAppend | ScrapDB/match_products.py:232-237 | Grouping a concatenation equals grouping the second part onto the grouping of the first. |
| Ingest.AddToGrouped | ScrapDB/match_products.py:234-237 | Appending one named item keeps each batch equal to the in-order items of its store. It also keeps every store of the items represented by a batch. |
| Ingest.GroupFromGrouped | ScrapDB/match_products.py:232-237 | Grouping a run of hashable named items preserves that invariant. |
| Ingest.IngestGroups | ScrapDB/match_products.py:223-239 | Each batch holds exactly the accepted items of its store, in walk order. Each item is tagged with the name of a JSON file it came from. |
| Ingest.IngestedStoresDistinct | ScrapDB/match_products.py:235 | No two batches have the same store. |
| Ingest.ObjectIsOneItemList | ScrapDB/match_products.py:230 | A file holding one object is read exactly as a list holding that object. |
| Ingest.NamelessSkipped | ScrapDB/match_products.py:233-234 | A record without a truthy `store_name` contributes nothing, and the rest of the file is still read. |
| Ingest.NonObjectEndsFile | ScrapDB/match_products.py:232-239 | A non-object element raises in `item.get`. The per-file handler then drops the rest of that file. |
| Dedup.TargetOf | ScrapDB/match_products.py:264-265 | A listing's type maps to a usable target only when it is a string, and the target is truthy. |
| Dedup.ObserveAll | ScrapDB/match_products.py:255-299 | Each listing yields exactly one observation. |
| Dedup.DedupStore | ScrapDB/match_products.py:255-299 | The deduplication loop returns exactly the specified fold `TallyOf(ObserveAll(items))`. |
| Dedup.TallyCorrect | ScrapDB/match_products.py:276-299 | The surviving dictionary has distinct keys and holds exactly the priced ids. Each entry is the earliest offer at the lowest price of its id: strictly cheaper replaces, ties keep the first. The unmatched log is the in-order lines of the unmatched listings. |
| Dedup.ObserveCrashes | ScrapDB/match_products.py:255-263 | A listing aborts the pass iff its type, part number and price are all truthy and its type is unhashable. A listing failing the truthiness test is skipped before the dictionary lookup. |
| Dedup.TallyAborts | ScrapDB/match_products.py:254-263 | The pass aborts iff some listing aborts (see `Dedup.ObserveCrashes`: a truthy type, part number and price with an unhashable type). |
| Dedup.CrashPersists | ScrapDB/match_products.py:264 | Once a prefix aborts, the whole pass aborts. |
| Dedup.SkippedListings | ScrapDB/match_products.py:262 | A listing missing a truthy type, part number or price is skipped. Otherwise its observation depends on the lookup. |
| Dedup.LoggedAndDropped | ScrapDB/match_products.py:268-299 | A listing whose lookup misses is logged as unmatched. A listing whose price is not an integer is silently dropped. |
| Dedup.PriceParsing | ScrapDB/match_products.py:271-274 | `int()` rejects `"$1.990"`, reads back every decimal numeral, and reads `True` as 1. |
| Dedup.PricedStep | ScrapDB/match_products.py:277-297 | One priced observation preserves the tally invariant. |
| Dedup.OtherStep | ScrapDB/match_products.py:262-299 | A skipped, dropped or unmatched observation preserves the tally invariant. An unmatched one appends its log line. |
| Dedup.BestNew | ScrapDB/match_products.py:280-288 | An offer strictly cheaper than every earlier offer for its id becomes the best one. |
| Dedup.BestExtends | ScrapDB/match_products.py:280 | An offer no cheaper than the best keeps the best one in place. |
| Backend.MarkOutOfStock | ScrapDB/match_products.py:355-359 | Marks rows out of stock without adding or removing any rows. |
| Backend.UpsertStores | ScrapDB/match_products.py:318-326 | After an upsert the row is present. Every row is the new row or an old one. Old rows with another key survive. At most one row is added. |
| Backend.UpsertKeysUnique | ScrapDB/match_products.py:326 | An upsert keeps the conflict key (spec id, table, store) unique. |
| Backend.UpsertInStock | ScrapDB/match_products.py:318-326 | Upserting an in-stock row adds exactly its spec id to the store's in-stock ids. |
| Backend.UpsertOtherStores | ScrapDB/match_products.py:318-326 | An upsert leaves the rows of every other store unchanged. |
| Backend.UpsertKeys | ScrapDB/match_products.py:318-326 | An upsert adds exactly the row's conflict key to the set of keys present, so it never deletes a row. |
| Backend.MarkInStock | ScrapDB/match_products.py:356-359 | Marking removes exactly that spec id from the store's in-stock ids. |
| Backend.MarkKeepsRest | ScrapDB/match_products.py:356-359 | Every row is either unchanged or is a row of that store and spec id with only its stock flag cleared and its timestamp set to now. Every row of that store and spec id ends up out of stock and stamped. Other stores' rows and same-store rows of other spec ids are untouched. |
| Backend.MarkKeysUnique | ScrapDB/match_products.py:356-359 | Marking keeps the conflict key unique. |
| Backend.InStockOfOthers | ScrapDB/match_products.py:344-348 | Another store's in-stock ids depend only on the rows outside the current store. |
| Backend.SameOtherStores | ScrapDB/match_products.py:344-348 | Equal rows outside a store give equal in-stock ids for every other store. |
| Backend.FindStore | ScrapDB/match_products.py:77-79 | `select … eq("Name", …)` returns the first store row with that name, or reports that none has it. |
| Backend.StoreIdAppend | ScrapDB/match_products.py:81-82 | Inserting a store with another name does not change a name's id. |
| Backend.StoreIdInjective | ScrapDB/match_products.py:76-82 | With distinct store ids, different names resolve to different ids. |
| Backend.Database.constructor | ScrapDB/match_products.py:16 | The client starts from the given tables, with unique pricing keys and distinct store ids below the next id. |
| Backend.Database.GetOrCreateStore | ScrapDB/match_products.py:76-82 | Returns the existing id of the name. Otherwise it inserts a store with the next id. In both cases the name then resolves to the id and every other name is unaffected. |
| Backend.Database.TouchStore | ScrapDB/match_products.py:361 | Stamps `LastScrapedAt` on that store only. Names and ids are unchanged. |
| Backend.Database.UpsertPricing | ScrapDB/match_products.py:318-326 | The pricing table becomes `Upsert(old, row)`. No other table changes. |
| Backend.Database.InsertHistory | ScrapDB/match_products.py:330-336 | Appends one history row. No other table changes. |
| Backend.Database.MarkMissing | ScrapDB/match_products.py:356-359 | The pricing table becomes `MarkOutOfStock(old, spec, store, now)`. No other table changes. |
| Backend.Database.ProcessProductImage | ScrapDB/match_products.py:158-206 | Covers three cases. A missing spec row gives False. An existing truthy `ImageUrl` gives True and nothing changes. Otherwise the image is fetched and uploaded as `<id>.webp`, and the public URL is recorded; any failure gives False with nothing recorded. |
| DailyScraps.HistoryOf | ScrapDB/match_products.py:330-336 | One history row per deduplicated product. |
| DailyScraps.PersistOne | ScrapDB/match_products.py:314-340 | One product is upserted as in stock and appended to the history. Its image is processed unless its URL is `"N/A"`. Only image entries of that product may change. |
| DailyScraps.PersistWinners | ScrapDB/match_products.py:312-340 | Phase B returns exactly the ids of the deduplicated products. It adds exactly those ids to the store's in-stock set and appends their history rows in order. Each product's current pricing row is present. The conflict keys after the phase are the earlier keys plus one per product, so no earlier row is deleted. Other stores' rows are unchanged, and only the images of those products with a falsy image and a URL other than `"N/A"` change. |
| DailyScraps.FlippedInStock | ScrapDB/match_products.py:350-359 | Flipping the missing ids takes exactly those ids out of the store's in-stock set. |
| DailyScraps.FlippedOthers | ScrapDB/match_products.py:356-359 | Flipping the missing ids leaves the rows of every other store as they were. |
| DailyScraps.WinnersSurvive | ScrapDB/match_products.py:343-359 | The pricing rows written for today's products survive phase C, and the set of conflict keys does not change. |
| DailyScraps.CloseStock | ScrapDB/match_products.py:343-359 | Phase C flips exactly the store's in-stock rows whose spec id was not found today: each such row gets only its stock flag cleared and its timestamp set, and every other row is unchanged. The store's in-stock set becomes its intersection with the ids found today, and other stores are unchanged. |
| DailyScraps.ProcessStore | ScrapDB/match_products.py:243-361 | For one store: the store is resolved or created, other stores keep their ids and rows, and at most one store row is added. An aborting pass changes no pricing, history, images or existing store rows. Otherwise the unmatched lines are returned, the store's in-stock set becomes exactly today's matched ids, each matched product's current pricing row is present, the conflict keys are the earlier ones plus one per product, and the store's LastScrapedAt is now. |
| DailyScraps.ClosedExtends | ScrapDB/match_products.py:242-361 | Closing a new store keeps the closed stores' in-stock sets and adds the new store's. |
| DailyScraps.ProcessNext | ScrapDB/match_products.py:242-361 | One store step extends the report by that store's unmatched lines, or stops on an abort. It keeps the closed-stores invariant. |
| DailyScraps.ProcessStores | ScrapDB/match_products.py:242-361 | The report is the unmatched lines, store after store. The run completes iff no store's pass aborts. Every completed store's in-stock set equals its matched ids. |
| DailyScraps.ProcessDailyScraps | ScrapDB/match_products.py:210-363 | The report starts with its header. A missing directory stops right after the header. Otherwise every ingested store is processed as above. |
| SpecUpload.KeepAlnum | SpecDB/UpdateToSupabase.py:61 | Dropping non-alphanumerics never lengthens a key. |
| SpecUpload.NormalizeKeyPerChar | SpecDB/UpdateToSupabase.py:52-62 | Normalizing transforms a key character by character: `+` becomes `Plus`, `-` becomes `Minus`, ASCII letters and digits stay, everything else is dropped. |
| SpecUpload.NormalizeKeyAlnum | SpecDB/UpdateToSupabase.py:52-62 | A normalized key contains only ASCII letters and digits. |
| SpecUpload.NormalizeKeyOfAlnum | SpecDB/UpdateToSupabase.py:52-62 | A key that is already alphanumeric is unchanged. |
| SpecUpload.NormalizeKeyIdempotent | SpecDB/UpdateToSupabase.py:52-62 | Normalizing twice equals normalizing once. |
| SpecUpload.PlusMinusSpelled | SpecDB/UpdateToSupabase.py:56-58 | `DVD+R` becomes `DVDPlusR` and `DVD-R` becomes `DVDMinusR`, so the two keys stay distinct. |
| SpecUpload.SymbolDropped | SpecDB/UpdateToSupabase.py:60-61 | Any symbol other than `+` and `-` is removed without a trace. |
| SpecUpload.MapJsonToDbRow | SpecDB/UpdateToSupabase.py:64-90 | The mapping loop returns exactly the specified row `RowFor(data)`. |
| SpecUpload.MetaRow | SpecDB/UpdateToSupabase.py:65-79 | Building the fixed columns returns exactly `Meta(data)`. |
| SpecUpload.MetaColumns | SpecDB/UpdateToSupabase.py:68-71 | `MetaName` defaults to `"Unknown"`. `ImageUrl` is `img_url` or None. `pcpp_link` is `pcpartpicker_url or url`. |
| SpecUpload.MetaManufacturer | SpecDB/UpdateToSupabase.py:73-74 | `MetaManufacturer` is present iff the record has that key, and then it holds that key's value. |
| SpecUpload.MetaPartNumber | SpecDB/UpdateToSupabase.py:77-79 | `MetaPartNumber` is present iff `Part #` is truthy, and then it holds its `str()`. |
| SpecUpload.MetaOnly | SpecDB/UpdateToSupabase.py:65-79 | The fixed part has only the five meta columns. |
| SpecUpload.RowColumns | SpecDB/UpdateToSupabase.py:84-88 | A dynamic column holds the value from the last non-ignored key that normalizes to it. Without such a key the column keeps its earlier value. |
| SpecUpload.LinkColumn | SpecDB/UpdateToSupabase.py:64-90 | The final `pcpp_link` column is always `pcpartpicker_url or url`: no dynamic key can overwrite it. |
| SpecUpload.NoUnderscoreColumn | SpecDB/UpdateToSupabase.py:84-88 | No normalized key equals `pcpp_link`. |
| SpecUpload.DynamicValues | SpecDB/UpdateToSupabase.py:84-88 | A non-ignored key that no later key collides with lands in its normalized column as `str(value)`. |
| SpecUpload.LastColumnAt | SpecDB/UpdateToSupabase.py:84-88 | The last key that normalizes to a column determines that column's value. |
| SpecUpload.FolderTable | SpecDB/UpdateToSupabase.py:23-48 | A folder name that resolves contains no space and gives a non-empty table. |
| SpecUpload.FolderTableAgrees | SpecDB/UpdateToSupabase.py:23-48 | Every uploader folder maps to the same single table under the matcher's category map. |
| SpecUpload.FallbackNeverHelps | SpecDB/UpdateToSupabase.py:103-114 | Resolving with the raw-name fallback equals resolving the space-free name alone. |
| SpecUpload.CollectBatch | SpecDB/UpdateToSupabase.py:121-138 | Reading a folder's files returns exactly the specified batch `BatchRows(files)`. |
| SpecUpload.BatchLinks | SpecDB/UpdateToSupabase.py:130-135 | Every batched row has a truthy `pcpp_link`. The batch has no more rows than there are files. |
| SpecUpload.UploadChunks | SpecDB/UpdateToSupabase.py:141-159 | The chunks concatenate back to the batch. There are ⌈n/100⌉ of them, all full but the last, none empty. The processed total counts the rows of accepted chunks and never exceeds the batch. |
| SpecUpload.AllUploaded | SpecDB/UpdateToSupabase.py:145-156 | When every chunk is accepted, the total equals the batch size. |
| SpecUpload.UploadFolders | SpecDB/UpdateToSupabase.py:94-164 | Exactly the mapped directories with a non-empty batch are uploaded, in listing order and to their tables. Each batch is sent whole, in chunks of at most 100. |
| ScraperRunner.ParseTimeoutMinutes | ScrapDB/run_all_scrapers.py:24-39 | The result differs from the default only for a positive integer setting, which it returns. With a positive default it is always positive. |
| ScraperRunner.TimeoutFromDecimal | ScrapDB/run_all_scrapers.py:29-39 | A decimal numeral `n` becomes `n` when positive and the default otherwise. |
| ScraperRunner.ParseBool | ScrapDB/run_all_scrapers.py:42-44 | An unset variable gives the default. |
| ScraperRunner.ParseBoolSettings | ScrapDB/run_all_scrapers.py:45 | `0`, `false`, `no` and `off`, in any case and with surrounding space, are false. `""`, `1` and `yes` are true. |
| ScraperRunner.CsvItemsNormal | ScrapDB/run_all_scrapers.py:48-50 | Every parsed list item is non-empty, stripped and lower case. |
| ScraperRunner.CsvRoundTrip | ScrapDB/run_all_scrapers.py:48-50 | Parsing the comma join of normalized names gives back their set. |
| ScraperRunner.SettingsOf | ScrapDB/run_all_scrapers.py:188-194 | Both timeouts are positive. Unset flags mean headless, xvfb and retry on empty. Unset lists are empty. |
| ScraperRunner.DiscoverScrapers | ScrapDB/run_all_scrapers.py:53-70 | The discovery loop and sort return exactly the specified `Discovered(entries, env)`. |
| ScraperRunner.DiscoveredRuns | ScrapDB/run_all_scrapers.py:53-70 | A script is discovered iff it is a file, matches `^scrap_.*\.py$` ignoring case, does not start with `__` and is not excluded. The result is sorted by lower-cased name, and the sort is a stable permutation of the kept entries. |
| ScraperRunner.NameMatchIgnoresCase | ScrapDB/run_all_scrapers.py:56 | The name pattern ignores case. |
| ScraperRunner.ScraperNamesMatch | ScrapDB/run_all_scrapers.py:56 | Every `scrap_<stem>.py` with a single-line stem matches. |
| ScraperRunner.OnlyPythonFiles | ScrapDB/run_all_scrapers.py:56 | A matching name ends in `.py`, optionally followed by a newline as `$` permits, and has at least 9 characters. |
| ScraperRunner.UnderscoreTestRedundant | ScrapDB/run_all_scrapers.py:62-66 | The `__` test never rejects anything the pattern admits. |
| ScraperRunner.RunOf | ScrapDB/run_all_scrapers.py:146-177 | Success iff the exit code is 0 without a timeout. A missing script records -1, a timeout -9, an exit its code. |
| ScraperRunner.ScriptHeadless | ScrapDB/run_all_scrapers.py:202-207 | The headless list overrides the headful list, which overrides the default. |
| ScraperRunner.RetryLaunched | ScrapDB/run_all_scrapers.py:214-241 | The first launch passes the script's headless flag and uses xvfb only when it is headful. A second, headful launch (with xvfb if enabled) happens iff retry is on, the script ran headless, it succeeded, and its output folder holds 0 JSON files. |
| ScraperRunner.RetryReplaces | ScrapDB/run_all_scrapers.py:225-251 | The retry replaces the result iff it succeeded with a positive count. Otherwise the first result stays, carrying the retry's success, code and count iff a retry ran. |
| ScraperRunner.RetryKeepsSuccess | ScrapDB/run_all_scrapers.py:225-251 | A scraper's recorded success equals its first run's success. |
| ScraperRunner.RunScraper | ScrapDB/run_all_scrapers.py:201-253 | One scraper's steps give exactly the specified result and launches `ScraperOutcome`. |
| ScraperRunner.RunScrapers | ScrapDB/run_all_scrapers.py:199-259 | The loop gives one result per scraper in order, and the launches in order. |
| ScraperRunner.Failures | ScrapDB/run_all_scrapers.py:279 | The failures are exactly the unsuccessful results. |
| ScraperRunner.ExitCodeRule | ScrapDB/run_all_scrapers.py:279-286 | The exit code is 0, 1 or 2. It is 1 iff the matcher failed, 2 iff the matcher succeeded and some scraper failed, 0 iff all succeeded. |
| ScraperRunner.RunAll | ScrapDB/run_all_scrapers.py:182-316 | The summary holds the settings' timeouts, the discovered count, every scraper's result, the matcher's result, the failure count and the exit code. The launches are every scraper's, then the matcher's. |
| LinkCache.NoUrlFirst | SpecDB/Rebuild_PCPP_Links.py:40-45 | A record is skipped for having no URL iff neither link field is truthy. That test comes before the name test. |
| LinkCache.UnknownByDefault | SpecDB/Rebuild_PCPP_Links.py:37-53 | A record with a URL and no name counts as unknown. An accepted truthy `pcpartpicker_url` wins over `url`. |
| LinkCache.AcceptedLink | SpecDB/Rebuild_PCPP_Links.py:37-53 | An accepted link is the stripped link field of a record whose name is not `Unknown Product` or `Unknown`. |
| LinkCache.CountersBound | SpecDB/Rebuild_PCPP_Links.py:26-56 | Every JSON file is counted once. Skips plus acceptances never exceed it. There are no more distinct links than acceptances. |
| LinkCache.LinkSetMembers | SpecDB/Rebuild_PCPP_Links.py:53 | A link is in the set iff some file contributed it. |
| LinkCache.AscendingUnique | SpecDB/Rebuild_PCPP_Links.py:69-70 | Two strictly ascending sequences with the same members are equal, so the sorted output is determined by the set. |
| LinkCache.SortedLinks | SpecDB/Rebuild_PCPP_Links.py:69-70 | Sorting distinct links gives a strictly ascending sequence of the same links. |
| LinkCache.DistinctCard | SpecDB/Rebuild_PCPP_Links.py:76 | A duplicate-free sequence listing a set has the set's size. |
| LinkCache.RebuildLinkCache | SpecDB/Rebuild_PCPP_Links.py:13-70 | A missing directory writes nothing. Otherwise the counters are the specified ones, and the written lines are strictly ascending and hold exactly the distinct accepted links. |

## Left out

- File-system walks, `os.listdir` and `iterdir` orders: these are inputs,
  given as sequences in the order the operating system would return them.
- JSON parsing: a file is given as its parsed value, or as None when it does
  not parse. Floating-point numbers are not modelled.
- Console output and the unmatched-log writes: the matcher's report is
  returned as lines instead.
- Clock readings: all timestamps of one run are the single `now` parameter.
- The Supabase client: the database is the `Backend.Database` object.
  - Upserts, inserts and updates are assumed to succeed. In the source a
    failing upsert or insert (ScrapDB/match_products.py:318-336) raises out
    of `process_daily_scraps`. That store is then left half written: phase C
    does not run, LastScrapedAt is not stamped and later stores are not
    processed. The model does not capture that outcome.
  - The phase-C select of in-stock rows (ScrapDB/match_products.py:344-348)
    is assumed to return every such row. A server-side row cap, such as a
    PostgREST max-rows setting, is not modelled.
  - Which row `ilike … limit(1)` returns is left to the `Query` parameter.
    `SpecMatcher.MatchIsGenuine` states what any faithful answer must
    satisfy. `%` and `_` inside a candidate are not treated as wildcards
    there.
  - Store names are compared with `==` on JSON values in the store lookup.
- `Backend.Database.ProcessProductImage`: the download, the WebP
  conversion and the storage upload (`download_and_convert_image`,
  `upload_to_supabase_storage`) are the `fetch` and `upload` parameters. An
  exception inside the spec-row select or update is not modelled, since
  writes are assumed to succeed.
- Subprocesses, xvfb detection, log files, durations and the `summary.json`
  write of the orchestrator: a run's outcome is the `run` parameter, and
  xvfb is recorded as a flag on each launch.
- `_infer_output_dir` and `_count_json_files`: the JSON count a scraper
  leaves is the `count` parameter, None when no output folder is declared.
- The scrapers themselves.
- `Rebuild_PCPP_Links.py`: writing the output file and printing the
  statistics are left out. The result is the sorted lines and the counters.
  A file that does not parse, is not an object or has a non-string link
  counts as processed and is otherwise ignored, as the source's exception
  handler does.
- Text handling is ASCII-only for `lower()`, case-insensitive matching and
  `isalnum`-style tests, and `int()` accepts only ASCII digits. Printable
  characters outside Latin-1 are not modelled in `repr`.
- `Dicts.Lookup`: on a JSON object with a repeated key it returns the first
  value, whereas `json.load` keeps the last. Parsed objects are taken to
  have distinct keys.
- `PartNumbers.BlankPartNumber` and `SpecMatcher.BlankPartNumberMatchesAnything`:
  a specification row always carries a string part number. A NULL
  `MetaPartNumber` cannot be represented, so the two properties are stated
  only for rows that have a part number.
