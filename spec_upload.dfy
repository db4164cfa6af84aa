/**
  SpecDB/UpdateToSupabase.py: specification records scraped from
  PCPartPicker are turned into table rows (normalize_key,
  map_json_to_db_row) and upserted per category folder in chunks of 100.
*/
module SpecUpload {
  import opened Wrappers
  import opened Dicts
  import opened PyText
  import opened Json
  import opened Categories

  type Row = seq<(string, Value)>

  // ---------------------------------------------------------------- normalize_key

  /** re.sub(r'[^a-zA-Z0-9]', '', s) */
  function KeepAlnum(s: string): (r: string)
    ensures |r| <= |s|
  {
    if |s| == 0 then "" else (if IsAsciiAlnum(s[0]) then [s[0]] else "") + KeepAlnum(s[1..])
  }

  /** normalize_key: '+' becomes "Plus" and '-' becomes "Minus", then every
      character that is not an ASCII letter or digit is removed. */
  function NormalizeKey(key: string): string
  {
    KeepAlnum(Replace(Replace(key, '+', "Plus"), '-', "Minus"))
  }

  predicate AllAlnum(s: string)
  {
    forall i :: 0 <= i < |s| ==> IsAsciiAlnum(s[i])
  }

  /** The column text one character of a key contributes. */
  function CharColumn(c: char): string
  {
    if c == '+' then "Plus" else if c == '-' then "Minus" else if IsAsciiAlnum(c) then [c] else ""
  }

  /** The column name read character by character. */
  function ColumnOf(key: string): string
  {
    if |key| == 0 then "" else CharColumn(key[0]) + ColumnOf(key[1..])
  }

  lemma {:induction false} KeepAlnumAppend(a: string, b: string)
    ensures KeepAlnum(a + b) == KeepAlnum(a) + KeepAlnum(b)
  {
    if |a| > 0 {
      KeepAlnumAppend(a[1..], b);
      assert (a + b)[1..] == a[1..] + b;
    } else {
      assert a + b == b;
    }
  }

  lemma {:induction false} ReplaceAppend(a: string, b: string, c: char, r: string)
    ensures Replace(a + b, c, r) == Replace(a, c, r) + Replace(b, c, r)
  {
    if |a| > 0 {
      ReplaceAppend(a[1..], b, c, r);
      assert (a + b)[1..] == a[1..] + b;
    } else {
      assert a + b == b;
    }
  }

  lemma {:induction false} KeepAlnumAll(s: string)
    ensures AllAlnum(KeepAlnum(s))
  {
    if |s| > 0 {
      KeepAlnumAll(s[1..]);
    }
  }

  lemma {:induction false} KeepAlnumOfAlnum(s: string)
    requires AllAlnum(s)
    ensures KeepAlnum(s) == s
  {
    if |s| > 0 {
      KeepAlnumOfAlnum(s[1..]);
      assert s == [s[0]] + s[1..];
    }
  }

  /** normalize_key works character by character: the two replacements never
      produce a '-' or a symbol, so their order only matters for the
      characters themselves. */
  lemma {:induction false} NormalizeKeyPerChar(key: string)
    ensures NormalizeKey(key) == ColumnOf(key)
  {
    if |key| > 0 {
      var c := key[0];
      var rest := key[1..];
      NormalizeKeyPerChar(rest);
      assert key == [c] + rest;
      ReplaceAppend([c], rest, '+', "Plus");
      ReplaceAppend(Replace([c], '+', "Plus"), Replace(rest, '+', "Plus"), '-', "Minus");
      KeepAlnumAppend(Replace(Replace([c], '+', "Plus"), '-', "Minus"), Replace(Replace(rest, '+', "Plus"), '-', "Minus"));
      NormalizeChar(c);
    }
  }

  /** One character on its own normalizes to its column text. */
  lemma NormalizeChar(c: char)
    ensures NormalizeKey([c]) == CharColumn(c)
  {
    ReplaceSingle(c, '+', "Plus");
    if c == '+' {
      ReplaceAbsent("Plus", '-', "Minus");
      KeepAlnumOfAlnum("Plus");
    } else {
      ReplaceSingle(c, '-', "Minus");
      if c == '-' {
        KeepAlnumOfAlnum("Minus");
      } else {
        assert [c][1..] == [];
      }
    }
  }

  lemma ReplaceSingle(c: char, x: char, r: string)
    ensures Replace([c], x, r) == if c == x then r else [c]
  {
    assert [c][1..] == [];
  }

  /** The result holds ASCII letters and digits only. */
  lemma NormalizeKeyAlnum(key: string)
    ensures AllAlnum(NormalizeKey(key))
  {
    KeepAlnumAll(Replace(Replace(key, '+', "Plus"), '-', "Minus"));
  }

  /** A key that is already alphanumeric is its own column name. */
  lemma {:induction false} NormalizeKeyOfAlnum(key: string)
    requires AllAlnum(key)
    ensures NormalizeKey(key) == key
  {
    NormalizeKeyPerChar(key);
    AlnumColumn(key);
  }

  lemma {:induction false} AlnumColumn(key: string)
    requires AllAlnum(key)
    ensures ColumnOf(key) == key
  {
    if |key| > 0 {
      AlnumColumn(key[1..]);
      assert key == [key[0]] + key[1..];
    }
  }

  lemma NormalizeKeyIdempotent(key: string)
    ensures NormalizeKey(NormalizeKey(key)) == NormalizeKey(key)
  {
    NormalizeKeyAlnum(key);
    NormalizeKeyOfAlnum(NormalizeKey(key));
  }

  lemma {:induction false} ColumnAppend(a: string, b: string)
    ensures ColumnOf(a + b) == ColumnOf(a) + ColumnOf(b)
  {
    if |a| > 0 {
      ColumnAppend(a[1..], b);
      assert (a + b)[1..] == a[1..] + b;
    } else {
      assert a + b == b;
    }
  }

  /** '+' and '-' are spelled out before the symbols go, so keys such as
      DVD+R and DVD-R stay apart (DVDPlusR, DVDMinusR). */
  lemma PlusMinusSpelled(a: string, b: string)
    requires AllAlnum(a) && AllAlnum(b)
    ensures NormalizeKey(a + "+" + b) == a + "Plus" + b
    ensures NormalizeKey(a + "-" + b) == a + "Minus" + b
    ensures NormalizeKey(a + "+" + b) != NormalizeKey(a + "-" + b)
  {
    NormalizeKeyPerChar(a + "+" + b);
    NormalizeKeyPerChar(a + "-" + b);
    AlnumColumn(a);
    AlnumColumn(b);
    ColumnAppend(a + "+", b);
    ColumnAppend(a, "+");
    ColumnAppend(a + "-", b);
    ColumnAppend(a, "-");
    ColumnOfChar('+');
    ColumnOfChar('-');
    assert (a + "Plus" + b)[|a|] == 'P';
  }

  /** Any other symbol, a space included, is dropped. */
  lemma SymbolDropped(a: string, c: char, b: string)
    requires !IsAsciiAlnum(c) && c != '+' && c != '-'
    ensures NormalizeKey(a + [c] + b) == NormalizeKey(a + b)
  {
    NormalizeKeyPerChar(a + [c] + b);
    NormalizeKeyPerChar(a + b);
    ColumnAppend(a + [c], b);
    ColumnAppend(a, [c]);
    ColumnAppend(a, b);
    ColumnOfChar(c);
  }

  lemma ColumnOfChar(c: char)
    ensures ColumnOf([c]) == CharColumn(c)
  {
    assert [c][1..] == [];
  }

  // ---------------------------------------------------------------- map_json_to_db_row

  /** The record keys that never become a dynamic column. */
  predicate Ignored(key: string)
  {
    key in {"name", "img_url", "pcpartpicker_url", "url", "Manufacturer", "Part #"}
  }

  /** Python's `a or b`. */
  function Or(a: Value, b: Value): Value
  {
    if Truthy(a) then a else b
  }

  /** The three columns every row gets, in the order they are assigned. */
  function MetaFixed(data: seq<(string, Value)>): Row
  {
    Put(Put(Put([], "MetaName", Lookup(data, "name").GetOr(Str("Unknown"))),
            "ImageUrl", Get(data, "img_url")),
        "pcpp_link", Or(Get(data, "pcpartpicker_url"), Get(data, "url")))
  }

  /** The fixed column names are pairwise different. */
  lemma ColumnNamesDistinct()
    ensures "MetaName" != "ImageUrl" && "MetaName" != "pcpp_link"
    ensures "MetaName" != "MetaManufacturer" && "MetaName" != "MetaPartNumber"
    ensures "ImageUrl" != "pcpp_link" && "ImageUrl" != "MetaManufacturer" && "ImageUrl" != "MetaPartNumber"
    ensures "pcpp_link" != "MetaManufacturer" && "pcpp_link" != "MetaPartNumber"
    ensures "MetaManufacturer" != "MetaPartNumber"
  {
    assert "MetaName"[0] == 'M' && "ImageUrl"[0] == 'I' && "pcpp_link"[0] == 'p';
    assert "MetaManufacturer"[0] == 'M' && "MetaPartNumber"[0] == 'M';
    assert |"MetaName"| == 8 && |"MetaManufacturer"| == 16 && |"MetaPartNumber"| == 14;
  }

  /** The fixed columns and MetaManufacturer when the record has that key. */
  function MetaWithMaker(data: seq<(string, Value)>): Row
  {
    if HasKey(data, "Manufacturer") then Put(MetaFixed(data), "MetaManufacturer", Lookup(data, "Manufacturer").value)
    else MetaFixed(data)
  }

  /** The fixed columns, in the order they are assigned. */
  function Meta(data: seq<(string, Value)>): Row
  {
    var partNumber := Get(data, "Part #");
    if Truthy(partNumber) then Put(MetaWithMaker(data), "MetaPartNumber", Str(PyStr(partNumber)))
    else MetaWithMaker(data)
  }

  /** The dynamic-column loop over the first |data| pairs, starting from row. */
  function Dynamic(row: Row, data: seq<(string, Value)>): Row
  {
    if |data| == 0 then row
    else
      var (key, value) := data[|data| - 1];
      var before := Dynamic(row, data[..|data| - 1]);
      if Ignored(key) then before else Put(before, NormalizeKey(key), Str(PyStr(value)))
  }

  function RowFor(data: seq<(string, Value)>): Row
  {
    Dynamic(Meta(data), data)
  }

  /** map_json_to_db_row, with its assignment loop. */
  method MapJsonToDbRow(data: seq<(string, Value)>) returns (row: Row)
    ensures row == RowFor(data)
  {
    row := MetaRow(data);
    var i := 0;
    while i < |data|
      invariant 0 <= i <= |data|
      invariant row == Dynamic(Meta(data), data[..i])
    {
      var (key, value) := data[i];
      assert data[..i + 1][..i] == data[..i];
      if !Ignored(key) {
        row := Put(row, NormalizeKey(key), Str(PyStr(value)));
      }
      i := i + 1;
    }
    assert data[..i] == data;
  }

  /** The assignments of the fixed columns. */
  method MetaRow(data: seq<(string, Value)>) returns (row: Row)
    ensures row == Meta(data)
  {
    row := [];
    row := Put(row, "MetaName", Lookup(data, "name").GetOr(Str("Unknown")));
    row := Put(row, "ImageUrl", Get(data, "img_url"));
    row := Put(row, "pcpp_link", Or(Get(data, "pcpartpicker_url"), Get(data, "url")));
    var manufacturer := Lookup(data, "Manufacturer");
    if manufacturer.Some? {
      row := Put(row, "MetaManufacturer", manufacturer.value);
    }
    var partNumber := Get(data, "Part #");
    if Truthy(partNumber) {
      row := Put(row, "MetaPartNumber", Str(PyStr(partNumber)));
    }
  }

  /** The value of the last non-ignored pair whose key normalizes to col. */
  function LastColumn(data: seq<(string, Value)>, col: string): Option<Value>
  {
    if |data| == 0 then None
    else if !Ignored(data[|data| - 1].0) && NormalizeKey(data[|data| - 1].0) == col
    then Some(Str(PyStr(data[|data| - 1].1)))
    else LastColumn(data[..|data| - 1], col)
  }

  /** Every column of the row: the last dynamic key that normalizes to it
      wins, over earlier ones and over the fixed column of that name; a column
      no key normalizes to keeps its fixed value or stays absent. */
  lemma {:induction false} RowColumns(row: Row, data: seq<(string, Value)>, col: string)
    ensures Lookup(Dynamic(row, data), col) ==
      match LastColumn(data, col)
      case Some(v) => Some(v)
      case None => Lookup(row, col)
  {
    if |data| > 0 {
      RowColumns(row, data[..|data| - 1], col);
    }
  }

  /** The fixed columns of map_json_to_db_row, as far as no dynamic key
      replaces them. */
  lemma MetaColumns(data: seq<(string, Value)>)
    ensures Lookup(Meta(data), "MetaName") == Some(Lookup(data, "name").GetOr(Str("Unknown")))
    ensures Lookup(Meta(data), "ImageUrl") == Some(Get(data, "img_url"))
    ensures Lookup(Meta(data), "pcpp_link") == Some(Or(Get(data, "pcpartpicker_url"), Get(data, "url")))
  {
    FixedColumns(data);
    MakerColumns(data);
  }

  lemma FixedColumns(data: seq<(string, Value)>)
    ensures Lookup(MetaFixed(data), "MetaName") == Some(Lookup(data, "name").GetOr(Str("Unknown")))
    ensures Lookup(MetaFixed(data), "ImageUrl") == Some(Get(data, "img_url"))
    ensures Lookup(MetaFixed(data), "pcpp_link") == Some(Or(Get(data, "pcpartpicker_url"), Get(data, "url")))
    ensures forall c :: HasKey(MetaFixed(data), c) ==> c == "MetaName" || c == "ImageUrl" || c == "pcpp_link"
  {
    ColumnNamesDistinct();
  }

  /** Only MetaPartNumber is added after MetaManufacturer; neither is a fixed column. */
  lemma MakerColumns(data: seq<(string, Value)>)
    ensures forall c :: c != "MetaPartNumber" ==> Lookup(Meta(data), c) == Lookup(MetaWithMaker(data), c)
    ensures forall c :: c != "MetaManufacturer" ==> Lookup(MetaWithMaker(data), c) == Lookup(MetaFixed(data), c)
    ensures !HasKey(MetaFixed(data), "MetaManufacturer") && !HasKey(MetaFixed(data), "MetaPartNumber")
    ensures !HasKey(MetaWithMaker(data), "MetaPartNumber")
  {
    LaterColumns(data);
    ExtrasAbsent(data);
  }

  lemma ExtrasAbsent(data: seq<(string, Value)>)
    ensures !HasKey(MetaFixed(data), "MetaManufacturer") && !HasKey(MetaFixed(data), "MetaPartNumber")
    ensures !HasKey(MetaWithMaker(data), "MetaPartNumber")
  {
    ColumnNamesDistinct();
    LaterColumns(data);
    FixedColumns(data);
  }

  lemma LaterColumns(data: seq<(string, Value)>)
    ensures forall c :: c != "MetaPartNumber" ==> Lookup(Meta(data), c) == Lookup(MetaWithMaker(data), c)
    ensures forall c :: c != "MetaManufacturer" ==> Lookup(MetaWithMaker(data), c) == Lookup(MetaFixed(data), c)
  {
  }

  /** MetaManufacturer is there exactly when the record has a Manufacturer key. */
  lemma MetaManufacturer(data: seq<(string, Value)>)
    ensures HasKey(Meta(data), "MetaManufacturer") <==> HasKey(data, "Manufacturer")
    ensures HasKey(data, "Manufacturer") ==> Lookup(Meta(data), "MetaManufacturer") == Lookup(data, "Manufacturer")
  {
    MakerColumns(data);
  }

  /** MetaPartNumber is there exactly when "Part #" is truthy, and holds its str(). */
  lemma MetaPartNumber(data: seq<(string, Value)>)
    ensures HasKey(Meta(data), "MetaPartNumber") <==> Truthy(Get(data, "Part #"))
    ensures Truthy(Get(data, "Part #")) ==> Lookup(Meta(data), "MetaPartNumber") == Some(Str(PyStr(Get(data, "Part #"))))
  {
    MakerColumns(data);
  }

  /** No other column is fixed. */
  lemma MetaOnly(data: seq<(string, Value)>, c: string)
    requires HasKey(Meta(data), c)
    ensures c == "MetaName" || c == "ImageUrl" || c == "pcpp_link" || c == "MetaManufacturer" || c == "MetaPartNumber"
  {
    LaterColumns(data);
    FixedColumns(data);
    if c != "MetaPartNumber" && c != "MetaManufacturer" {
      assert HasKey(MetaFixed(data), c);
    }
  }

  /** No normalized key contains '_', so pcpp_link, the column the upsert is
      keyed on, is always pcpartpicker_url or else url. */
  lemma LinkColumn(data: seq<(string, Value)>)
    ensures Lookup(RowFor(data), "pcpp_link") == Some(Or(Get(data, "pcpartpicker_url"), Get(data, "url")))
  {
    RowColumns(Meta(data), data, "pcpp_link");
    NoUnderscoreColumn(data);
    MetaColumns(data);
  }

  lemma {:induction false} NoUnderscoreColumn(data: seq<(string, Value)>)
    ensures LastColumn(data, "pcpp_link").None?
  {
    if |data| > 0 {
      NoUnderscoreColumn(data[..|data| - 1]);
      var key := data[|data| - 1].0;
      NormalizeKeyAlnum(key);
      assert !IsAsciiAlnum("pcpp_link"[4]);
    }
  }

  /** A dynamic pair whose key is ignored never makes a column, and one that
      is not sets its column to str(value) unless a later key takes it. */
  lemma DynamicValues(data: seq<(string, Value)>, k: nat)
    requires k < |data|
    requires forall j :: k < j < |data| ==> Ignored(data[j].0) || NormalizeKey(data[j].0) != NormalizeKey(data[k].0)
    ensures !Ignored(data[k].0) ==>
      Lookup(RowFor(data), NormalizeKey(data[k].0)) == Some(Str(PyStr(data[k].1)))
  {
    if !Ignored(data[k].0) {
      var col := NormalizeKey(data[k].0);
      RowColumns(Meta(data), data, col);
      LastColumnAt(data, k, col);
    }
  }

  lemma {:induction false} LastColumnAt(data: seq<(string, Value)>, k: nat, col: string)
    requires k < |data| && !Ignored(data[k].0) && NormalizeKey(data[k].0) == col
    requires forall j :: k < j < |data| ==> Ignored(data[j].0) || NormalizeKey(data[j].0) != col
    ensures LastColumn(data, col) == Some(Str(PyStr(data[k].1)))
  {
    if k < |data| - 1 {
      var init := data[..|data| - 1];
      assert forall j :: k < j < |init| ==> init[j] == data[j];
      LastColumnAt(init, k, col);
    }
  }

  // ---------------------------------------------------------------- folders

  /** CATEGORY_TO_TABLE of this script: one table per folder name. */
  function FolderTable(folder: string): (r: Option<string>)
    ensures r.Some? ==> r.value != "" && ' ' !in folder
  {
    match folder
    case "Case" => Some("CaseSpecifications")
    case "CaseFan" => Some("CaseFanSpecifications")
    case "CPU" => Some("CPUSpecifications")
    case "CPUCooler" => Some("CpuCoolerSpecifications")
    case "ExternalStorage" => Some("ExternalStorageSpecifications")
    case "FanController" => Some("FanControllerSpecifications")
    case "Headphones" => Some("HeadphoneSpecifications")
    case "Keyboard" => Some("KeyboardSpecifications")
    case "Memory" => Some("RamSpecifications")
    case "Monitor" => Some("MonitorSpecifications")
    case "Motherboard" => Some("MotherboardSpecifications")
    case "Mouse" => Some("MouseSpecifications")
    case "OperatingSystem" => Some("OperatingSystemSpecifications")
    case "OpticalDrive" => Some("OpticalDriveSpecifications")
    case "PowerSupply" => Some("PowerSupplySpecifications")
    case "SoundCard" => Some("SoundCardSpecifications")
    case "Speakers" => Some("SpeakersSpecifications")
    case "Storage" => Some("InternalStorageSpecifications")
    case "ThermalCompound" => Some("ThermalPasteSpecifications")
    case "UPS" => Some("UpsSpecifications")
    case "VideoCard" => Some("GpuSpecifications")
    case "Webcam" => Some("WebcamSpecifications")
    case "WiredNetworkAdapter" => Some("WiredNetworkAdapterSpecifications")
    case "WirelessNetworkAdapter" => Some("WirelessNetworkAdapterSpecifications")
    case _ => None
  }

  /** The loader writes every category to the table the matcher searches for
      the same store category. */
  lemma FolderTableAgrees(folder: string)
    requires FolderTable(folder).Some?
    ensures CategoryToTable(folder) == Some(Table(FolderTable(folder).value))
  {
  }

  /** The table for a folder: its name without spaces first, then the name
      as it is; None skips the folder. */
  function ResolveFolder(folder: string): Option<string>
  {
    var first := FolderTable(Replace(folder, ' ', ""));
    if first.Some? && first.value != "" then first
    else
      var second := FolderTable(folder);
      if second.Some? && second.value != "" then second else None
  }

  /** No key of the map holds a space, so the fallback to the raw name
      never finds anything the first lookup missed. */
  lemma FallbackNeverHelps(folder: string)
    ensures ResolveFolder(folder) == FolderTable(Replace(folder, ' ', ""))
  {
    if FolderTable(folder).Some? {
      ReplaceAbsent(folder, ' ', "");
    }
  }

  // ---------------------------------------------------------------- the batch of a folder

  /** A .json file of a folder; None when json.load fails. */
  datatype RecordFile = RecordFile(name: string, content: Option<Value>)

  /** Whether the file's record has a truthy pcpartpicker_url or url. A record
      that is not an object makes `.get` raise, which the loop catches. */
  predicate HasLink(f: RecordFile)
  {
    f.content.Some? && f.content.value.Obj?
    && (Truthy(Get(f.content.value.fields, "pcpartpicker_url")) || Truthy(Get(f.content.value.fields, "url")))
  }

  /** batch_rows for the files of one folder. */
  function BatchRows(files: seq<RecordFile>): seq<Row>
  {
    if |files| == 0 then []
    else
      var f := files[|files| - 1];
      BatchRows(files[..|files| - 1])
      + (if EndsWith(f.name, ".json") && HasLink(f) then [RowFor(f.content.value.fields)] else [])
  }

  method CollectBatch(files: seq<RecordFile>) returns (rows: seq<Row>)
    ensures rows == BatchRows(files)
  {
    rows := [];
    var i := 0;
    while i < |files|
      invariant 0 <= i <= |files|
      invariant rows == BatchRows(files[..i])
    {
      var f := files[i];
      assert files[..i + 1][..i] == files[..i];
      if EndsWith(f.name, ".json") && HasLink(f) {
        var row := MapJsonToDbRow(f.content.value.fields);
        rows := rows + [row];
      }
      i := i + 1;
    }
    assert files[..i] == files;
  }

  /** Every row of a batch has a truthy pcpp_link, and the batch has at most
      one row per file. */
  lemma {:induction false} BatchLinks(files: seq<RecordFile>)
    ensures |BatchRows(files)| <= |files|
    ensures forall k :: 0 <= k < |BatchRows(files)| ==>
      Lookup(BatchRows(files)[k], "pcpp_link").Some? && Truthy(Lookup(BatchRows(files)[k], "pcpp_link").value)
  {
    if |files| > 0 {
      var init := files[..|files| - 1];
      var f := files[|files| - 1];
      BatchLinks(init);
      if EndsWith(f.name, ".json") && HasLink(f) {
        LinkColumn(f.content.value.fields);
      }
    }
  }

  // ---------------------------------------------------------------- chunks of 100

  function Concat(chunks: seq<seq<Row>>): seq<Row>
  {
    if |chunks| == 0 then [] else Concat(chunks[..|chunks| - 1]) + chunks[|chunks| - 1]
  }

  /** The rows of the chunks whose upsert went through. */
  function Uploaded(chunks: seq<seq<Row>>, ok: seq<Row> -> bool): nat
  {
    if |chunks| == 0 then 0
    else Uploaded(chunks[..|chunks| - 1], ok) + (if ok(chunks[|chunks| - 1]) then |chunks[|chunks| - 1]| else 0)
  }

  /** The upsert loop: rows[i:i + 100] for i in range(0, len(rows), 100);
      ok says whether a chunk's upsert raised. total is total_processed. */
  method UploadChunks(rows: seq<Row>, ok: seq<Row> -> bool) returns (chunks: seq<seq<Row>>, total: nat)
    ensures Concat(chunks) == rows
    ensures |chunks| == (|rows| + 99) / 100
    ensures forall k :: 0 <= k < |chunks| ==> 0 < |chunks[k]| <= 100
    ensures forall k :: 0 <= k < |chunks| - 1 ==> |chunks[k]| == 100
    ensures total == Uploaded(chunks, ok) && total <= |rows|
  {
    chunks := [];
    total := 0;
    var i := 0;
    while i < |rows|
      invariant 0 <= i <= |rows|
      invariant Concat(chunks) == rows[..i]
      invariant i < |rows| ==> i % 100 == 0
      invariant i % 100 == 0 ==> |chunks| == i / 100
      invariant i % 100 != 0 ==> |chunks| == i / 100 + 1
      invariant forall k :: 0 <= k < |chunks| ==> 0 < |chunks[k]| <= 100
      invariant forall k :: 0 <= k < |chunks| - (if i % 100 == 0 then 0 else 1) ==> |chunks[k]| == 100
      invariant total == Uploaded(chunks, ok) && total <= i
    {
      var end := if i + 100 <= |rows| then i + 100 else |rows|;
      var chunk := rows[i..end];
      assert (chunks + [chunk])[..|chunks|] == chunks;
      assert rows[..end] == rows[..i] + chunk;
      if ok(chunk) {
        total := total + |chunk|;
      }
      chunks := chunks + [chunk];
      i := end;
    }
    assert rows[..i] == rows;
  }

  /** When every upsert goes through, every row is counted. */
  lemma {:induction false} AllUploaded(chunks: seq<seq<Row>>, ok: seq<Row> -> bool)
    requires forall k :: 0 <= k < |chunks| ==> ok(chunks[k])
    ensures Uploaded(chunks, ok) == |Concat(chunks)|
  {
    if |chunks| > 0 {
      AllUploaded(chunks[..|chunks| - 1], ok);
    }
  }

  // ---------------------------------------------------------------- main

  /** A directory entry of the data folder. */
  datatype Folder = Folder(name: string, isDir: bool, files: seq<RecordFile>)

  /** What main sends for one folder: its table, its batch and the chunks. */
  datatype Upload = Upload(table: string, rows: seq<Row>, chunks: seq<seq<Row>>, total: nat)

  /** The folders main uploads, with their tables and batches, in listing order. */
  function Plan(folders: seq<Folder>): seq<(string, seq<Row>)>
  {
    if |folders| == 0 then []
    else
      var f := folders[|folders| - 1];
      var t := ResolveFolder(f.name);
      Plan(folders[..|folders| - 1])
      + (if t.Some? && f.isDir && BatchRows(f.files) != [] then [(t.value, BatchRows(f.files))] else [])
  }

  /** main: unmapped folders and plain files are skipped, an empty batch
      sends nothing, every other batch is sent in chunks. */
  method UploadFolders(folders: seq<Folder>, ok: (string, seq<Row>) -> bool) returns (uploads: seq<Upload>)
    ensures |uploads| == |Plan(folders)|
    ensures forall k :: 0 <= k < |uploads| ==>
      (uploads[k].table, uploads[k].rows) == Plan(folders)[k] && Concat(uploads[k].chunks) == uploads[k].rows
      && uploads[k].total <= |uploads[k].rows|
      && forall j :: 0 <= j < |uploads[k].chunks| ==> 0 < |uploads[k].chunks[j]| <= 100
  {
    uploads := [];
    var i := 0;
    while i < |folders|
      invariant 0 <= i <= |folders|
      invariant |uploads| == |Plan(folders[..i])|
      invariant forall k :: 0 <= k < |uploads| ==>
        (uploads[k].table, uploads[k].rows) == Plan(folders[..i])[k] && Concat(uploads[k].chunks) == uploads[k].rows
        && uploads[k].total <= |uploads[k].rows|
        && forall j :: 0 <= j < |uploads[k].chunks| ==> 0 < |uploads[k].chunks[j]| <= 100
    {
      var f := folders[i];
      assert folders[..i + 1][..i] == folders[..i];
      var t := ResolveFolder(f.name);
      if t.Some? && f.isDir {
        var rows := CollectBatch(f.files);
        if rows != [] {
          var table := t.value;
          var chunks, total := UploadChunks(rows, (c: seq<Row>) => ok(table, c));
          uploads := uploads + [Upload(table, rows, chunks, total)];
        }
      }
      i := i + 1;
    }
    assert folders[..i] == folders;
  }
}
