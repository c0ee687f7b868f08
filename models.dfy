/**
 * The frames the client returns. A time-series frame turns its records into
 * a wide table (one row per survey date) and into the dictionary it is
 * cached as; a metadata frame offers a prefix, the list of its series codes,
 * a simple search and a predicate filter.
 */
module Models {
  import opened Text
  import opened Values
  import opened Errors
  import opened Types
  import Normalize
  import Sorting

  datatype TimeSeriesFrame = TimeSeriesFrame(records: seq<TimeSeriesRecord>, meta: ResponseMeta) {

    /**
     * `to_wide`: fills the table of rows keyed by survey date, then lists
     * the rows by sorted survey date.
     */
    method ToWide() returns (rows: seq<Dict>)
      ensures rows == WideRows(records)
    {
      var table, order := FillTable(records);
      var keys := Sorting.Sort(order, StrLe);
      assert keys == WideKeys(records);
      WideKeysInTable(records);
      rows := seq(|keys|, i requires 0 <= i < |keys| => table[keys[i]]);
    }
  }

  /**
   * The loop of `to_wide`: writes every record into the row of its survey
   * date, the `defaultdict` creating a row the first time a date is seen;
   * `order` keeps the dates in the order they were first seen.
   */
  method FillTable(records: seq<TimeSeriesRecord>) returns (table: map<string, Dict>, order: seq<string>)
    ensures table == WideTable(records) && order == DateOrder(records)
  {
    table := map[];
    order := [];
    for i := 0 to |records|
      invariant table == WideTable(records[..i])
      invariant order == DateOrder(records[..i])
    {
      var rec := records[i];
      WideStep(records, i);
      var row: Dict := [];
      if rec.surveyDate in table {
        row := table[rec.surveyDate];
      } else {
        order := order + [rec.surveyDate];
      }
      row := Set(row, SURVEY_DATE_COLUMN, VStr(rec.surveyDate));
      row := Set(row, rec.seriesCode, Cell(rec.value));
      table := table[rec.surveyDate := row];
    }
    assert records[..|records|] == records;
  }

  // ---------------------------------------------------------------------
  // The wide table

  /** The column every wide row stores its own survey date under. */
  const SURVEY_DATE_COLUMN: string := "survey_date"

  /** `_convert_value`: a missing value becomes null (the numeric-mode formatting is not modelled). */
  function Cell(value: Option<Value>): Value {
    match value
    case None => VNull
    case Some(v) => v
  }

  /** The survey dates that occur among the records. */
  ghost function DateSet(records: seq<TimeSeriesRecord>): set<string> {
    set k | 0 <= k < |records| :: records[k].surveyDate
  }

  lemma DateSetLast(records: seq<TimeSeriesRecord>)
    requires |records| > 0
    ensures DateSet(records) == DateSet(records[..|records| - 1]) + {records[|records| - 1].surveyDate}
  {
    var prev := records[..|records| - 1];
    forall d | d in DateSet(records) ensures d in DateSet(prev) + {records[|records| - 1].surveyDate} {
      var k :| 0 <= k < |records| && records[k].surveyDate == d;
      if k < |records| - 1 {
        assert prev[k] == records[k];
      }
    }
    forall d | d in DateSet(prev) ensures d in DateSet(records) {
      var k :| 0 <= k < |prev| && prev[k].surveyDate == d;
      assert records[k] == prev[k];
    }
    assert records[|records| - 1].surveyDate in DateSet(records);
  }

  /** The row of a survey date after `rec` has been written into it. */
  function WriteRow(row: Dict, rec: TimeSeriesRecord): Dict {
    Set(Set(row, SURVEY_DATE_COLUMN, VStr(rec.surveyDate)), rec.seriesCode, Cell(rec.value))
  }

  /** The table after the records have been written into it in order, keyed by survey date. */
  function WideTable(records: seq<TimeSeriesRecord>): (t: map<string, Dict>)
    ensures t.Keys == DateSet(records)
  {
    if |records| == 0 then map[]
    else
      var rec := records[|records| - 1];
      var t := WideTable(records[..|records| - 1]);
      DateSetLast(records);
      t[rec.surveyDate := WriteRow(if rec.surveyDate in t then t[rec.surveyDate] else [], rec)]
  }

  /** The table and the date order after one more record. */
  lemma WideStep(records: seq<TimeSeriesRecord>, i: int)
    requires 0 <= i < |records|
    ensures var rec := records[i];
      var t := WideTable(records[..i]);
      WideTable(records[..i + 1])
        == t[rec.surveyDate := WriteRow(if rec.surveyDate in t then t[rec.surveyDate] else [], rec)]
      && DateOrder(records[..i + 1])
        == if rec.surveyDate in t then DateOrder(records[..i]) else DateOrder(records[..i]) + [rec.surveyDate]
  {
    var s := records[..i + 1];
    assert s[..i] == records[..i] && s[i] == records[i];
    assert records[i].surveyDate in DateOrder(records[..i]) <==> records[i].surveyDate in WideTable(records[..i]);
  }

  /** The survey dates in the order the table first sees them. */
  function DateOrder(records: seq<TimeSeriesRecord>): (ds: seq<string>)
    ensures Sorting.Distinct(ds)
    ensures forall d :: d in ds <==> d in DateSet(records)
  {
    if |records| == 0 then []
    else
      var d := records[|records| - 1].surveyDate;
      var ds := DateOrder(records[..|records| - 1]);
      DateSetLast(records);
      if d in ds then ds else ds + [d]
  }

  /** `sorted(table)`. */
  function WideKeys(records: seq<TimeSeriesRecord>): seq<string> {
    Sorting.Sort(DateOrder(records), StrLe)
  }

  lemma WideKeysInTable(records: seq<TimeSeriesRecord>)
    ensures forall i :: 0 <= i < |WideKeys(records)| ==> WideKeys(records)[i] in WideTable(records)
  {
    var keys := WideKeys(records);
    forall i | 0 <= i < |keys| ensures keys[i] in WideTable(records) {
      assert keys[i] in multiset(keys);
      assert keys[i] in DateOrder(records);
    }
  }

  /** The rows `to_wide` returns. */
  function WideRows(records: seq<TimeSeriesRecord>): (rows: seq<Dict>)
    ensures |rows| == |WideKeys(records)|
  {
    var table := WideTable(records);
    var keys := WideKeys(records);
    WideKeysInTable(records);
    seq(|keys|, i requires 0 <= i < |keys| => table[keys[i]])
  }

  /** The wide table has one row per distinct survey date, in strictly increasing date order. */
  lemma WideRowsOnePerDate(records: seq<TimeSeriesRecord>)
    ensures var keys := WideKeys(records);
      |WideRows(records)| == |keys|
      && (forall d :: d in keys <==> d in DateSet(records))
      && (forall i, j :: 0 <= i < j < |keys| ==> StrLt(keys[i], keys[j]))
  {
    var order := DateOrder(records);
    var keys := WideKeys(records);
    assert Sorting.TotalPreorderOn(order, StrLe) by {
      forall a, b | a in order && b in order ensures StrLe(a, b) || StrLe(b, a) {
        StrLeTotal(a, b);
      }
      forall a, b, c | a in order && b in order && c in order && StrLe(a, b) && StrLe(b, c)
        ensures StrLe(a, c)
      {
        StrLeTransitive(a, b, c);
      }
    }
    Sorting.SortSorted(order, StrLe);
    Sorting.SortKeepsDistinct(order, StrLe);
    forall d ensures d in keys <==> d in order {
      assert d in keys <==> d in multiset(keys);
    }
  }

  /** Whether `rec` writes the cell of survey date `d` and column `c`. */
  predicate Writes(rec: TimeSeriesRecord, d: string, c: string) {
    rec.surveyDate == d && rec.seriesCode == c
  }

  /** The position of the last record that writes cell (`d`, `c`), if any. */
  function LastWrite(records: seq<TimeSeriesRecord>, d: string, c: string): (j: Option<nat>)
    ensures j.Some? ==> j.value < |records| && Writes(records[j.value], d, c)
    ensures j.Some? ==> forall k :: j.value < k < |records| ==> !Writes(records[k], d, c)
    ensures j.None? ==> forall k :: 0 <= k < |records| ==> !Writes(records[k], d, c)
  {
    if |records| == 0 then None
    else if Writes(records[|records| - 1], d, c) then Some(|records| - 1)
    else
      var j := LastWrite(records[..|records| - 1], d, c);
      assert forall k :: 0 <= k < |records| - 1 ==> records[..|records| - 1][k] == records[k];
      j
  }

  lemma LastWriteHasDate(records: seq<TimeSeriesRecord>, d: string, c: string)
    ensures LastWrite(records, d, c).Some? ==> d in DateSet(records)
  {
    if LastWrite(records, d, c).Some? {
      var j := LastWrite(records, d, c).value;
      assert records[j].surveyDate in DateSet(records);
    }
  }

  lemma {:induction false} WideTableRowsDistinct(records: seq<TimeSeriesRecord>)
    ensures forall d :: d in WideTable(records) ==> DistinctKeys(WideTable(records)[d])
    decreases |records|
  {
    if |records| > 0 {
      var rec := records[|records| - 1];
      var t := WideTable(records[..|records| - 1]);
      WideTableRowsDistinct(records[..|records| - 1]);
      var row := if rec.surveyDate in t then t[rec.surveyDate] else [];
      SetGet(row, SURVEY_DATE_COLUMN, VStr(rec.surveyDate), rec.seriesCode);
      SetGet(Set(row, SURVEY_DATE_COLUMN, VStr(rec.surveyDate)), rec.seriesCode, Cell(rec.value), SURVEY_DATE_COLUMN);
    }
  }

  /** In the table, the cell (`d`, `c`) holds the value of the last record that wrote it, and is absent when none did. */
  lemma {:induction false} WideTableCell(records: seq<TimeSeriesRecord>, d: string, c: string)
    requires d in DateSet(records) && c != SURVEY_DATE_COLUMN
    ensures Get(WideTable(records)[d], c) == match LastWrite(records, d, c)
      case Some(j) => Some(Cell(records[j].value))
      case None => None
    decreases |records|
  {
    var prev := records[..|records| - 1];
    var rec := records[|records| - 1];
    var t := WideTable(prev);
    DateSetLast(records);
    if rec.surveyDate != d {
      assert WideTable(records)[d] == t[d];
      assert LastWrite(records, d, c) == LastWrite(prev, d, c);
      WideTableCell(prev, d, c);
    } else {
      var row := if d in t then t[d] else [];
      assert WideTable(records)[d] == WriteRow(row, rec);
      WideTableRowsDistinct(prev);
      assert DistinctKeys(row);
      SetGet(row, SURVEY_DATE_COLUMN, VStr(d), c);
      SetGet(Set(row, SURVEY_DATE_COLUMN, VStr(d)), rec.seriesCode, Cell(rec.value), c);
      if rec.seriesCode != c {
        assert LastWrite(records, d, c) == LastWrite(prev, d, c);
        if d in t {
          WideTableCell(prev, d, c);
        } else {
          LastWriteHasDate(prev, d, c);
        }
      }
    }
  }

  /** When no record is filed under the code "survey_date", every row's date cell holds its own survey date. */
  lemma {:induction false} WideTableDateCell(records: seq<TimeSeriesRecord>, d: string)
    requires d in DateSet(records)
    requires forall k :: 0 <= k < |records| ==> records[k].seriesCode != SURVEY_DATE_COLUMN
    ensures Get(WideTable(records)[d], SURVEY_DATE_COLUMN) == Some(VStr(d))
    decreases |records|
  {
    var prev := records[..|records| - 1];
    var rec := records[|records| - 1];
    var t := WideTable(prev);
    DateSetLast(records);
    if rec.surveyDate != d {
      assert forall k :: 0 <= k < |prev| ==> prev[k] == records[k];
      WideTableDateCell(prev, d);
    } else {
      var row := if d in t then t[d] else [];
      WideTableRowsDistinct(prev);
      assert DistinctKeys(row);
      SetGet(row, SURVEY_DATE_COLUMN, VStr(d), rec.seriesCode);
      SetGet(Set(row, SURVEY_DATE_COLUMN, VStr(d)), rec.seriesCode, Cell(rec.value), SURVEY_DATE_COLUMN);
    }
  }

  /**
   * Row `i` of the wide table belongs to the `i`-th smallest survey date; its
   * column for a series code holds the value of the last record for that
   * date and code (absent when there is none), and its "survey_date" column
   * holds the date unless some record is filed under that very code.
   */
  lemma WideRowCells(records: seq<TimeSeriesRecord>, i: int, c: string)
    requires 0 <= i < |WideRows(records)|
    ensures var d := WideKeys(records)[i];
      d in DateSet(records)
      && (c != SURVEY_DATE_COLUMN ==> Get(WideRows(records)[i], c) == match LastWrite(records, d, c)
            case Some(j) => Some(Cell(records[j].value))
            case None => None)
      && ((forall k :: 0 <= k < |records| ==> records[k].seriesCode != SURVEY_DATE_COLUMN)
            ==> Get(WideRows(records)[i], SURVEY_DATE_COLUMN) == Some(VStr(d)))
  {
    var d := WideKeys(records)[i];
    WideKeysInTable(records);
    assert WideRows(records)[i] == WideTable(records)[d];
    if c != SURVEY_DATE_COLUMN {
      WideTableCell(records, d, c);
    }
    if forall k :: 0 <= k < |records| ==> records[k].seriesCode != SURVEY_DATE_COLUMN {
      WideTableDateCell(records, d);
    }
  }

  // ---------------------------------------------------------------------
  // Cache payload

  function TextOrNull(s: Option<string>): Value {
    match s
    case None => VNull
    case Some(t) => VStr(t)
  }

  function IntOrNull(n: Option<int>): Value {
    match n
    case None => VNull
    case Some(k) => VInt(k)
  }

  /** The keys `_record_to_dict` writes, in order. */
  const RECORD_FIELDS: seq<string> := [
    "series_code", "series_name", "unit", "frequency", "frequency_code", "week_anchor", "category",
    "last_update", "survey_date", "value", "original_code_index", "source_page_index",
    "source_row_index", "extras"]

  /** `_record_to_dict(record, mode="string")`: the value is stored as its text. */
  function RecordToDict(rec: TimeSeriesRecord): (d: Dict)
    ensures Keys(d) == RECORD_FIELDS
  {
    [("series_code", VStr(rec.seriesCode)),
     ("series_name", TextOrNull(rec.seriesName)),
     ("unit", TextOrNull(rec.unit)),
     ("frequency", TextOrNull(rec.frequency)),
     ("frequency_code", TextOrNull(rec.frequencyCode)),
     ("week_anchor", TextOrNull(rec.weekAnchor)),
     ("category", TextOrNull(rec.category)),
     ("last_update", TextOrNull(rec.lastUpdate)),
     ("survey_date", VStr(rec.surveyDate)),
     ("value", match rec.value case None => VNull case Some(v) => VStr(Render(v))),
     ("original_code_index", IntOrNull(rec.originalCodeIndex)),
     ("source_page_index", VInt(rec.sourcePageIndex)),
     ("source_row_index", VInt(rec.sourceRowIndex)),
     ("extras", VObj(rec.extras))]
  }

  /**
   * What `to_cache_payload` stores: the dictionary holding the "records"
   * list, and the response metadata kept beside it.
   */
  datatype CachePayload = CachePayload(body: Dict, meta: ResponseMeta)

  function RecordItems(records: seq<TimeSeriesRecord>): (items: seq<Value>)
    ensures |items| == |records|
  {
    seq(|records|, i requires 0 <= i < |records| => VObj(RecordToDict(records[i])))
  }

  /** `TimeSeriesFrame.to_cache_payload`. */
  function ToCachePayload(frame: TimeSeriesFrame): (p: CachePayload)
    ensures p.meta == frame.meta
    ensures Get(p.body, "records") == Some(VList(RecordItems(frame.records)))
  {
    CachePayload([("records", VList(RecordItems(frame.records)))], frame.meta)
  }

  /** `d.get(k, default)`. */
  function GetOr(d: Dict, k: string, default: Value): (v: Value)
    ensures !HasKey(d, k) ==> v == default
  {
    match Get(d, k)
    case Some(v) => v
    case None => default
  }

  /** `item.get(k)` for a text field; other kinds of value are kept as their text. */
  function TextField(d: Dict, k: string): (r: Option<string>)
    ensures r.None? <==> Get(d, k).None? || Get(d, k).value.VNull?
    ensures Get(d, k).Some? && Get(d, k).value.VStr? ==> r == Some(Get(d, k).value.s)
  {
    match Get(d, k)
    case None => None
    case Some(v) => Normalize.OptText(v)
  }

  /** `int(item.get(k, 0))`. */
  function IntField(d: Dict, k: string): (r: Result<int>)
    ensures !HasKey(d, k) ==> r == Ok(0)
    ensures Get(d, k).Some? && Get(d, k).value.VInt? ==> r == Ok(Get(d, k).value.i)
    ensures r.Err? <==> AsInt(GetOr(d, k, VInt(0))).None?
  {
    var v := GetOr(d, k, VInt(0));
    match AsInt(v)
    case Some(n) => Ok(n)
    case None =>
      if v.VStr? then Err(ValueError("invalid literal for int() with base 10"))
      else Err(TypeError("int() argument must be a string or a real number"))
  }

  /** An item `dict()` accepts from a list: a two-element list with a text key, or a two-character string. */
  predicate IsPair(v: Value) {
    (v.VList? && |v.items| == 2 && v.items[0].VStr?) || (v.VStr? && |v.s| == 2)
  }

  function PairOf(v: Value): (string, Value)
    requires IsPair(v)
  {
    if v.VList? then (v.items[0].s, v.items[1]) else ([v.s[0]], VStr([v.s[1]]))
  }

  /** `dict(pairs)`: a later pair overwrites an earlier one with the same key in place. */
  function PairsToDict(items: seq<Value>): (r: Option<Dict>)
    ensures r.Some? <==> forall i :: 0 <= i < |items| ==> IsPair(items[i])
  {
    if |items| == 0 then Some([])
    else
      var last := items[|items| - 1];
      match PairsToDict(items[..|items| - 1])
      case None => None
      case Some(d) => if IsPair(last) then Some(Set(d, PairOf(last).0, PairOf(last).1)) else None
  }

  /** Every pair's key is in the dictionary built from the pairs. */
  lemma {:induction false} PairsToDictHasKeys(items: seq<Value>)
    requires PairsToDict(items).Some?
    ensures forall i :: 0 <= i < |items| ==> HasKey(PairsToDict(items).value, PairOf(items[i]).0)
    decreases |items|
  {
    if |items| > 0 {
      var prefix := items[..|items| - 1];
      var last := items[|items| - 1];
      var d := PairsToDict(prefix).value;
      PairsToDictHasKeys(prefix);
      PairsStep(prefix, last, d, items);
      var r := Set(d, PairOf(last).0, PairOf(last).1);
      forall i | 0 <= i < |items| ensures HasKey(r, PairOf(items[i]).0) {
        if i < |prefix| {
          assert items[i] == prefix[i] && HasKey(d, PairOf(prefix[i]).0);
        }
      }
    }
  }

  /** Every key of the dictionary built from pairs is some pair's key. */
  lemma {:induction false} PairsToDictOnlyKeys(items: seq<Value>)
    requires PairsToDict(items).Some?
    ensures var r := PairsToDict(items).value;
      forall i :: 0 <= i < |r| ==> exists j :: 0 <= j < |items| && PairOf(items[j]).0 == r[i].0
    decreases |items|
  {
    if |items| > 0 {
      var prefix := items[..|items| - 1];
      var last := items[|items| - 1];
      PairsToDictOnlyKeys(prefix);
      PairsStep(prefix, last, PairsToDict(prefix).value, items);
    }
  }

  lemma PairsStep(prefix: seq<Value>, last: Value, d: Dict, items: seq<Value>)
    requires items == prefix + [last] && PairsToDict(prefix) == Some(d) && IsPair(last)
    ensures PairsToDict(items) == Some(Set(d, PairOf(last).0, PairOf(last).1))
    ensures HasKey(Set(d, PairOf(last).0, PairOf(last).1), PairOf(last).0)
    ensures forall k :: HasKey(d, k) ==> HasKey(Set(d, PairOf(last).0, PairOf(last).1), k)
    ensures forall i :: 0 <= i < |Set(d, PairOf(last).0, PairOf(last).1)| ==>
      Set(d, PairOf(last).0, PairOf(last).1)[i].0 == PairOf(last).0 || HasKey(d, Set(d, PairOf(last).0, PairOf(last).1)[i].0)
    ensures forall i :: 0 <= i < |prefix| ==> items[i] == prefix[i]
  {
    assert items[..|items| - 1] == prefix;
    SetKeys(d, PairOf(last).0, PairOf(last).1);
  }

  lemma SetKeys(d: Dict, k: string, v: Value)
    ensures HasKey(Set(d, k, v), k)
    ensures forall k' :: HasKey(d, k') ==> HasKey(Set(d, k, v), k')
    ensures forall i :: 0 <= i < |Set(d, k, v)| ==> Set(d, k, v)[i].0 == k || HasKey(d, Set(d, k, v)[i].0)
  {
    var r := Set(d, k, v);
    if HasKey(d, k) {
      var i :| 0 <= i < |d| && d[i].0 == k;
      assert r[i].0 == k;
    } else {
      assert r[|d|].0 == k;
    }
    forall k' | HasKey(d, k') ensures HasKey(r, k') {
      var i :| 0 <= i < |d| && d[i].0 == k';
      assert r[i].0 == k';
    }
    forall i | 0 <= i < |r| ensures r[i].0 == k || HasKey(d, r[i].0) {
      if i < |d| {
        assert d[i].0 == r[i].0;
      }
    }
  }

  /**
   * `dict(item.get("extras") or {})`: a falsy value gives the empty dictionary, a dictionary is
   * kept, a list of pairs is folded into one; anything else is a TypeError or ValueError.
   */
  function ExtrasField(d: Dict): (r: Result<Dict>)
    ensures var v := GetOr(d, "extras", VNull);
      r.Ok? <==> !Truthy(v) || v.VObj? || (v.VList? && PairsToDict(v.items).Some?)
    ensures var v := GetOr(d, "extras", VNull);
      && (!Truthy(v) ==> r == Ok([]))
      && (v.VObj? ==> r == Ok(v.entries))
      && (Truthy(v) && v.VList? && r.Ok? ==> r == Ok(PairsToDict(v.items).value))
  {
    var v := GetOr(d, "extras", VNull);
    if !Truthy(v) then Ok([])
    else match v
      case VObj(entries) => Ok(entries)
      case VList(items) =>
        (match PairsToDict(items)
         case Some(pairs) => Ok(pairs)
         case None => Err(ValueError("dictionary update sequence element has the wrong length")))
      case VStr(_) => Err(ValueError("dictionary update sequence element has the wrong length"))
      case _ => Err(TypeError("cannot convert extras to dict"))
  }

  /** `Decimal(value_raw) if value_raw not in (None, "") else None`, the raw cell standing in for the decimal. */
  function ValueField(d: Dict): (r: Option<Value>)
    ensures r.None? <==> GetOr(d, "value", VNull) in {VNull, VStr("")}
  {
    var raw := GetOr(d, "value", VNull);
    if raw == VNull || raw == VStr("") then None else Some(raw)
  }

  /** `item.get("original_code_index")`, kept when it is an integer. */
  function IndexField(d: Dict): (r: Option<int>)
    ensures r.Some? <==> Get(d, "original_code_index").Some? && Get(d, "original_code_index").value.VInt?
    ensures r.Some? ==> Get(d, "original_code_index") == Some(VInt(r.value))
  {
    match Get(d, "original_code_index")
    case Some(VInt(n)) => Some(n)
    case _ => None
  }

  /** One item of the "records" list, read back the way `from_cache_payload` builds a record. */
  function ItemToRecord(item: Value): (r: Result<TimeSeriesRecord>)
    ensures r.Ok? ==> item.VObj?
  {
    match item
    case VObj(d) =>
      var page :- IntField(d, "source_page_index");
      var row :- IntField(d, "source_row_index");
      var extras :- ExtrasField(d);
      Ok(TimeSeriesRecord(
        seriesCode := Render(GetOr(d, "series_code", VStr(""))),
        seriesName := TextField(d, "series_name"),
        unit := TextField(d, "unit"),
        frequency := TextField(d, "frequency"),
        frequencyCode := TextField(d, "frequency_code"),
        weekAnchor := TextField(d, "week_anchor"),
        category := TextField(d, "category"),
        lastUpdate := TextField(d, "last_update"),
        surveyDate := Render(GetOr(d, "survey_date", VStr(""))),
        value := ValueField(d),
        originalCodeIndex := IndexField(d),
        sourcePageIndex := page,
        sourceRowIndex := row,
        extras := extras))
    case _ => Err(AttributeError("object has no attribute 'get'"))
  }

  /** How one item is read into a record. */
  type ItemFn = Value -> Result<TimeSeriesRecord>

  /** The records of a list of items, or the error of the first item that cannot be read. */
  function DecodeWith(items: seq<Value>, f: ItemFn): (r: Result<seq<TimeSeriesRecord>>)
    ensures r.Ok? ==> |r.value| == |items|
  {
    if |items| == 0 then Ok([])
    else
      var prev :- DecodeWith(items[..|items| - 1], f);
      var rec :- f(items[|items| - 1]);
      Ok(prev + [rec])
  }

  /** `TimeSeriesFrame.from_cache_payload`, as a value. */
  function FromPayloadSpec(p: CachePayload): Result<TimeSeriesFrame> {
    match AsList(GetOr(p.body, "records", VList([])))
    case None => Err(TypeError("records is not iterable"))
    case Some(items) =>
      var records :- DecodeWith(items, ItemToRecord);
      Ok(TimeSeriesFrame(records, p.meta))
  }

  /** Once an item cannot be read, the later items do not matter. */
  lemma {:induction false} DecodeErrorSticky(items: seq<Value>, i: nat, f: ItemFn)
    requires i < |items| && DecodeWith(items[..i + 1], f).Err?
    ensures DecodeWith(items, f) == DecodeWith(items[..i + 1], f)
    decreases |items|
  {
    if i + 1 < |items| {
      var prev := items[..|items| - 1];
      assert prev[..i + 1] == items[..i + 1];
      DecodeErrorSticky(prev, i, f);
    } else {
      assert items[..i + 1] == items;
    }
  }

  /** When every item reads as the matching record, the list reads as the list of records. */
  lemma {:induction false} DecodeAllOk(items: seq<Value>, f: ItemFn, records: seq<TimeSeriesRecord>)
    requires |records| == |items|
    requires forall i :: 0 <= i < |items| ==> f(items[i]) == Ok(records[i])
    ensures DecodeWith(items, f) == Ok(records)
    decreases |items|
  {
    if |items| > 0 {
      var n := |items| - 1;
      DecodeAllOk(items[..n], f, records[..n]);
      assert records == records[..n] + [records[n]];
    }
  }

  lemma DecodeStep(items: seq<Value>, i: nat, f: ItemFn, records: seq<TimeSeriesRecord>)
    requires i < |items| && DecodeWith(items[..i], f) == Ok(records)
    ensures DecodeWith(items[..i + 1], f) == match f(items[i])
      case Ok(rec) => Ok(records + [rec])
      case Err(e) => Err(e)
  {
    assert items[..i + 1][..i] == items[..i];
  }

  /** `from_cache_payload`: reads the items one by one, appending each record; the first unreadable item raises. */
  method FromCachePayload(p: CachePayload) returns (r: Result<TimeSeriesFrame>)
    ensures r == FromPayloadSpec(p)
  {
    var listed := AsList(GetOr(p.body, "records", VList([])));
    if listed.None? {
      return Err(TypeError("records is not iterable"));
    }
    var items := listed.value;
    var records: seq<TimeSeriesRecord> := [];
    for i := 0 to |items|
      invariant DecodeWith(items[..i], ItemToRecord) == Ok(records)
    {
      DecodeStep(items, i, ItemToRecord, records);
      var rec := ItemToRecord(items[i]);
      if rec.Err? {
        DecodeErrorSticky(items, i, ItemToRecord);
        return Err(rec.error);
      }
      records := records + [rec.value];
    }
    assert items[..|items|] == items;
    return Ok(TimeSeriesFrame(records, p.meta));
  }

  /** Every field of `a` except the value is the same in `b`, and a missing value stays missing. */
  predicate KeepsFields(a: TimeSeriesRecord, b: TimeSeriesRecord) {
    b.(value := a.value) == a && (a.value.None? ==> b.value.None?)
  }

  /** Whether a value survives the text round trip unchanged: missing, or non-empty text. */
  predicate TextValue(v: Option<Value>) {
    v.None? || (v.value.VStr? && v.value.s != "")
  }

  lemma RecordFieldsDistinct()
    ensures Sorting.Distinct(RECORD_FIELDS)
  {
  }

  /** The stored dictionary holds, under each of its keys, the entry written for it. */
  lemma RecordDictGet(rec: TimeSeriesRecord, k: nat)
    requires k < |RECORD_FIELDS|
    ensures Get(RecordToDict(rec), RECORD_FIELDS[k]) == Some(RecordToDict(rec)[k].1)
  {
    var d := RecordToDict(rec);
    RecordFieldsDistinct();
    assert Keys(d) == RECORD_FIELDS;
    assert DistinctKeys(d) by {
      forall i, j | 0 <= i < j < |d| ensures d[i].0 != d[j].0 {
        assert d[i].0 == RECORD_FIELDS[i] && d[j].0 == RECORD_FIELDS[j];
      }
    }
    GetUnique(d, RECORD_FIELDS[k]);
  }

  /** The dictionary holds, under each key `_record_to_dict` writes, that field of `rec`. */
  ghost predicate Stores(d: Dict, rec: TimeSeriesRecord) {
    Get(d, "series_code") == Some(VStr(rec.seriesCode))
    && Get(d, "series_name") == Some(TextOrNull(rec.seriesName))
    && Get(d, "unit") == Some(TextOrNull(rec.unit))
    && Get(d, "frequency") == Some(TextOrNull(rec.frequency))
    && Get(d, "frequency_code") == Some(TextOrNull(rec.frequencyCode))
    && Get(d, "week_anchor") == Some(TextOrNull(rec.weekAnchor))
    && Get(d, "category") == Some(TextOrNull(rec.category))
    && Get(d, "last_update") == Some(TextOrNull(rec.lastUpdate))
    && Get(d, "survey_date") == Some(VStr(rec.surveyDate))
    && Get(d, "value") == Some(match rec.value case None => VNull case Some(v) => VStr(Render(v)))
    && Get(d, "original_code_index") == Some(IntOrNull(rec.originalCodeIndex))
    && Get(d, "source_page_index") == Some(VInt(rec.sourcePageIndex))
    && Get(d, "source_row_index") == Some(VInt(rec.sourceRowIndex))
    && Get(d, "extras") == Some(VObj(rec.extras))
  }

  /** The dictionary `_record_to_dict` writes stores every field of the record. */
  lemma RecordDictStores(rec: TimeSeriesRecord)
    ensures Stores(RecordToDict(rec), rec)
  {
    RecordDictGet(rec, 0);
    RecordDictGet(rec, 1);
    RecordDictGet(rec, 2);
    RecordDictGet(rec, 3);
    RecordDictGet(rec, 4);
    RecordDictGet(rec, 5);
    RecordDictGet(rec, 6);
    RecordDictGet(rec, 7);
    RecordDictGet(rec, 8);
    RecordDictGet(rec, 9);
    RecordDictGet(rec, 10);
    RecordDictGet(rec, 11);
    RecordDictGet(rec, 12);
    RecordDictGet(rec, 13);
  }

  lemma TextFieldBack(d: Dict, k: string, s: Option<string>)
    requires Get(d, k) == Some(TextOrNull(s))
    ensures TextField(d, k) == s
  {
    if s.Some? {
      RenderString(s.value);
    }
  }

  lemma StrFieldBack(d: Dict, k: string, s: string)
    requires Get(d, k) == Some(VStr(s))
    ensures Render(GetOr(d, k, VStr(""))) == s
  {
    RenderString(s);
  }

  lemma IntFieldBack(d: Dict, k: string, n: int)
    requires Get(d, k) == Some(VInt(n))
    ensures IntField(d, k) == Ok(n)
  {
  }

  lemma ExtrasFieldBack(d: Dict, e: Dict)
    requires Get(d, "extras") == Some(VObj(e))
    ensures ExtrasField(d) == Ok(e)
  {
  }

  lemma IndexFieldBack(d: Dict, n: Option<int>)
    requires Get(d, "original_code_index") == Some(IntOrNull(n))
    ensures IndexField(d) == n
  {
  }

  lemma ValueFieldBack(d: Dict, v: Option<Value>)
    requires Get(d, "value") == Some(match v case None => VNull case Some(x) => VStr(Render(x)))
    ensures ValueField(d).None? <==> v.None? || Render(v.value) == ""
    ensures TextValue(v) ==> ValueField(d) == v
  {
    if v.Some? && v.value.VStr? {
      RenderString(v.value.s);
    }
  }

  /** What `from_cache_payload` reads from the dictionary is the record's own fields. */
  ghost predicate ReadsBack(d: Dict, rec: TimeSeriesRecord) {
    Render(GetOr(d, "series_code", VStr(""))) == rec.seriesCode
    && TextField(d, "series_name") == rec.seriesName
    && TextField(d, "unit") == rec.unit
    && TextField(d, "frequency") == rec.frequency
    && TextField(d, "frequency_code") == rec.frequencyCode
    && TextField(d, "week_anchor") == rec.weekAnchor
    && TextField(d, "category") == rec.category
    && TextField(d, "last_update") == rec.lastUpdate
    && Render(GetOr(d, "survey_date", VStr(""))) == rec.surveyDate
    && (ValueField(d).None? <==> rec.value.None? || Render(rec.value.value) == "")
    && (TextValue(rec.value) ==> ValueField(d) == rec.value)
    && IndexField(d) == rec.originalCodeIndex
    && IntField(d, "source_page_index") == Ok(rec.sourcePageIndex)
    && IntField(d, "source_row_index") == Ok(rec.sourceRowIndex)
    && ExtrasField(d) == Ok(rec.extras)
  }

  lemma StoredFieldsReadBack(d: Dict, rec: TimeSeriesRecord)
    requires Stores(d, rec)
    ensures ReadsBack(d, rec)
  {
    StrFieldBack(d, "series_code", rec.seriesCode);
    TextFieldBack(d, "series_name", rec.seriesName);
    TextFieldBack(d, "unit", rec.unit);
    TextFieldBack(d, "frequency", rec.frequency);
    TextFieldBack(d, "frequency_code", rec.frequencyCode);
    TextFieldBack(d, "week_anchor", rec.weekAnchor);
    TextFieldBack(d, "category", rec.category);
    TextFieldBack(d, "last_update", rec.lastUpdate);
    StrFieldBack(d, "survey_date", rec.surveyDate);
    ValueFieldBack(d, rec.value);
    IndexFieldBack(d, rec.originalCodeIndex);
    IntFieldBack(d, "source_page_index", rec.sourcePageIndex);
    IntFieldBack(d, "source_row_index", rec.sourceRowIndex);
    ExtrasFieldBack(d, rec.extras);
  }

  /** A dictionary from which every field of `rec` reads back gives `rec`, up to the value. */
  lemma ItemBack(d: Dict, rec: TimeSeriesRecord)
    requires ReadsBack(d, rec)
    ensures var r := ItemToRecord(VObj(d));
      r.Ok? && KeepsFields(rec, r.value) && (TextValue(rec.value) ==> r.value == rec)
  {
    assert ItemToRecord(VObj(d)) == Ok(rec.(value := ValueField(d)));
  }

  /** Reading back one stored record gives the same fields; the value too when it is text. */
  lemma RecordRoundTrip(rec: TimeSeriesRecord)
    ensures var r := ItemToRecord(VObj(RecordToDict(rec)));
      r.Ok? && KeepsFields(rec, r.value) && (TextValue(rec.value) ==> r.value == rec)
  {
    RecordDictStores(rec);
    StoredFieldsReadBack(RecordToDict(rec), rec);
    ItemBack(RecordToDict(rec), rec);
  }

  /** A reader that gives back every stored record, up to the value. */
  ghost predicate ReadsRecordsBack(f: ItemFn) {
    forall rec: TimeSeriesRecord :: f(VObj(RecordToDict(rec))).Ok?
      && KeepsFields(rec, f(VObj(RecordToDict(rec))).value)
      && (TextValue(rec.value) ==> f(VObj(RecordToDict(rec))).value == rec)
  }

  lemma ItemToRecordReadsBack()
    ensures ReadsRecordsBack(ItemToRecord)
  {
    forall rec: TimeSeriesRecord
      ensures ItemToRecord(VObj(RecordToDict(rec))).Ok?
        && KeepsFields(rec, ItemToRecord(VObj(RecordToDict(rec))).value)
        && (TextValue(rec.value) ==> ItemToRecord(VObj(RecordToDict(rec))).value == rec)
    {
      RecordRoundTrip(rec);
    }
  }

  lemma DecodeRecordItems(records: seq<TimeSeriesRecord>, f: ItemFn)
    requires ReadsRecordsBack(f)
    ensures var r := DecodeWith(RecordItems(records), f);
      r.Ok? && |r.value| == |records|
      && (forall i :: 0 <= i < |records| ==> KeepsFields(records[i], r.value[i]))
      && ((forall i :: 0 <= i < |records| ==> TextValue(records[i].value)) ==> r.value == records)
  {
    var items := RecordItems(records);
    var back := seq(|records|, i requires 0 <= i < |records| => f(items[i]).value);
    assert forall i :: 0 <= i < |records| ==> items[i] == VObj(RecordToDict(records[i]));
    DecodeAllOk(items, f, back);
    if forall i :: 0 <= i < |records| ==> TextValue(records[i].value) {
      assert back == records;
    }
  }

  /**
   * `from_cache_payload(to_cache_payload(frame))` gives back the frame's
   * metadata and, record by record, every field except the value; the
   * value too when every value is non-empty text, as normalisation makes it.
   */
  lemma CachePayloadRoundTrip(frame: TimeSeriesFrame)
    ensures var r := FromPayloadSpec(ToCachePayload(frame));
      r.Ok? && r.value.meta == frame.meta && |r.value.records| == |frame.records|
      && (forall i :: 0 <= i < |frame.records| ==> KeepsFields(frame.records[i], r.value.records[i]))
      && ((forall i :: 0 <= i < |frame.records| ==> TextValue(frame.records[i].value)) ==> r.value == frame)
  {
    ItemToRecordReadsBack();
    DecodeRecordItems(frame.records, ItemToRecord);
    assert GetOr(ToCachePayload(frame).body, "records", VList([])) == VList(RecordItems(frame.records));
  }

  // ---------------------------------------------------------------------
  // Metadata frame

  /** A list comprehension with a condition: the elements for which `p` holds, in order. */
  function Where<T(!new)>(s: seq<T>, p: T -> bool): (r: seq<T>)
    ensures |r| <= |s|
    ensures forall x :: x in r <==> x in s && p(x)
  {
    if |s| == 0 then []
    else
      var prev := Where(s[..|s| - 1], p);
      assert s == s[..|s| - 1] + [s[|s| - 1]];
      if p(s[|s| - 1]) then prev + [s[|s| - 1]] else prev
  }

  /** Filtering distributes over concatenation, so the kept elements stay in their order. */
  lemma {:induction false} WhereAppend<T(!new)>(a: seq<T>, b: seq<T>, p: T -> bool)
    ensures Where(a + b, p) == Where(a, p) + Where(b, p)
    decreases |b|
  {
    if |b| == 0 {
      assert a + b == a;
    } else {
      var b' := b[..|b| - 1];
      assert (a + b)[..|a + b| - 1] == a + b';
      WhereAppend(a, b', p);
    }
  }

  /** The condition that both `p` and `q` hold. */
  function Both<T>(p: T -> bool, q: T -> bool): T -> bool {
    x => p(x) && q(x)
  }

  /** Filtering twice keeps exactly what one filter by both conditions keeps. */
  lemma {:induction false} WhereWhere<T(!new)>(s: seq<T>, p: T -> bool, q: T -> bool)
    ensures Where(Where(s, p), q) == Where(s, Both(p, q))
    decreases |s|
  {
    if |s| > 0 {
      var s' := s[..|s| - 1];
      var x := s[|s| - 1];
      WhereWhere(s', p, q);
      if p(x) {
        var w := Where(s', p) + [x];
        assert w[..|w| - 1] == Where(s', p);
      }
    }
  }

  /** Two conditions that agree on every element keep the same elements. */
  lemma {:induction false} WhereAgree<T(!new)>(s: seq<T>, p: T -> bool, q: T -> bool)
    requires forall x :: x in s ==> p(x) == q(x)
    ensures Where(s, p) == Where(s, q)
    decreases |s|
  {
    if |s| > 0 {
      var s' := s[..|s| - 1];
      assert forall x :: x in s' ==> x in s;
      WhereAgree(s', p, q);
      assert s[|s| - 1] in s;
    }
  }

  /** A condition every element meets keeps the whole list. */
  lemma {:induction false} WhereAll<T(!new)>(s: seq<T>, p: T -> bool)
    requires forall x :: x in s ==> p(x)
    ensures Where(s, p) == s
    decreases |s|
  {
    if |s| > 0 {
      var s' := s[..|s| - 1];
      assert forall x :: x in s' ==> x in s;
      WhereAll(s', p);
      assert s[|s| - 1] in s;
      assert s == s' + [s[|s| - 1]];
    }
  }

  /** The non-empty series codes of the records, in record order. */
  function NonEmptyCodes(records: seq<MetadataRecord>): (codes: seq<string>)
    ensures |codes| <= |records|
    ensures forall c :: c in codes <==> c != "" && exists k :: 0 <= k < |records| && records[k].seriesCode == c
  {
    if |records| == 0 then []
    else
      var prev := NonEmptyCodes(records[..|records| - 1]);
      var c := records[|records| - 1].seriesCode;
      assert forall k :: 0 <= k < |records| - 1 ==> records[..|records| - 1][k] == records[k];
      if c != "" then prev + [c] else prev
  }

  lemma {:induction false} NonEmptyCodesAppend(a: seq<MetadataRecord>, b: seq<MetadataRecord>)
    ensures NonEmptyCodes(a + b) == NonEmptyCodes(a) + NonEmptyCodes(b)
    decreases |b|
  {
    if |b| == 0 {
      assert a + b == a;
    } else {
      var b' := b[..|b| - 1];
      assert (a + b)[..|a + b| - 1] == a + b';
      NonEmptyCodesAppend(a, b');
    }
  }

  /** The `find` condition on the name: the casefolded needle occurs in the casefolded name. */
  function NameFilter(needle: string): MetadataRecord -> bool {
    (rec: MetadataRecord) => rec.seriesName.Some? && rec.seriesName.value != "" && Contains(Lower(rec.seriesName.value), needle)
  }

  /** The `find` condition on the frequency: the upper-cased text occurs in the upper-cased frequency. */
  function FrequencyFilter(freqText: string): MetadataRecord -> bool {
    (rec: MetadataRecord) => rec.frequency.Some? && rec.frequency.value != "" && Contains(Upper(rec.frequency.value), freqText)
  }

  /** Whether `find` keeps a record: every active filter accepts it. */
  predicate FindKeeps(nameContains: Option<string>, frequency: Option<string>, rec: MetadataRecord) {
    (nameContains.Some? && nameContains.value != "" ==> NameFilter(Lower(nameContains.value))(rec))
    && (frequency.Some? ==> FrequencyFilter(Upper(frequency.value))(rec))
  }

  /** `FindKeeps` as a condition. */
  function FindFilter(nameContains: Option<string>, frequency: Option<string>): MetadataRecord -> bool {
    rec => FindKeeps(nameContains, frequency, rec)
  }

  datatype MetadataFrame = MetadataFrame(records: seq<MetadataRecord>, meta: ResponseMeta) {

    /** `head(n)`: the slice `records[:n]`; a negative `n` drops the last `-n` records. */
    function Head(n: int): (f: MetadataFrame)
      ensures f.meta == meta
      ensures n >= 0 ==> |f.records| == if n < |records| then n else |records|
      ensures n < 0 ==> |f.records| == if |records| + n > 0 then |records| + n else 0
      ensures forall i :: 0 <= i < |f.records| ==> f.records[i] == records[i]
    {
      var end := if n >= 0 then (if n < |records| then n else |records|)
                 else (if |records| + n > 0 then |records| + n else 0);
      MetadataFrame(records[..end], meta)
    }

    /** `series_codes`. */
    function SeriesCodes(): (codes: seq<string>)
      ensures forall c :: c in codes <==> c != "" && exists k :: 0 <= k < |records| && records[k].seriesCode == c
    {
      NonEmptyCodes(records)
    }

    /**
     * `find`: an empty or missing name leaves the name filter off; a given
     * frequency (even an empty one) turns the frequency filter on.
     */
    function Find(nameContains: Option<string>, frequency: Option<string>): (f: MetadataFrame)
      ensures f.meta == meta
      ensures forall rec :: rec in f.records <==> rec in records && FindKeeps(nameContains, frequency, rec)
    {
      var byName := if nameContains.Some? && nameContains.value != ""
        then Where(records, NameFilter(Lower(nameContains.value))) else records;
      var byFrequency := if frequency.Some?
        then Where(byName, FrequencyFilter(Upper(frequency.value))) else byName;
      MetadataFrame(byFrequency, meta)
    }

    /** `filter(predicate)`. */
    function Filter(p: MetadataRecord -> bool): (f: MetadataFrame)
      ensures f.meta == meta
      ensures forall rec :: rec in f.records <==> rec in records && p(rec)
    {
      MetadataFrame(Where(records, p), meta)
    }
  }

  /** Taking a prefix of a prefix takes the shorter prefix. */
  lemma HeadOfHead(frame: MetadataFrame, m: nat, n: nat)
    ensures frame.Head(m).Head(n) == frame.Head(if m < n then m else n)
  {
  }

  /** The search is one filter by `FindKeeps`, so it keeps the records in their order. */
  lemma FindIsOneFilter(frame: MetadataFrame, nameContains: Option<string>, frequency: Option<string>)
    ensures frame.Find(nameContains, frequency).records
      == Where(frame.records, FindFilter(nameContains, frequency))
  {
    var s := frame.records;
    var keep := FindFilter(nameContains, frequency);
    var nameOn := nameContains.Some? && nameContains.value != "";
    if nameOn && frequency.Some? {
      var nf := NameFilter(Lower(nameContains.value));
      var ff := FrequencyFilter(Upper(frequency.value));
      WhereWhere(s, nf, ff);
      WhereAgree(s, Both(nf, ff), keep);
    } else if nameOn {
      WhereAgree(s, NameFilter(Lower(nameContains.value)), keep);
    } else if frequency.Some? {
      WhereAgree(s, FrequencyFilter(Upper(frequency.value)), keep);
    } else {
      WhereAll(s, keep);
    }
  }

  /** The letter case of the needle and of the frequency text does not change what `find` keeps. */
  lemma FindIgnoresCase(frame: MetadataFrame, name: string, frequency: string)
    ensures frame.Find(Some(Upper(name)), Some(Lower(frequency))) == frame.Find(Some(name), Some(frequency))
  {
    assert Lower(Upper(name)) == Lower(name) by {
      forall i | 0 <= i < |name| ensures LowerChar(UpperChar(name[i])) == LowerChar(name[i]) {
        Normalize.CharFacts(name[i]);
      }
    }
    assert Upper(Lower(frequency)) == Upper(frequency) by {
      forall i | 0 <= i < |frequency| ensures UpperChar(LowerChar(frequency[i])) == UpperChar(frequency[i]) {
        Normalize.CharFacts(frequency[i]);
      }
    }
  }

  /** With the name filter on, a record without a name is never found. */
  lemma FindDropsNameless(frame: MetadataFrame, needle: string, frequency: Option<string>, rec: MetadataRecord)
    requires needle != "" && (rec.seriesName.None? || rec.seriesName.value == "")
    ensures rec !in frame.Find(Some(needle), frequency).records
  {
  }
}
