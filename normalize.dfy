/**
 * Response normalisation: column-name spelling variants folded onto one
 * canonical key, frequency labels mapped to frequency codes, and the
 * expansion of raw data rows into time-series records (one record per
 * survey date).
 */
module Normalize {
  import opened Text
  import opened Values
  import opened Errors
  import opened Types

  /** Spelling variants of column names, by their upper-cased form. */
  const KEY_ALIASES: map<string, string> := map[
    "SERIESCODE" := "SERIES_CODE",
    "SERIES CODE" := "SERIES_CODE",
    "NAMEOFTIMESERIESJ" := "NAME_OF_TIME_SERIES_J",
    "NAME OF TIME SERIES J" := "NAME_OF_TIME_SERIES_J",
    "NAMEOFTIMESERIES" := "NAME_OF_TIME_SERIES",
    "NAME OF TIME SERIES" := "NAME_OF_TIME_SERIES",
    "UNITJ" := "UNIT_J",
    "UNIT J" := "UNIT_J",
    "CATEGORYJ" := "CATEGORY_J",
    "CATEGORY J" := "CATEGORY_J",
    "LASTUPDATE" := "LAST_UPDATE",
    "LAST UPDATE" := "LAST_UPDATE",
    "SURVEYDATES" := "SURVEY_DATES",
    "SURVEY DATES" := "SURVEY_DATES",
    "STARTOFTHETIMESERIES" := "START_OF_THE_TIME_SERIES",
    "ENDOFTHETIMESERIES" := "END_OF_THE_TIME_SERIES",
    "NOTESJ" := "NOTES_J"
  ]

  predicate NoChar(s: string, c: char) {
    forall i :: 0 <= i < |s| ==> s[i] != c
  }

  /** The key stripped, with underscores as spaces, upper-cased. */
  function Compact(key: string): string {
    Upper(ReplaceChar(Strip(key), '_', ' '))
  }

  /** `normalize_key`: the canonical spelling of a column name. */
  function NormalizeKey(key: string): (r: string)
    ensures NoChar(r, ' ')
  {
    var compact := Compact(key);
    var noSpace := RemoveChar(compact, ' ');
    AliasValuesHaveNoSpace();
    if noSpace in KEY_ALIASES then KEY_ALIASES[noSpace]
    else if compact in KEY_ALIASES then KEY_ALIASES[compact]
    else ReplaceChar(compact, ' ', '_')
  }

  lemma AliasValuesHaveNoSpace()
    ensures forall k :: k in KEY_ALIASES ==> NoChar(KEY_ALIASES[k], ' ')
  {
    AliasTargetsHaveNoSpace();
    assert forall k :: k in KEY_ALIASES ==> KEY_ALIASES[k] in ALIAS_TARGETS;
  }

  /** The canonical spellings the aliases map to. */
  const ALIAS_TARGETS: set<string> := {
    "SERIES_CODE", "NAME_OF_TIME_SERIES_J", "NAME_OF_TIME_SERIES", "UNIT_J", "CATEGORY_J", "LAST_UPDATE",
    "SURVEY_DATES", "START_OF_THE_TIME_SERIES", "END_OF_THE_TIME_SERIES", "NOTES_J"}

  lemma AliasTargetsHaveNoSpace()
    ensures forall v :: v in ALIAS_TARGETS ==> NoChar(v, ' ')
  {
  }

  lemma CharFacts(c: char)
    ensures UpperChar(c) == '_' <==> c == '_'
    ensures IsSpace(UpperChar(c)) ==> IsSpace(c)
    ensures UpperChar(UpperChar(c)) == UpperChar(c)
    ensures UpperChar(LowerChar(c)) == UpperChar(c)
    ensures LowerChar(UpperChar(c)) == LowerChar(c)
    ensures IsSpace(LowerChar(c)) <==> IsSpace(c)
  {
  }

  /** A compact key has no underscore, no lower-case letter, and no edge whitespace other than a former underscore. */
  lemma CompactShape(key: string)
    ensures NoChar(Compact(key), '_')
    ensures Upper(Compact(key)) == Compact(key)
    ensures var c := Compact(key);
      c == [] || ((c[0] == ' ' || !IsSpace(c[0])) && (c[|c| - 1] == ' ' || !IsSpace(c[|c| - 1])))
  {
    var s := Strip(key);
    var c := Compact(key);
    forall i | 0 <= i < |c| ensures c[i] != '_' && UpperChar(c[i]) == c[i] {
      CharFacts(ReplaceChar(s, '_', ' ')[i]);
    }
    if c != [] {
      CharFacts(ReplaceChar(s, '_', ' ')[0]);
      CharFacts(ReplaceChar(s, '_', ' ')[|c| - 1]);
    }
  }

  /**
   * Normalising a key whose canonical form is not taken from the alias
   * table a second time changes nothing.
   */
  lemma NormalizeKeyIdempotentOutsideTable(key: string)
    requires RemoveChar(Compact(key), ' ') !in KEY_ALIASES && Compact(key) !in KEY_ALIASES
    ensures NormalizeKey(NormalizeKey(key)) == NormalizeKey(key)
  {
    var c := Compact(key);
    var r := ReplaceChar(c, ' ', '_');
    assert NormalizeKey(key) == r;
    CompactShape(key);
    assert !IsSpace('_');
    StripNoEdges(r);
    assert ReplaceChar(r, '_', ' ') == c;
    assert Compact(r) == c;
  }

  lemma {:induction false} TrimLeftLower(s: string)
    ensures TrimLeft(Lower(s)) == Lower(TrimLeft(s))
    decreases |s|
  {
    if |s| > 0 {
      CharFacts(s[0]);
      assert Lower(s)[1..] == Lower(s[1..]);
      TrimLeftLower(s[1..]);
    }
  }

  lemma {:induction false} TrimRightLower(s: string)
    ensures TrimRight(Lower(s)) == Lower(TrimRight(s))
    decreases |s|
  {
    if |s| > 0 {
      CharFacts(s[|s| - 1]);
      assert Lower(s)[..|s| - 1] == Lower(s[..|s| - 1]);
      TrimRightLower(s[..|s| - 1]);
    }
  }

  /** Case does not matter: a key and its lower-case spelling normalise alike. */
  lemma NormalizeKeyIgnoresCase(key: string)
    ensures NormalizeKey(Lower(key)) == NormalizeKey(key)
  {
    CompactLower(key);
  }

  lemma CompactLower(key: string)
    ensures Compact(Lower(key)) == Compact(key)
  {
    StripLower(key);
    UpperReplaceLower(Strip(key));
  }

  lemma StripLower(key: string)
    ensures Strip(Lower(key)) == Lower(Strip(key))
  {
    TrimLeftLower(key);
    TrimRightLower(TrimLeft(key));
  }

  lemma UpperReplaceLower(s: string)
    ensures Upper(ReplaceChar(Lower(s), '_', ' ')) == Upper(ReplaceChar(s, '_', ' '))
  {
    forall i | 0 <= i < |s| ensures UpperChar(ReplaceChar(Lower(s), '_', ' ')[i]) == UpperChar(ReplaceChar(s, '_', ' ')[i]) {
      CharFacts(s[i]);
    }
  }

  // ---------------------------------------------------------------------
  // Frequency labels

  /** The text after the first `(` up to the next `)`, or to the end when no `)` follows. */
  function WeekAnchor(n: string): (a: Option<string>)
    ensures a.Some? <==> (exists i :: 0 <= i < |n| && n[i] == '(') && (exists i :: 0 <= i < |n| && n[i] == ')')
    ensures a.Some? ==> NoChar(a.value, ')')
  {
    match IndexOf(n, '(')
    case None => None
    case Some(i) =>
      if IndexOf(n, ')').None? then None
      else
        var after := n[i + 1..];
        match IndexOf(after, ')')
        case None => Some(after)
        case Some(j) => Some(after[..j])
  }

  /** `frequency_code_from_freqLabel`: (frequency code, week anchor). */
  function FrequencyCodeFromLabel(freqLabel: Option<string>): (r: (Option<string>, Option<string>))
    ensures (freqLabel.None? || freqLabel.value == "") ==> r == (None, None)
    ensures freqLabel.Some? && Contains(Upper(freqLabel.value), "ANNUAL (MAR)") ==> r == (Some("FY"), None)
    ensures r.0 == Some("W") ==> r.1 == WeekAnchor(Upper(freqLabel.value))
    ensures r.0 != Some("W") ==> r.1.None?
    ensures freqLabel.Some? && freqLabel.value != "" ==>
      var n := Upper(freqLabel.value);
      && (!Contains(n, "ANNUAL (MAR)") && Contains(n, "ANNUAL") ==> r == (Some("CY"), None))
      && (!Contains(n, "ANNUAL") && Contains(n, "QUARTERLY") ==> r == (Some("Q"), None))
      && (!Contains(n, "ANNUAL") && !Contains(n, "QUARTERLY") && Contains(n, "MONTHLY") ==> r == (Some("M"), None))
      && (!Contains(n, "ANNUAL") && !Contains(n, "QUARTERLY") && !Contains(n, "MONTHLY") && Contains(n, "DAILY")
          ==> r == (Some("D"), None))
      && (!Contains(n, "ANNUAL") && !Contains(n, "QUARTERLY") && !Contains(n, "MONTHLY") && !Contains(n, "DAILY")
          ==> r == (if Contains(n, "WEEKLY") then (Some("W"), WeekAnchor(n)) else (None, None)))
  {
    if freqLabel.None? || freqLabel.value == "" then (None, None)
    else
      var n := Upper(freqLabel.value);
      AnnualLabels(n);
      if Contains(n, "ANNUAL (MAR)") then (Some("FY"), None)
      else if Contains(n, "ANNUAL") then (Some("CY"), None)
      else if Contains(n, "SEMIANNUAL (SEP)") then (Some("FH"), None)
      else if Contains(n, "SEMIANNUAL") then (Some("CH"), None)
      else if Contains(n, "QUARTERLY") then (Some("Q"), None)
      else if Contains(n, "MONTHLY") then (Some("M"), None)
      else if Contains(n, "DAILY") then (Some("D"), None)
      else if Contains(n, "WEEKLY") then (Some("W"), WeekAnchor(n))
      else (None, None)
  }

  /**
   * Every semiannual freqLabel also contains "ANNUAL", which is tested first:
   * such freqLabels map to FY or CY, and the half-year codes FH and CH are
   * never produced.
   */
  lemma HalfYearCodesUnreachable(freqLabel: Option<string>)
    ensures FrequencyCodeFromLabel(freqLabel).0 != Some("FH")
    ensures FrequencyCodeFromLabel(freqLabel).0 != Some("CH")
    ensures freqLabel.Some? && Contains(Upper(freqLabel.value), "SEMIANNUAL") && !Contains(Upper(freqLabel.value), "ANNUAL (MAR)")
      ==> FrequencyCodeFromLabel(freqLabel).0 == Some("CY")
  {
    if freqLabel.Some? && freqLabel.value != "" {
      AnnualLabels(Upper(freqLabel.value));
    }
  }

  /** A label naming a fiscal-year or half-year frequency also contains "ANNUAL". */
  lemma AnnualLabels(n: string)
    ensures Contains(n, "ANNUAL (MAR)") ==> Contains(n, "ANNUAL")
    ensures Contains(n, "SEMIANNUAL (SEP)") ==> Contains(n, "ANNUAL")
    ensures Contains(n, "SEMIANNUAL") ==> Contains(n, "ANNUAL")
  {
    if Contains(n, "ANNUAL (MAR)") {
      assert "ANNUAL (MAR)" == "ANNUAL" + " (MAR)";
      ContainsPrefix(n, "ANNUAL", " (MAR)");
    }
    if Contains(n, "SEMIANNUAL (SEP)") {
      assert "SEMIANNUAL (SEP)" == "SEMI" + ("ANNUAL" + " (SEP)");
      ContainsSuffix(n, "SEMI", "ANNUAL" + " (SEP)");
      ContainsPrefix(n, "ANNUAL", " (SEP)");
    }
    if Contains(n, "SEMIANNUAL") {
      assert "SEMIANNUAL" == "SEMI" + "ANNUAL";
      ContainsSuffix(n, "SEMI", "ANNUAL");
    }
  }

  /** The three spellings of the series-code column all normalise to `SERIES_CODE`. */
  lemma SeriesCodeSpellings(key: string)
    requires key == "SERIES CODE" || key == "SERIESCODE" || key == "series_code"
    ensures NormalizeKey(key) == "SERIES_CODE"
  {
    var joined := "SERIESCODE";
    SeriesCodeJoined(joined);
    if key == "series_code" {
      LowerSeriesCode(key, "SERIES_CODE", joined);
    } else if key == "SERIES CODE" {
      SpacedSeriesCode(key, joined);
    } else {
      JoinedSeriesCode(key);
    }
  }

  lemma LowerSeriesCode(key: string, upper: string, joined: string)
    requires key == "series_code" && upper == "SERIES_CODE"
    requires joined == "SERIESCODE" && joined in KEY_ALIASES
    ensures NormalizeKey(key) == KEY_ALIASES[joined]
  {
    LowerSameAsUpper(key, upper);
    SpacedSeriesCode(upper, joined);
  }

  lemma LowerSameAsUpper(key: string, upper: string)
    requires key == "series_code" && upper == "SERIES_CODE"
    ensures NormalizeKey(key) == NormalizeKey(upper)
  {
    assert Lower(upper) == key;
    NormalizeKeyIgnoresCase(upper);
  }

  lemma JoinedSeriesCode(key: string)
    requires key == "SERIESCODE"
    ensures NormalizeKey(key) == "SERIES_CODE"
  {
    JoinedIsCompact(key);
    SeriesCodeJoined(key);
    NormalizeCompactAlias(key);
  }

  lemma JoinedIsCompact(key: string)
    requires key == "SERIESCODE"
    ensures Compact(key) == key && RemoveChar(key, ' ') == key
  {
    UpperCompact(key, key);
    RemoveCharAbsent(key, ' ');
  }

  /** An alias already in compact, space-free form maps straight to its table entry. */
  lemma NormalizeCompactAlias(key: string)
    requires Compact(key) == key && RemoveChar(key, ' ') == key && key in KEY_ALIASES
    ensures NormalizeKey(key) == KEY_ALIASES[key]
  {
    NormalizeKeyByJoined(key, key);
  }

  lemma SeriesCodeJoined(joined: string)
    requires joined == "SERIESCODE"
    ensures joined in KEY_ALIASES && KEY_ALIASES[joined] == "SERIES_CODE"
  {
  }

  /** `SERIES CODE`, and `SERIES_CODE` read with its underscore as a space, lose their space on the way to the table. */
  lemma SpacedSeriesCode(key: string, joined: string)
    requires key == "SERIES CODE" || key == "SERIES_CODE"
    requires joined == "SERIESCODE" && joined in KEY_ALIASES
    ensures NormalizeKey(key) == KEY_ALIASES[joined]
  {
    var spaced := "SERIES CODE";
    UpperCompact(key, spaced);
    SeriesCodeSpaceRemoved(spaced, "SERIES", "CODE", joined);
    NormalizeKeyByJoined(key, joined);
  }

  lemma SeriesCodeSpaceRemoved(spaced: string, series: string, code: string, joined: string)
    requires spaced == "SERIES CODE" && series == "SERIES" && code == "CODE" && joined == "SERIESCODE"
    ensures RemoveChar(spaced, ' ') == joined
  {
    assert spaced == series + " " + code;
    RemoveOneSpace(series, code);
  }

  lemma RemoveOneSpace(a: string, b: string)
    requires NoChar(a, ' ') && NoChar(b, ' ')
    ensures RemoveChar(a + " " + b, ' ') == a + b
  {
    var sb := " " + b;
    assert a + " " + b == a + sb;
    RemoveCharAppend(a, sb, ' ');
    assert sb[1..] == b;
    assert RemoveChar(sb, ' ') == RemoveChar(b, ' ');
    RemoveCharAbsent(a, ' ');
    RemoveCharAbsent(b, ' ');
  }

  /** When the space-free compact form is an alias, it decides the result. */
  lemma NormalizeKeyByJoined(key: string, joined: string)
    requires RemoveChar(Compact(key), ' ') == joined && joined in KEY_ALIASES
    ensures NormalizeKey(key) == KEY_ALIASES[joined]
  {
  }

  /** A key with upper-case letters and spaces inside, once underscores become spaces, is its own compact form. */
  lemma UpperCompact(key: string, spaced: string)
    requires spaced == ReplaceChar(key, '_', ' ')
    requires forall i :: 0 <= i < |spaced| ==> 'A' <= spaced[i] <= 'Z' || spaced[i] == ' '
    requires key == [] || (!IsSpace(key[0]) && !IsSpace(key[|key| - 1]))
    ensures Compact(key) == spaced
  {
    StripNoEdges(key);
  }

  lemma {:induction false} RemoveCharAppend(a: string, b: string, c: char)
    ensures RemoveChar(a + b, c) == RemoveChar(a, c) + RemoveChar(b, c)
    decreases |a|
  {
    if |a| > 0 {
      assert (a + b)[1..] == a[1..] + b;
      RemoveCharAppend(a[1..], b, c);
    } else {
      assert a + b == b;
    }
  }

  lemma {:induction false} RemoveCharAbsent(s: string, c: char)
    requires NoChar(s, c)
    ensures RemoveChar(s, c) == s
    decreases |s|
  {
    if |s| > 0 {
      RemoveCharAbsent(s[1..], c);
    }
  }

  // ---------------------------------------------------------------------
  // Row expansion

  /** `{normalize_key(k): v for k, v in raw.items()}`: a later entry overwrites an earlier one in place. */
  function NormalizeRow(raw: Dict): Dict
    decreases |raw|
  {
    if |raw| == 0 then []
    else Set(NormalizeRow(raw[..|raw| - 1]), NormalizeKey(raw[|raw| - 1].0), raw[|raw| - 1].1)
  }

  /** A normalised row has one entry per canonical key. */
  lemma {:induction false} NormalizeRowDistinct(raw: Dict)
    ensures DistinctKeys(NormalizeRow(raw))
    decreases |raw|
  {
    if |raw| > 0 {
      NormalizeRowDistinct(raw[..|raw| - 1]);
      SetGet(NormalizeRow(raw[..|raw| - 1]), NormalizeKey(raw[|raw| - 1].0), raw[|raw| - 1].1, "");
    }
  }

  /** `_extract(row, *keys)`: the value under the first listed key present, or None. */
  function Extract(row: Dict, keys: seq<string>): (v: Value)
    ensures (forall i :: 0 <= i < |keys| ==> !HasKey(row, keys[i])) ==> v == VNull
    ensures |keys| > 0 && HasKey(row, keys[0]) ==> Get(row, keys[0]) == Some(v)
    ensures |keys| > 0 && !HasKey(row, keys[0]) ==> v == Extract(row, keys[1..])
  {
    if |keys| == 0 then VNull
    else match Get(row, keys[0])
      case Some(v) => v
      case None => Extract(row, keys[1..])
  }

  /** The first listed key present decides; keys after it are never consulted. */
  lemma {:induction false} ExtractFirstPresent(row: Dict, keys: seq<string>, i: nat)
    requires i < |keys| && HasKey(row, keys[i])
    requires forall j :: 0 <= j < i ==> !HasKey(row, keys[j])
    ensures Get(row, keys[i]) == Some(Extract(row, keys))
    decreases i
  {
    if i > 0 {
      ExtractFirstPresent(row, keys[1..], i - 1);
    }
  }

  /** The entries whose keys are not in `excluded`, in order. */
  function Extras(row: Dict, excluded: set<string>): (e: Dict)
    ensures forall i :: 0 <= i < |e| ==> e[i].0 !in excluded && e[i] in row
    ensures forall i :: 0 <= i < |row| && row[i].0 !in excluded ==> row[i] in e
  {
    if |row| == 0 then []
    else
      var rest := Extras(row[1..], excluded);
      assert forall x :: x in row[1..] ==> x in row;
      (if row[0].0 in excluded then [] else [row[0]]) + rest
  }

  const NESTED_KNOWN_KEYS: set<string> := {
    "SERIES_CODE", "NAME_OF_TIME_SERIES_J", "NAME_OF_TIME_SERIES", "UNIT_J", "UNIT",
    "FREQUENCY", "CATEGORY_J", "CATEGORY", "LAST_UPDATE", "VALUES"}

  const FLAT_KNOWN_KEYS: set<string> := NESTED_KNOWN_KEYS + {"SURVEY_DATES"}

  /**
   * `_decimal_or_none`: None for a missing, blank or "null" cell, otherwise
   * the cell's stripped text (the decimal conversion itself is not modelled).
   */
  function DecimalOrNone(v: Value): (r: Option<Value>)
    ensures r.None? <==> v.VNull? || Strip(Render(v)) == "" || Lower(Strip(Render(v))) == "null"
    ensures r.Some? ==> r.value == VStr(Strip(Render(v)))
  {
    if v.VNull? then None
    else
      var text := Strip(Render(v));
      if text == "" || Lower(text) == "null" then None else Some(VStr(text))
  }

  /** `str(v) if v is not None else None`. */
  function OptText(v: Value): (r: Option<string>)
    ensures r.None? <==> v.VNull?
  {
    if v.VNull? then None else Some(Render(v))
  }

  /** `str(_extract(row, "SERIES_CODE") or "").strip()`. */
  function SeriesCodeOf(row: Dict): string {
    var x := Extract(row, ["SERIES_CODE"]);
    Strip(if Truthy(x) then Render(x) else "")
  }

  function OriginalIndex(codeOrder: map<string, int>, code: string): Option<int> {
    if code in codeOrder then Some(codeOrder[code]) else None
  }

  /** One record of a row, for one survey date and its raw value. */
  function MakeRecord(row: Dict, code: string, pageIndex: int, rowIndex: int, codeOrder: map<string, int>,
                      survey: Value, value: Value, known: set<string>): (rec: TimeSeriesRecord)
    ensures rec.seriesCode == code && rec.surveyDate == Render(survey)
    ensures rec.sourcePageIndex == pageIndex && rec.sourceRowIndex == rowIndex
    ensures rec.originalCodeIndex == OriginalIndex(codeOrder, code)
    ensures rec.value == DecimalOrNone(value)
    ensures forall i :: 0 <= i < |rec.extras| ==> rec.extras[i].0 !in known
  {
    var frequency := Extract(row, ["FREQUENCY"]);
    var codes := FrequencyCodeFromLabel(if Truthy(frequency) then Some(Render(frequency)) else None);
    TimeSeriesRecord(
      seriesCode := code,
      seriesName := OptText(Extract(row, ["NAME_OF_TIME_SERIES_J", "NAME_OF_TIME_SERIES"])),
      unit := OptText(Extract(row, ["UNIT_J", "UNIT"])),
      frequency := OptText(frequency),
      frequencyCode := codes.0,
      weekAnchor := codes.1,
      category := OptText(Extract(row, ["CATEGORY_J", "CATEGORY"])),
      lastUpdate := OptText(Extract(row, ["LAST_UPDATE"])),
      surveyDate := Render(survey),
      value := DecimalOrNone(value),
      originalCodeIndex := OriginalIndex(codeOrder, code),
      sourcePageIndex := pageIndex,
      sourceRowIndex := rowIndex,
      extras := Extras(row, known))
  }

  /** `list(nested.get(key, []))`: a TypeError when the value is not iterable. */
  function ListOrEmpty(v: Option<Value>): (r: Result<seq<Value>>)
    ensures v.None? ==> r == Ok([])
    ensures v.Some? && v.value.VList? ==> r == Ok(v.value.items)
    ensures r.Err? <==> v.Some? && (v.value.VNull? || v.value.VBool? || v.value.VInt?)
  {
    match v
    case None => Ok([])
    case Some(x) =>
      match AsList(x)
      case None => Err(TypeError("object is not iterable"))
      case Some(items) => Ok(items)
  }

  /** The survey dates and values of a nested VALUES map. */
  function NestedLists(entries: Dict): Result<(seq<Value>, seq<Value>)> {
    var nested := NormalizeRow(entries);
    var dates :- ListOrEmpty(Get(nested, "SURVEY_DATES"));
    var values :- ListOrEmpty(Get(nested, "VALUES"));
    Ok((dates, values))
  }

  /** One record per survey date; a date without a matching value gets none. */
  function NestedRecords(row: Dict, code: string, pageIndex: int, rowIndex: int, codeOrder: map<string, int>,
                         dates: seq<Value>, values: seq<Value>): (recs: seq<TimeSeriesRecord>)
    ensures |recs| == |dates|
    ensures forall i :: 0 <= i < |dates| ==> recs[i].surveyDate == Render(dates[i])
    ensures forall i :: |values| <= i < |dates| ==> recs[i].value.None?
    ensures forall i :: 0 <= i < |values| && i < |dates| ==> recs[i].value == DecimalOrNone(values[i])
  {
    seq(|dates|, i requires 0 <= i < |dates| =>
      MakeRecord(row, code, pageIndex, rowIndex, codeOrder, dates[i],
                 if i < |values| then values[i] else VNull, NESTED_KNOWN_KEYS))
  }

  /** The records `expand_timeseries_rows` produces for one row, once its keys are normalised. */
  function RecordsOf(row: Dict, rowIndex: int, pageIndex: int, codeOrder: map<string, int>): Result<seq<TimeSeriesRecord>> {
    var code := SeriesCodeOf(row);
    if code == "" then Ok([])
    else
      match Extract(row, ["VALUES"])
      case VObj(entries) =>
        var lists :- NestedLists(entries);
        Ok(NestedRecords(row, code, pageIndex, rowIndex, codeOrder, lists.0, lists.1))
      case flat =>
        var survey := Extract(row, ["SURVEY_DATES"]);
        if survey.VNull? then Ok([])
        else Ok([MakeRecord(row, code, pageIndex, rowIndex, codeOrder, survey, flat, FLAT_KNOWN_KEYS)])
  }

  /** A record came from row `rowIndex` of page `pageIndex` and carries the row's code and its position. */
  predicate FromRow(rec: TimeSeriesRecord, code: string, pageIndex: int, rowIndex: int, codeOrder: map<string, int>) {
    && rec.seriesCode == code && code != ""
    && rec.sourcePageIndex == pageIndex && rec.sourceRowIndex == rowIndex
    && rec.originalCodeIndex == OriginalIndex(codeOrder, code)
    && (forall i :: 0 <= i < |rec.extras| ==> rec.extras[i].0 !in NESTED_KNOWN_KEYS)
  }

  lemma NestedProvenance(row: Dict, code: string, pageIndex: int, rowIndex: int, codeOrder: map<string, int>,
                         dates: seq<Value>, values: seq<Value>)
    requires code != ""
    ensures forall rec :: rec in NestedRecords(row, code, pageIndex, rowIndex, codeOrder, dates, values) ==>
      FromRow(rec, code, pageIndex, rowIndex, codeOrder)
  {
    var recs := NestedRecords(row, code, pageIndex, rowIndex, codeOrder, dates, values);
    forall rec | rec in recs ensures FromRow(rec, code, pageIndex, rowIndex, codeOrder) {
      var i :| 0 <= i < |recs| && recs[i] == rec;
    }
  }

  /**
   * Every record of a row carries the row's non-empty series code, the page
   * and row positions and the code's position in the request, and no
   * recognised column among its extras; a row without a series code gives none.
   */
  lemma RecordsOfProvenance(row: Dict, rowIndex: int, pageIndex: int, codeOrder: map<string, int>)
    ensures SeriesCodeOf(row) == "" ==> RecordsOf(row, rowIndex, pageIndex, codeOrder) == Ok([])
    ensures var r := RecordsOf(row, rowIndex, pageIndex, codeOrder);
      r.Ok? ==> forall rec :: rec in r.value ==> FromRow(rec, SeriesCodeOf(row), pageIndex, rowIndex, codeOrder)
  {
    var code := SeriesCodeOf(row);
    var field := Extract(row, ["VALUES"]);
    var r := RecordsOf(row, rowIndex, pageIndex, codeOrder);
    if code == "" {
      assert r == Ok([]);
    } else if field.VObj? {
      var lists := NestedLists(field.entries);
      if lists.Ok? {
        assert r == Ok(NestedRecords(row, code, pageIndex, rowIndex, codeOrder, lists.value.0, lists.value.1));
        NestedProvenance(row, code, pageIndex, rowIndex, codeOrder, lists.value.0, lists.value.1);
      }
    } else {
      var survey := Extract(row, ["SURVEY_DATES"]);
      if !survey.VNull? {
        var rec := MakeRecord(row, code, pageIndex, rowIndex, codeOrder, survey, field, FLAT_KNOWN_KEYS);
        assert r == Ok([rec]);
        assert FromRow(rec, code, pageIndex, rowIndex, codeOrder);
      }
    }
  }

  /** A flat row gives one record when it has SURVEY_DATES and none otherwise. */
  lemma FlatRowCount(row: Dict, rowIndex: int, pageIndex: int, codeOrder: map<string, int>)
    requires !Extract(row, ["VALUES"]).VObj?
    ensures var r := RecordsOf(row, rowIndex, pageIndex, codeOrder);
      r.Ok? && |r.value| == (if SeriesCodeOf(row) == "" || Extract(row, ["SURVEY_DATES"]).VNull? then 0 else 1)
  {
    var code := SeriesCodeOf(row);
    var survey := Extract(row, ["SURVEY_DATES"]);
    var r := RecordsOf(row, rowIndex, pageIndex, codeOrder);
    if code == "" || survey.VNull? {
      assert r == Ok([]);
    } else {
      var field := Extract(row, ["VALUES"]);
      assert r == Ok([MakeRecord(row, code, pageIndex, rowIndex, codeOrder, survey, field, FLAT_KNOWN_KEYS)]);
    }
  }

  /** A nested row gives exactly one record per survey date, or the TypeError of a non-iterable list. */
  lemma NestedRowCount(row: Dict, rowIndex: int, pageIndex: int, codeOrder: map<string, int>)
    requires SeriesCodeOf(row) != "" && Extract(row, ["VALUES"]).VObj?
    ensures var r := RecordsOf(row, rowIndex, pageIndex, codeOrder);
      var lists := NestedLists(Extract(row, ["VALUES"]).entries);
      (r.Ok? <==> lists.Ok?) && (r.Ok? ==> |r.value| == |lists.value.0|)
  {
    var code := SeriesCodeOf(row);
    var lists := NestedLists(Extract(row, ["VALUES"]).entries);
    var r := RecordsOf(row, rowIndex, pageIndex, codeOrder);
    if lists.Ok? {
      assert r == Ok(NestedRecords(row, code, pageIndex, rowIndex, codeOrder, lists.value.0, lists.value.1));
    } else {
      assert r == Err(lists.error);
    }
  }

  /** The records of one row, given the row and its position on the page. */
  type RowRecordsFn = (Dict, nat) -> Result<seq<TimeSeriesRecord>>

  /** Rows in order: each row's records follow those of the rows before it; the first error stops the walk. */
  function Collect(rows: seq<Dict>, f: RowRecordsFn): Result<seq<TimeSeriesRecord>>
    decreases |rows|
  {
    if |rows| == 0 then Ok([])
    else
      var prev :- Collect(rows[..|rows| - 1], f);
      var recs :- f(rows[|rows| - 1], |rows| - 1);
      Ok(prev + recs)
  }

  function RowsOfPage(pageIndex: int, codeOrder: map<string, int>): RowRecordsFn {
    (raw: Dict, i: nat) => RecordsOf(NormalizeRow(raw), i, pageIndex, codeOrder)
  }

  /** `expand_timeseries_rows`: the records of every row of a page, in row order. */
  function ExpandSpec(rows: seq<Dict>, pageIndex: int, codeOrder: map<string, int>): Result<seq<TimeSeriesRecord>> {
    Collect(rows, RowsOfPage(pageIndex, codeOrder))
  }

  /** A record of page `pageIndex` that came from one of its first `n` rows. */
  predicate FromPage(rec: TimeSeriesRecord, pageIndex: int, n: int, codeOrder: map<string, int>) {
    && rec.sourcePageIndex == pageIndex && 0 <= rec.sourceRowIndex < n && rec.seriesCode != ""
    && rec.originalCodeIndex == OriginalIndex(codeOrder, rec.seriesCode)
  }

  /** The records come out in row order. */
  predicate RowOrdered(recs: seq<TimeSeriesRecord>) {
    forall i, j :: 0 <= i < j < |recs| ==> recs[i].sourceRowIndex <= recs[j].sourceRowIndex
  }

  /** A record of row `rowIndex` of page `pageIndex`, carrying its code's position in the request. */
  predicate RowTagged(rec: TimeSeriesRecord, pageIndex: int, rowIndex: int, codeOrder: map<string, int>) {
    && rec.seriesCode != "" && rec.sourcePageIndex == pageIndex && rec.sourceRowIndex == rowIndex
    && rec.originalCodeIndex == OriginalIndex(codeOrder, rec.seriesCode)
  }

  /** Every record a row function gives for row `i` is tagged with that row. */
  ghost predicate TagsRows(f: RowRecordsFn, pageIndex: int, codeOrder: map<string, int>) {
    forall raw: Dict, i: nat :: f(raw, i).Ok? ==>
      forall j :: 0 <= j < |f(raw, i).value| ==> RowTagged(f(raw, i).value[j], pageIndex, i, codeOrder)
  }

  /** Appending the records of a later row keeps both facts. */
  lemma AppendRowRecords(prev: seq<TimeSeriesRecord>, recs: seq<TimeSeriesRecord>, pageIndex: int,
                         k: nat, codeOrder: map<string, int>)
    requires forall i :: 0 <= i < |prev| ==> FromPage(prev[i], pageIndex, k, codeOrder)
    requires RowOrdered(prev)
    requires forall j :: 0 <= j < |recs| ==> RowTagged(recs[j], pageIndex, k, codeOrder)
    ensures forall i :: 0 <= i < |prev + recs| ==> FromPage((prev + recs)[i], pageIndex, k + 1, codeOrder)
    ensures RowOrdered(prev + recs)
  {
    var all := prev + recs;
    forall i | 0 <= i < |all| ensures FromPage(all[i], pageIndex, k + 1, codeOrder) {
      if i >= |prev| {
        assert all[i] == recs[i - |prev|];
      } else {
        assert all[i] == prev[i];
      }
    }
    forall i, j | 0 <= i < j < |all| ensures all[i].sourceRowIndex <= all[j].sourceRowIndex {
      if j >= |prev| {
        assert all[j] == recs[j - |prev|];
        if i >= |prev| {
          assert all[i] == recs[i - |prev|];
        } else {
          assert all[i] == prev[i];
        }
      } else {
        assert all[i] == prev[i] && all[j] == prev[j];
      }
    }
  }

  /** One more row: its records follow those of the rows before it, or its error replaces them. */
  lemma CollectLast(rows: seq<Dict>, f: RowRecordsFn)
    requires |rows| > 0
    ensures var prev := Collect(rows[..|rows| - 1], f);
      var recs := f(rows[|rows| - 1], |rows| - 1);
      Collect(rows, f)
        == if prev.Err? then Err(prev.error) else if recs.Err? then Err(recs.error) else Ok(prev.value + recs.value)
  {
  }

  /** Walking rows whose records are tagged with their row keeps every record on the page and in row order. */
  lemma {:induction false} CollectProvenance(rows: seq<Dict>, f: RowRecordsFn, pageIndex: int, codeOrder: map<string, int>)
    requires TagsRows(f, pageIndex, codeOrder)
    ensures var r := Collect(rows, f);
      r.Ok? ==>
        && (forall i :: 0 <= i < |r.value| ==> FromPage(r.value[i], pageIndex, |rows|, codeOrder))
        && RowOrdered(r.value)
    decreases |rows|
  {
    if |rows| > 0 {
      var k := |rows| - 1;
      CollectLast(rows, f);
      CollectProvenance(rows[..k], f, pageIndex, codeOrder);
      var prev := Collect(rows[..k], f);
      var recs := f(rows[k], k);
      if prev.Ok? && recs.Ok? {
        AppendRowRecords(prev.value, recs.value, pageIndex, k, codeOrder);
      }
    }
  }

  /** The row function of a page tags each record with its row. */
  lemma RowsOfPageTagged(pageIndex: int, codeOrder: map<string, int>)
    ensures TagsRows(RowsOfPage(pageIndex, codeOrder), pageIndex, codeOrder)
  {
    var f := RowsOfPage(pageIndex, codeOrder);
    forall raw: Dict, i: nat | f(raw, i).Ok?
      ensures forall j :: 0 <= j < |f(raw, i).value| ==> RowTagged(f(raw, i).value[j], pageIndex, i, codeOrder)
    {
      var recs := f(raw, i).value;
      RecordsOfProvenance(NormalizeRow(raw), i, pageIndex, codeOrder);
      forall j | 0 <= j < |recs| ensures RowTagged(recs[j], pageIndex, i, codeOrder) {
        assert recs[j] in recs;
      }
    }
  }

  /**
   * Every record names its page, its row and the code's position in the
   * request, has a non-empty series code, and records come out in row order.
   */
  lemma ExpandProvenance(rows: seq<Dict>, pageIndex: int, codeOrder: map<string, int>)
    ensures var r := ExpandSpec(rows, pageIndex, codeOrder);
      r.Ok? ==>
        && (forall i :: 0 <= i < |r.value| ==> FromPage(r.value[i], pageIndex, |rows|, codeOrder))
        && RowOrdered(r.value)
  {
    RowsOfPageTagged(pageIndex, codeOrder);
    CollectProvenance(rows, RowsOfPage(pageIndex, codeOrder), pageIndex, codeOrder);
  }

  lemma CollectStep(rows: seq<Dict>, i: nat, f: RowRecordsFn, result: seq<TimeSeriesRecord>)
    requires i < |rows| && Collect(rows[..i], f) == Ok(result)
    ensures Collect(rows[..i + 1], f)
      == match f(rows[i], i)
         case Ok(recs) => Ok(result + recs)
         case Err(e) => Err(e)
  {
    assert rows[..i + 1][..i] == rows[..i];
    CollectLast(rows[..i + 1], f);
  }

  /** Appending one more record of a nested row. */
  lemma NestedStep(all: seq<TimeSeriesRecord>, result: seq<TimeSeriesRecord>, out: seq<TimeSeriesRecord>,
                   idx: nat, rec: TimeSeriesRecord)
    requires idx < |all| && out == result + all[..idx] && rec == all[idx]
    ensures out + [rec] == result + all[..idx + 1]
  {
    assert all[..idx + 1] == all[..idx] + [all[idx]];
  }

  /** The inner loop over a nested row's survey dates. */
  method AppendNested(row: Dict, code: string, pageIndex: int, rowIndex: int, codeOrder: map<string, int>,
                      dates: seq<Value>, values: seq<Value>, result: seq<TimeSeriesRecord>)
    returns (out: seq<TimeSeriesRecord>)
    ensures out == result + NestedRecords(row, code, pageIndex, rowIndex, codeOrder, dates, values)
  {
    ghost var all := NestedRecords(row, code, pageIndex, rowIndex, codeOrder, dates, values);
    out := result;
    for idx := 0 to |dates|
      invariant out == result + all[..idx]
    {
      var value := if idx < |values| then values[idx] else VNull;
      var rec := MakeRecord(row, code, pageIndex, rowIndex, codeOrder, dates[idx], value, NESTED_KNOWN_KEYS);
      NestedStep(all, result, out, idx, rec);
      out := out + [rec];
    }
    assert all[..|dates|] == all;
  }

  /** A row whose VALUES is a mapping: its SURVEY_DATES and VALUES lists are read, then one record per date. */
  method ExpandNested(row: Dict, code: string, entries: Dict, pageIndex: int, rowIndex: int,
                      codeOrder: map<string, int>, result: seq<TimeSeriesRecord>)
    returns (r: Result<seq<TimeSeriesRecord>>)
    ensures r == match NestedLists(entries)
      case Ok(lists) => Ok(result + NestedRecords(row, code, pageIndex, rowIndex, codeOrder, lists.0, lists.1))
      case Err(e) => Err(e)
  {
    var nested := NormalizeRow(entries);
    var dates := ListOrEmpty(Get(nested, "SURVEY_DATES"));
    if dates.Err? {
      return Err(dates.error);
    }
    var values := ListOrEmpty(Get(nested, "VALUES"));
    if values.Err? {
      return Err(values.error);
    }
    var out := AppendNested(row, code, pageIndex, rowIndex, codeOrder, dates.value, values.value, result);
    return Ok(out);
  }

  /** The body of `expand_timeseries_rows`' row loop: appends one normalised row's records to `result`. */
  method ExpandRow(row: Dict, rowIndex: int, pageIndex: int, codeOrder: map<string, int>, result: seq<TimeSeriesRecord>)
    returns (r: Result<seq<TimeSeriesRecord>>)
    ensures r == match RecordsOf(row, rowIndex, pageIndex, codeOrder)
      case Ok(recs) => Ok(result + recs)
      case Err(e) => Err(e)
  {
    var code := SeriesCodeOf(row);
    if code == "" {
      assert result + [] == result;
      return Ok(result);
    }
    var valuesField := Extract(row, ["VALUES"]);
    if valuesField.VObj? {
      RecordsOfNested(row, rowIndex, pageIndex, codeOrder);
      r := ExpandNested(row, code, valuesField.entries, pageIndex, rowIndex, codeOrder, result);
      return;
    }
    RecordsOfFlat(row, rowIndex, pageIndex, codeOrder);
    var survey := Extract(row, ["SURVEY_DATES"]);
    if survey.VNull? {
      assert result + [] == result;
      return Ok(result);
    }
    var rec := MakeRecord(row, code, pageIndex, rowIndex, codeOrder, survey, valuesField, FLAT_KNOWN_KEYS);
    return Ok(result + [rec]);
  }

  lemma RecordsOfNested(row: Dict, rowIndex: int, pageIndex: int, codeOrder: map<string, int>)
    requires SeriesCodeOf(row) != "" && Extract(row, ["VALUES"]).VObj?
    ensures RecordsOf(row, rowIndex, pageIndex, codeOrder)
      == match NestedLists(Extract(row, ["VALUES"]).entries)
         case Ok(lists) => Ok(NestedRecords(row, SeriesCodeOf(row), pageIndex, rowIndex, codeOrder, lists.0, lists.1))
         case Err(e) => Err(e)
  {
  }

  lemma RecordsOfFlat(row: Dict, rowIndex: int, pageIndex: int, codeOrder: map<string, int>)
    requires SeriesCodeOf(row) != "" && !Extract(row, ["VALUES"]).VObj?
    ensures var survey := Extract(row, ["SURVEY_DATES"]);
      RecordsOf(row, rowIndex, pageIndex, codeOrder)
      == if survey.VNull? then Ok([])
         else Ok([MakeRecord(row, SeriesCodeOf(row), pageIndex, rowIndex, codeOrder, survey, Extract(row, ["VALUES"]), FLAT_KNOWN_KEYS)])
  {
  }

  /** The first failing row decides: the rows after it are never looked at. */
  lemma {:induction false} CollectErrorSticky(rows: seq<Dict>, i: nat, f: RowRecordsFn)
    requires i <= |rows| && Collect(rows[..i], f).Err?
    ensures Collect(rows, f) == Collect(rows[..i], f)
    decreases |rows|
  {
    if i == |rows| {
      assert rows[..i] == rows;
    } else {
      var k := |rows| - 1;
      assert rows[..k][..i] == rows[..i];
      CollectErrorSticky(rows[..k], i, f);
      CollectLast(rows, f);
    }
  }

  /** `expand_timeseries_rows`: each row's keys are normalised, then its records appended in row order. */
  method ExpandTimeseriesRows(rows: seq<Dict>, pageIndex: int, codeOrder: map<string, int>)
    returns (r: Result<seq<TimeSeriesRecord>>)
    ensures r == ExpandSpec(rows, pageIndex, codeOrder)
  {
    ghost var f := RowsOfPage(pageIndex, codeOrder);
    var result: seq<TimeSeriesRecord> := [];
    assert rows[..0] == [];
    for rowIndex := 0 to |rows|
      invariant Collect(rows[..rowIndex], f) == Ok(result)
    {
      CollectStep(rows, rowIndex, f, result);
      assert f(rows[rowIndex], rowIndex) == RecordsOf(NormalizeRow(rows[rowIndex]), rowIndex, pageIndex, codeOrder);
      var next := ExpandRow(NormalizeRow(rows[rowIndex]), rowIndex, pageIndex, codeOrder, result);
      if next.Err? {
        CollectErrorSticky(rows, rowIndex + 1, f);
        return Err(next.error);
      }
      result := next.value;
    }
    assert rows[..|rows|] == rows;
    return Ok(result);
  }
}
