/**
 * Input normalisation and the checks run before any request is sent:
 * codes, layers, periods, the start position, raw parameter overrides and
 * the canonical parameter list hashed into a request fingerprint.
 *
 * Every check that raises `BojValidationError` in the library returns
 * `Err(ValidationError(code))` here, with the library's validation code.
 */
module Validation {
  import opened Text
  import opened Values
  import opened Errors
  import Json
  import Sorting

  datatype Frequency = CY | FY | CH | FH | Q | M | W | D {
    /** The enum's string value. */
    function Code(): string {
      match this
      case CY => "CY" case FY => "FY" case CH => "CH" case FH => "FH"
      case Q => "Q" case M => "M" case W => "W" case D => "D"
    }
  }

  /** A code or layer argument: one comma-separated string, or a list of items rendered with `str`. */
  datatype ListInput = Joined(text: string) | Listed(items: seq<Value>)

  const CORE_PARAM_KEYS: set<string> :=
    {"DB", "CODE", "LAYER", "FREQUENCY", "STARTDATE", "ENDDATE", "STARTPOSITION", "LANG", "FORMAT"}

  predicate IsForbidden(c: char) {
    c in {'<', '>', '"', '!', '|', '\\', '¥', ';', '\''}
  }

  /**
   * East Asian Wide or Fullwidth characters: the main blocks of the Unicode
   * table `unicodedata.east_asian_width` consults.
   */
  predicate IsFullWidth(c: char) {
    var n := c as int;
    (0x1100 <= n <= 0x115F) || (0x2E80 <= n <= 0x303E) || (0x3041 <= n <= 0x33FF)
    || (0x3400 <= n <= 0x4DBF) || (0x4E00 <= n <= 0x9FFF) || (0xA000 <= n <= 0xA4CF)
    || (0xAC00 <= n <= 0xD7A3) || (0xF900 <= n <= 0xFAFF) || (0xFE30 <= n <= 0xFE4F)
    || (0xFF00 <= n <= 0xFF60) || (0xFFE0 <= n <= 0xFFE6) || (0x20000 <= n <= 0x3FFFD)
  }

  /** Rejects forbidden characters first, then full-width ones. */
  function ValidateOutboundText(value: string): (r: Result<()>)
    ensures r.Ok? <==> forall i :: 0 <= i < |value| ==> !IsForbidden(value[i]) && !IsFullWidth(value[i])
    ensures r.Err? && (exists i :: 0 <= i < |value| && IsForbidden(value[i])) ==>
      r.error == ValidationError("forbidden_character")
    ensures r.Err? && (forall i :: 0 <= i < |value| ==> !IsForbidden(value[i])) ==>
      r.error == ValidationError("full_width_not_allowed")
  {
    if exists i :: 0 <= i < |value| && IsForbidden(value[i]) then Err(ValidationError("forbidden_character"))
    else if exists i :: 0 <= i < |value| && IsFullWidth(value[i]) then Err(ValidationError("full_width_not_allowed"))
    else Ok(())
  }

  /** Every item, in order, passes the outbound check; the first failure is reported. */
  function ValidateAll(items: seq<string>): (r: Result<()>)
    ensures r.Ok? <==> forall k :: 0 <= k < |items| ==> ValidateOutboundText(items[k]).Ok?
    ensures r.Err? ==> exists k :: 0 <= k < |items| && r == ValidateOutboundText(items[k])
  {
    if |items| == 0 then Ok(())
    else match ValidateOutboundText(items[0])
      case Err(e) => Err(e)
      case Ok(_) =>
        var rest := ValidateAll(items[1..]);
        assert forall k :: 1 <= k < |items| ==> items[k] == items[1..][k - 1];
        rest
  }

  /** The stripped pieces of the input. */
  function Pieces(input: ListInput): (ps: seq<string>)
    ensures forall k :: 0 <= k < |ps| ==> Strip(ps[k]) == ps[k]
  {
    var raw := match input
      case Joined(text) => Split(text, ',')
      case Listed(items) => seq(|items|, k requires 0 <= k < |items| => Render(items[k]));
    seq(|raw|, k requires 0 <= k < |raw| => StripIdempotent(raw[k]); Strip(raw[k]))
  }

  /** `[v for v in values if v]`. */
  function NonEmpty(values: seq<string>): (r: seq<string>)
    ensures forall k :: 0 <= k < |r| ==> r[k] != "" && r[k] in values
    ensures forall v :: v in values && v != "" ==> v in r
    ensures |r| <= |values|
  {
    if |values| == 0 then []
    else (if values[0] == "" then [] else [values[0]]) + NonEmpty(values[1..])
  }

  /** Series codes: stripped, empty pieces dropped, at least one required. */
  function NormalizeCodes(input: ListInput): (r: Result<seq<string>>)
    ensures r.Ok? ==> r.value == NonEmpty(Pieces(input)) && |r.value| > 0
    ensures NonEmpty(Pieces(input)) == [] <==> r == Err(ValidationError("missing_code"))
    ensures r.Ok? <==> NonEmpty(Pieces(input)) != [] && ValidateAll(NonEmpty(Pieces(input))).Ok?
  {
    var codes := NonEmpty(Pieces(input));
    if codes == [] then Err(ValidationError("missing_code"))
    else
      var _ :- ValidateAll(codes);
      Ok(codes)
  }

  predicate IsLayerItem(item: string) {
    item == "*" || IsDigits(item)
  }

  /** LAYERn checks: each item is `*` or digits, and passes the outbound check. */
  function ValidateLayerItems(items: seq<string>): (r: Result<()>)
    ensures r.Ok? <==> forall k :: 0 <= k < |items| ==> IsLayerItem(items[k])
    ensures r.Err? ==> r.error == ValidationError("invalid_layer")
  {
    if |items| == 0 then Ok(())
    else if !IsLayerItem(items[0]) then Err(ValidationError("invalid_layer"))
    else
      var _ :- ValidateOutboundText(items[0]);
      var rest := ValidateLayerItems(items[1..]);
      assert forall k :: 1 <= k < |items| ==> items[k] == items[1..][k - 1];
      rest
  }

  /** Layers: one to five items, each `*` or digits. */
  function NormalizeLayer(input: ListInput): (r: Result<seq<string>>)
    ensures var vs := NonEmpty(Pieces(input));
      && (r.Ok? <==> 1 <= |vs| <= 5 && forall k :: 0 <= k < |vs| ==> IsLayerItem(vs[k]))
      && (r.Ok? ==> r.value == vs)
      && (vs == [] ==> r == Err(ValidationError("missing_layer")))
      && (|vs| > 5 ==> r == Err(ValidationError("too_many_layers")))
      && (1 <= |vs| <= 5 && !IsLayerItem(vs[0]) ==> r == Err(ValidationError("invalid_layer1")))
      && (1 <= |vs| <= 5 && IsLayerItem(vs[0]) && r.Err? ==> r == Err(ValidationError("invalid_layer")))
  {
    var values := NonEmpty(Pieces(input));
    if values == [] then Err(ValidationError("missing_layer"))
    else if |values| > 5 then Err(ValidationError("too_many_layers"))
    else if !IsLayerItem(values[0]) then Err(ValidationError("invalid_layer1"))
    else
      var _ :- ValidateLayerItems(values);
      Ok(values)
  }

  /** YYYY or YYYYMM, in ASCII digits. */
  predicate PeriodShaped(period: string) {
    (|period| == 4 || |period| == 6) && IsDigits(period)
  }

  /** The year and the two-digit suffix of a period already checked to be YYYY or YYYYMM. */
  function PeriodKey(period: string): (key: (nat, nat))
    requires PeriodShaped(period)
    ensures key.0 == DigitsValue(period[..4])
    ensures |period| == 4 ==> key.1 == 0
    ensures |period| == 6 ==> key.1 == TwoDigits(period[4..6])
  {
    assert IsDigits(period[..4]);
    (DigitsValue(period[..4]), if |period| == 6 then TwoDigits(period[4..6]) else 0)
  }

  function TwoDigits(s: string): (n: nat)
    requires |s| == 2 && IsDigits(s)
    ensures n <= 99
  {
    assert s[..1] == [s[0]];
    assert DigitsValue(s[..1]) < 10;
    DigitsValue(s)
  }

  /** Python's tuple comparison `a > b`. */
  predicate KeyGreater(a: (nat, nat), b: (nat, nat)) {
    a.0 > b.0 || (a.0 == b.0 && a.1 > b.1)
  }

  predicate YearInRange(period: string)
    requires PeriodShaped(period)
  {
    assert IsDigits(period[..4]);
    1850 <= DigitsValue(period[..4]) <= 2050
  }

  /** Four digits for the annual frequencies, six for every other one. */
  predicate PeriodWidthOk(period: string, frequency: Frequency) {
    |period| == (if frequency in {CY, FY} then 4 else 6) && IsDigits(period)
  }

  /** The sub-year part of a six-digit period names a half, a quarter or a month that exists. */
  predicate SubYearOk(period: string, frequency: Frequency)
    requires PeriodWidthOk(period, frequency)
  {
    && (frequency in {CH, FH} ==> period[4..6] in {"01", "02"})
    && (frequency == Q ==> period[4..6] in {"01", "02", "03", "04"})
    && (frequency in {M, W, D} ==> 1 <= TwoDigits(period[4..6]) <= 12)
  }

  /** A period for the layer API, whose shape depends on the frequency. */
  function ValidatePeriodFormat(period: string, frequency: Frequency): (r: Result<()>)
    ensures r.Ok? ==> (|period| == (if frequency in {CY, FY} then 4 else 6) && IsDigits(period)
                       && 1850 <= DigitsValue(period[..4]) <= 2050)
    ensures r.Ok? && frequency in {CH, FH} ==> period[4..6] in {"01", "02"}
    ensures r.Ok? && frequency == Q ==> period[4..6] in {"01", "02", "03", "04"}
    ensures r.Ok? && frequency in {M, W, D} ==> 1 <= TwoDigits(period[4..6]) <= 12
    ensures r.Ok? <==> PeriodWidthOk(period, frequency) && 1850 <= DigitsValue(period[..4]) <= 2050
                       && SubYearOk(period, frequency)
    ensures !PeriodWidthOk(period, frequency) ==> r == Err(ValidationError("invalid_period_format"))
    ensures PeriodWidthOk(period, frequency) && !(1850 <= DigitsValue(period[..4]) <= 2050) ==>
      r == Err(ValidationError("period_out_of_range"))
    ensures PeriodWidthOk(period, frequency) && 1850 <= DigitsValue(period[..4]) <= 2050 ==>
      && (frequency in {CH, FH} && period[4..6] !in {"01", "02"} ==> r == Err(ValidationError("invalid_half")))
      && (frequency == Q && period[4..6] !in {"01", "02", "03", "04"} ==> r == Err(ValidationError("invalid_quarter")))
      && (frequency in {M, W, D} && !(1 <= TwoDigits(period[4..6]) <= 12) ==> r == Err(ValidationError("invalid_month")))
  {
    var width := if frequency in {CY, FY} then 4 else 6;
    if !(|period| == width && IsDigits(period)) then Err(ValidationError("invalid_period_format"))
    else
      assert IsDigits(period[..4]);
      assert PeriodShaped(period);
      if !YearInRange(period) then Err(ValidationError("period_out_of_range"))
      else if |period| == 6 && frequency in {CH, FH} && period[4..6] !in {"01", "02"} then
        Err(ValidationError("invalid_half"))
      else if |period| == 6 && frequency == Q && period[4..6] !in {"01", "02", "03", "04"} then
        Err(ValidationError("invalid_quarter"))
      else if |period| == 6 && frequency in {M, W, D} && !(1 <= TwoDigits(period[4..6]) <= 12) then
        Err(ValidationError("invalid_month"))
      else Ok(())
  }

  /** A period for the code API: YYYY or YYYYMM, year 1850 to 2050, month 01 to 12. */
  function ValidateCodePeriodFormat(period: string): (r: Result<()>)
    ensures r.Ok? <==> (PeriodShaped(period) && 1850 <= DigitsValue(period[..4]) <= 2050
                        && (|period| == 6 ==> 1 <= TwoDigits(period[4..6]) <= 12))
    ensures !((|period| == 4 || |period| == 6) && IsDigits(period)) ==>
      r == Err(ValidationError("invalid_code_period_format"))
  {
    if !PeriodShaped(period) then
      Err(ValidationError("invalid_code_period_format"))
    else
      assert IsDigits(period[..4]);
      if !YearInRange(period) then Err(ValidationError("period_out_of_range"))
      else if |period| == 6 && !(1 <= TwoDigits(period[4..6]) <= 12) then Err(ValidationError("invalid_month"))
      else Ok(())
  }

  function StripOpt(s: Option<string>): Option<string> {
    if s.Some? then Some(Strip(s.value)) else None
  }

  predicate Given(s: Option<string>) {
    s.Some? && s.value != ""
  }

  /** A period passed to either API: the outbound check, then the format check. */
  function CheckPeriod(period: string, codeApi: bool, frequency: Frequency): (r: Result<()>)
    ensures r.Ok? ==> ValidateOutboundText(period).Ok? && PeriodShaped(period)
    ensures r.Ok? && codeApi ==> ValidateCodePeriodFormat(period).Ok?
    ensures r.Ok? && !codeApi ==> ValidatePeriodFormat(period, frequency).Ok?
  {
    var _ :- ValidateOutboundText(period);
    if codeApi then ValidateCodePeriodFormat(period) else ValidatePeriodFormat(period, frequency)
  }

  /** A period that is absent, empty, or passes its checks. */
  predicate PeriodOk(p: Option<string>, codeApi: bool, frequency: Frequency) {
    !Given(p) || CheckPeriod(p.value, codeApi, frequency).Ok?
  }

  /** Both periods pass their checks and the start is not after the end. */
  predicate PeriodsOk(s: Option<string>, e: Option<string>, codeApi: bool, frequency: Frequency) {
    PeriodOk(s, codeApi, frequency) && PeriodOk(e, codeApi, frequency)
    && !(Given(s) && Given(e) && KeyGreater(PeriodKey(s.value), PeriodKey(e.value)))
  }

  /** Checks the stripped start, then the stripped end, then their order. */
  function CheckPeriods(s: Option<string>, e: Option<string>, codeApi: bool, frequency: Frequency)
    : (r: Result<(Option<string>, Option<string>)>)
    ensures r.Ok? <==> PeriodsOk(s, e, codeApi, frequency)
    ensures r.Ok? ==> r.value == (s, e)
    ensures r.Err? && PeriodOk(s, codeApi, frequency) && PeriodOk(e, codeApi, frequency) ==>
      r.error == ValidationError("period_order")
  {
    var _ :- if Given(s) then CheckPeriod(s.value, codeApi, frequency) else Ok(());
    var _ :- if Given(e) then CheckPeriod(e.value, codeApi, frequency) else Ok(());
    if Given(s) && Given(e) && KeyGreater(PeriodKey(s.value), PeriodKey(e.value)) then
      Err(ValidationError("period_order"))
    else Ok((s, e))
  }

  /** `normalize_periods`, for the layer API. */
  function NormalizePeriods(start: Option<string>, end: Option<string>, frequency: Frequency)
    : (r: Result<(Option<string>, Option<string>)>)
    ensures r.Ok? <==> PeriodsOk(StripOpt(start), StripOpt(end), false, frequency)
    ensures r.Ok? ==> r.value == (StripOpt(start), StripOpt(end))
    ensures r.Ok? && Given(StripOpt(start)) ==> ValidatePeriodFormat(StripOpt(start).value, frequency).Ok?
    ensures r.Ok? && Given(StripOpt(end)) ==> ValidatePeriodFormat(StripOpt(end).value, frequency).Ok?
  {
    CheckPeriods(StripOpt(start), StripOpt(end), false, frequency)
  }

  /** `normalize_code_periods`, for the code API. */
  function NormalizeCodePeriods(start: Option<string>, end: Option<string>)
    : (r: Result<(Option<string>, Option<string>)>)
    ensures r.Ok? <==> PeriodsOk(StripOpt(start), StripOpt(end), true, CY)
    ensures r.Ok? ==> r.value == (StripOpt(start), StripOpt(end))
    ensures r.Ok? && Given(StripOpt(start)) ==> ValidateCodePeriodFormat(StripOpt(start).value).Ok?
    ensures r.Ok? && Given(StripOpt(end)) ==> ValidateCodePeriodFormat(StripOpt(end).value).Ok?
  {
    CheckPeriods(StripOpt(start), StripOpt(end), true, CY)
  }

  /** The key of a six-digit period is its year and month. */
  lemma PeriodKeyExample()
    ensures PeriodKey("202412") == (2024, 12)
  {
    assert "202412"[..4] == "2024" && "202412"[4..6] == "12";
    assert "2024"[..3] == "202" && "202"[..2] == "20" && "20"[..1] == "2";
    assert "12"[..1] == "1";
  }

  /** For the code API, 202412 to 202401 is rejected with `period_order`. */
  lemma CodePeriodsReversed()
    ensures CheckPeriods(Some("202412"), Some("202401"), true, CY) == Err(ValidationError("period_order"))
  {
    PeriodKeyExample();
    PeriodKeyJanuary();
    CodePeriodOk("202412");
    CodePeriodOk("202401");
    PeriodsOutOfOrder("202412", "202401", true, CY);
  }

  /** Both example periods pass the code API's checks. */
  lemma CodePeriodOk(p: string)
    requires p == "202412" || p == "202401"
    ensures CheckPeriod(p, true, CY).Ok?
  {
    if p == "202412" {
      PeriodKeyExample();
    } else {
      PeriodKeyJanuary();
    }
    assert PeriodShaped(p);
  }

  lemma PeriodKeyJanuary()
    ensures PeriodKey("202401") == (2024, 1)
  {
    assert "202401"[..4] == "2024" && "202401"[4..6] == "01";
    assert "2024"[..3] == "202" && "202"[..2] == "20" && "20"[..1] == "2";
    assert "01"[..1] == "0";
  }

  /** Two periods that each pass but are out of order give `period_order`. */
  lemma PeriodsOutOfOrder(s: string, e: string, codeApi: bool, frequency: Frequency)
    requires s != "" && e != ""
    requires CheckPeriod(s, codeApi, frequency).Ok? && CheckPeriod(e, codeApi, frequency).Ok?
    requires KeyGreater(PeriodKey(s), PeriodKey(e))
    ensures CheckPeriods(Some(s), Some(e), codeApi, frequency) == Err(ValidationError("period_order"))
  {
  }

  datatype PositionInput = PositionInt(i: int) | PositionText(text: string)

  /** The start position: absent, or an integer of at least 1 (text must be digits). */
  function NormalizeStartPosition(value: Option<PositionInput>): (r: Result<Option<int>>)
    ensures value.None? <==> r == Ok(None)
    ensures r.Ok? && r.value.Some? ==> r.value.value >= 1
    ensures r.Err? ==> r.error == ValidationError("invalid_start_position")
    ensures value.Some? && value.value.PositionText? ==>
      (r.Ok? <==> IsDigits(Strip(value.value.text)) && DigitsValue(Strip(value.value.text)) >= 1)
    ensures value.Some? && value.value.PositionInt? ==>
      (r.Ok? <==> value.value.i >= 1) && (r.Ok? ==> r.value == Some(value.value.i))
  {
    match value
    case None => Ok(None)
    case Some(v) =>
      var parsed :- match v
        case PositionInt(i) => Ok(i)
        case PositionText(text) =>
          var raw := Strip(text);
          if !IsDigits(raw) then Err(ValidationError("invalid_start_position")) else Ok(DigitsValue(raw));
      if parsed < 1 then Err(ValidationError("invalid_start_position")) else Ok(Some(parsed))
  }

  /** `strict_api` and `auto_split_codes` cannot both be on. */
  function ValidateStrictAutoSplit(strictApi: bool, autoSplitCodes: bool): (r: Result<()>)
    ensures r.Ok? <==> !(strictApi && autoSplitCodes)
    ensures r.Err? ==> r.error.ValueError?
  {
    if strictApi && autoSplitCodes then Err(ValueError("strict_api=True と auto_split_codes=True は同時指定不可"))
    else Ok(())
  }

  /** A raw parameter name as sent: stripped and upper-cased. */
  function NormalizeParamKey(key: string): string {
    Upper(Strip(key))
  }

  /** The raw entries with their keys normalised. */
  function NormalizedEntries(entries: seq<(string, string)>): (r: seq<(string, string)>)
    ensures |r| == |entries|
    ensures forall i :: 0 <= i < |entries| ==> r[i] == (NormalizeParamKey(entries[i].0), entries[i].1)
  {
    seq(|entries|, i requires 0 <= i < |entries| => (NormalizeParamKey(entries[i].0), entries[i].1))
  }

  /**
   * The raw-parameter loop from `normalized` on, over the remaining entries,
   * whose keys are already normalised.
   */
  function RawParamsFrom(normalized: Dict, entries: seq<(string, string)>): (r: Result<Dict>)
    decreases |entries|
  {
    if |entries| == 0 then Ok(normalized)
    else
      var key := entries[0].0;
      if key == "" then RawParamsFrom(normalized, entries[1..])
      else if key in CORE_PARAM_KEYS then Err(ValidationError("raw_override_core_forbidden"))
      else RawParamsFrom(Set(normalized, key, VStr(entries[0].1)), entries[1..])
  }

  /** The raw-parameter loop fails, with `raw_override_core_forbidden`, exactly when some key normalises to a core parameter. */
  lemma {:induction false} RawParamsRejectsCoreKeys(normalized: Dict, entries: seq<(string, string)>)
    ensures var r := RawParamsFrom(normalized, entries);
      && (r.Ok? <==> forall i :: 0 <= i < |entries| ==> entries[i].0 !in CORE_PARAM_KEYS)
      && (r.Err? ==> r.error == ValidationError("raw_override_core_forbidden"))
    decreases |entries|
  {
    if |entries| > 0 {
      var key := entries[0].0;
      var rest := entries[1..];
      assert forall i :: 1 <= i < |entries| ==> entries[i] == rest[i - 1];
      if key == "" {
        RawParamsRejectsCoreKeys(normalized, rest);
      } else if key !in CORE_PARAM_KEYS {
        RawParamsRejectsCoreKeys(Set(normalized, key, VStr(entries[0].1)), rest);
      }
    }
  }

  /** The parameters the loop builds have distinct, non-empty, non-core keys. */
  lemma {:induction false} RawParamsWellFormed(normalized: Dict, entries: seq<(string, string)>)
    requires DistinctKeys(normalized)
    requires forall k :: 0 <= k < |normalized| ==> normalized[k].0 != "" && normalized[k].0 !in CORE_PARAM_KEYS
    ensures var r := RawParamsFrom(normalized, entries);
      r.Ok? ==> (DistinctKeys(r.value)
                 && forall k :: 0 <= k < |r.value| ==> r.value[k].0 != "" && r.value[k].0 !in CORE_PARAM_KEYS)
    decreases |entries|
  {
    if |entries| > 0 {
      var key := entries[0].0;
      if key == "" {
        RawParamsWellFormed(normalized, entries[1..]);
      } else if key !in CORE_PARAM_KEYS {
        var next := Set(normalized, key, VStr(entries[0].1));
        SetGet(normalized, key, VStr(entries[0].1), key);
        assert forall k :: 0 <= k < |next| ==> next[k].0 == key || next[k].0 == normalized[k].0;
        RawParamsWellFormed(next, entries[1..]);
      }
    }
  }

  /** Every non-empty normalised input key ends up in the result. */
  lemma {:induction false} RawParamsCoversInput(normalized: Dict, entries: seq<(string, string)>)
    ensures var r := RawParamsFrom(normalized, entries);
      r.Ok? ==> forall i :: 0 <= i < |entries| && entries[i].0 != "" ==>
                  HasKey(r.value, entries[i].0)
    decreases |entries|
  {
    if |entries| > 0 {
      var key := entries[0].0;
      var rest := entries[1..];
      assert forall i :: 1 <= i < |entries| ==> entries[i] == rest[i - 1];
      if key == "" {
        RawParamsCoversInput(normalized, rest);
      } else if key !in CORE_PARAM_KEYS {
        var next := Set(normalized, key, VStr(entries[0].1));
        RawParamsCoversInput(next, rest);
        assert HasKey(next, key) by {
          if HasKey(normalized, key) {
            var j :| 0 <= j < |normalized| && normalized[j].0 == key;
            assert next[j].0 == key;
          } else {
            assert next[|normalized|].0 == key;
          }
        }
        RawParamsKeepsKeys(next, rest, key);
      }
    }
  }

  /** A key present before the loop is still present after it. */
  lemma {:induction false} RawParamsKeepsKeys(normalized: Dict, entries: seq<(string, string)>, key: string)
    requires HasKey(normalized, key)
    ensures RawParamsFrom(normalized, entries).Ok? ==> HasKey(RawParamsFrom(normalized, entries).value, key)
    decreases |entries|
  {
    if |entries| > 0 {
      var k := entries[0].0;
      if k == "" {
        RawParamsKeepsKeys(normalized, entries[1..], key);
      } else if k !in CORE_PARAM_KEYS {
        var next := Set(normalized, k, VStr(entries[0].1));
        var j :| 0 <= j < |normalized| && normalized[j].0 == key;
        assert next[j].0 == key;
        RawParamsKeepsKeys(next, entries[1..], key);
      }
    }
  }

  /** `normalize_raw_params`: a loop over the raw dictionary's entries in insertion order. */
  method NormalizeRawParams(rawParams: Option<seq<(string, string)>>, allowRawOverride: bool)
    returns (r: Result<Dict>)
    ensures rawParams.None? || rawParams.value == [] ==> r == Ok([])
    ensures rawParams.Some? ==> r == RawParamsFrom([], NormalizedEntries(rawParams.value))
  {
    if rawParams.None? || rawParams.value == [] {
      return Ok([]);
    }
    var raw := rawParams.value;
    ghost var entries := NormalizedEntries(raw);
    var normalized: Dict := [];
    var i := 0;
    while i < |raw|
      invariant 0 <= i <= |raw|
      invariant RawParamsFrom(normalized, entries[i..]) == RawParamsFrom([], entries)
    {
      assert entries[i..][1..] == entries[i + 1..];
      var key := NormalizeParamKey(raw[i].0);
      if key == "" {
        i := i + 1;
        continue;
      }
      if key in CORE_PARAM_KEYS {
        return Err(ValidationError("raw_override_core_forbidden"));
      }
      normalized := Set(normalized, key, VStr(raw[i].1));
      i := i + 1;
    }
    assert entries[i..] == [];
    return Ok(normalized);
  }

  /** `str(value)` for a parameter, with lists joined by commas and dictionaries by their keys. */
  function RenderParam(v: Value): string {
    match v
    case VList(items) => Join(seq(|items|, k requires 0 <= k < |items| => Render(items[k])), ",")
    case VObj(entries) => Join(Keys(entries), ",")
    case _ => Render(v)
  }

  /** A non-empty list of comma-free texts is rendered so that splitting on commas recovers it. */
  lemma RenderParamSplits(items: seq<string>)
    requires |items| >= 1
    requires forall k, j :: 0 <= k < |items| && 0 <= j < |items[k]| ==> items[k][j] != ','
    ensures Split(RenderParam(VList(seq(|items|, k requires 0 <= k < |items| => VStr(items[k])))), ',') == items
  {
    var vs := seq(|items|, k requires 0 <= k < |items| => VStr(items[k]));
    assert seq(|vs|, k requires 0 <= k < |vs| => Render(vs[k])) == items;
    SplitJoin(items, ',');
  }

  /** The canonical pairs for key-sorted entries: None values skipped, keys upper-cased. */
  function CanonicalFrom(sorted: Dict): (r: seq<(string, string)>)
    ensures |r| <= |sorted|
    ensures |r| == |sorted| <==> forall k :: 0 <= k < |sorted| ==> !sorted[k].1.VNull?
  {
    if |sorted| == 0 then []
    else
      var head := if sorted[0].1.VNull? then [] else [(Upper(sorted[0].0), RenderParam(sorted[0].1))];
      var rest := CanonicalFrom(sorted[1..]);
      assert forall k :: 1 <= k < |sorted| ==> sorted[k] == sorted[1..][k - 1];
      head + rest
  }

  /**
   * `canonical_params`: iterates the keys in sorted order. With distinct keys,
   * looking each sorted key up is the same as walking the key-sorted entries.
   */
  method CanonicalParams(params: Dict) returns (normalized: seq<(string, string)>)
    requires DistinctKeys(params)
    ensures normalized == CanonicalFrom(Sorting.Sort(params, Json.KeyLe))
  {
    var sorted := Sorting.Sort(params, Json.KeyLe);
    normalized := [];
    var i := 0;
    while i < |sorted|
      invariant 0 <= i <= |sorted|
      invariant normalized + CanonicalFrom(sorted[i..]) == CanonicalFrom(sorted)
    {
      var key, value := sorted[i].0, sorted[i].1;
      CanonicalAdvance(sorted, i, normalized);
      if !value.VNull? {
        normalized := normalized + [(Upper(key), RenderParam(value))];
      }
      i := i + 1;
    }
    assert sorted[i..] == [];
  }

  /** One loop step of `CanonicalParams` keeps the walked prefix and the rest adding up to the whole. */
  lemma CanonicalAdvance(sorted: Dict, i: nat, normalized: seq<(string, string)>)
    requires i < |sorted| && normalized + CanonicalFrom(sorted[i..]) == CanonicalFrom(sorted)
    ensures (if sorted[i].1.VNull? then normalized else normalized + [(Upper(sorted[i].0), RenderParam(sorted[i].1))])
      + CanonicalFrom(sorted[i + 1..]) == CanonicalFrom(sorted)
  {
    CanonicalStep(sorted, i);
  }

  lemma CanonicalStep(sorted: Dict, i: nat)
    requires i < |sorted|
    ensures CanonicalFrom(sorted[i..])
      == (if sorted[i].1.VNull? then [] else [(Upper(sorted[i].0), RenderParam(sorted[i].1))])
         + CanonicalFrom(sorted[i + 1..])
  {
    assert sorted[i..][1..] == sorted[i + 1..];
  }

  /**
   * The canonical list depends only on the parameters' contents, not on the
   * order the dictionary was built in.
   */
  lemma CanonicalIgnoresOrder(a: Dict, b: Dict)
    requires DistinctKeys(a) && multiset(a) == multiset(b)
    ensures CanonicalFrom(Sorting.Sort(a, Json.KeyLe)) == CanonicalFrom(Sorting.Sort(b, Json.KeyLe))
  {
    Json.SortByKeyCanonical(a, b);
  }

  /** The parameters, sorted by key before rendering, are in key order and are a permutation of the input. */
  lemma CanonicalSortedByKey(params: Dict)
    ensures var s := Sorting.Sort(params, Json.KeyLe);
      Sorting.Sorted(s, Json.KeyLe) && multiset(s) == multiset(params)
  {
    Json.KeyLeTotalPreorder(params);
    Sorting.SortSorted(params, Json.KeyLe);
  }
}
