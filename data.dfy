/**
 * The data service: how duplicate observations are reconciled, the
 * canonical output order, the publication-window check, the wildcard and
 * cache-key decisions, and the paging loops of the code and layer APIs.
 * Each page the server returns is an input value; the loops consume a
 * scripted sequence of such responses.
 */
module Data {
  import opened Text
  import opened Values
  import opened Errors
  import opened Types
  import opened Config
  import Sorting
  import CodeChunks
  import Validation
  import Normalize
  import Resume
  import Models
  import CodePager
  import LayerPager

  // ---------------------------------------------------------------------
  // Conflict resolution

  /** `(source_page_index, source_row_index)` of `a` is not after that of `b`. */
  predicate RankLe(a: TimeSeriesRecord, b: TimeSeriesRecord) {
    a.sourcePageIndex < b.sourcePageIndex
    || (a.sourcePageIndex == b.sourcePageIndex && a.sourceRowIndex <= b.sourceRowIndex)
  }

  /**
   * `_choose_record`: of a stored record `a` and an incoming duplicate `b`,
   * the one with the later LAST_UPDATE; on equal dates the one seen first.
   */
  function ChooseRecord(a: TimeSeriesRecord, b: TimeSeriesRecord): (r: TimeSeriesRecord)
    ensures r == a || r == b
  {
    if a.lastUpdate.None? then b
    else if b.lastUpdate.None? then a
    else if StrLt(a.lastUpdate.value, b.lastUpdate.value) then b
    else if StrLt(b.lastUpdate.value, a.lastUpdate.value) then a
    else if RankLe(a, b) then a
    else b
  }

  /**
   * An undated stored record always gives way, even to an undated incoming
   * one; an undated incoming record never replaces a dated stored one.
   */
  lemma ChooseRecordUndated(a: TimeSeriesRecord, b: TimeSeriesRecord)
    ensures a.lastUpdate.None? ==> ChooseRecord(a, b) == b
    ensures a.lastUpdate.Some? && b.lastUpdate.None? ==> ChooseRecord(a, b) == a
  {
  }

  /**
   * Of two different dates the later one wins whichever argument carries
   * it, so the choice does not depend on arrival order.
   */
  lemma ChooseRecordLaterDateWins(a: TimeSeriesRecord, b: TimeSeriesRecord)
    requires a.lastUpdate.Some? && b.lastUpdate.Some? && a.lastUpdate != b.lastUpdate
    ensures ChooseRecord(a, b) == ChooseRecord(b, a)
    ensures ChooseRecord(a, b) == (if StrLe(a.lastUpdate.value, b.lastUpdate.value) then b else a)
  {
    var x, y := a.lastUpdate.value, b.lastUpdate.value;
    StrLeTotal(x, y);
    if StrLe(x, y) && StrLe(y, x) {
      StrLeAntisymmetric(x, y);
    }
  }

  /** On equal dates the record from the earlier page and row wins; an exact tie keeps the stored one. */
  lemma ChooseRecordEqualDates(a: TimeSeriesRecord, b: TimeSeriesRecord)
    requires a.lastUpdate.Some? && a.lastUpdate == b.lastUpdate
    ensures RankLe(ChooseRecord(a, b), a) && RankLe(ChooseRecord(a, b), b)
    ensures RankLe(a, b) ==> ChooseRecord(a, b) == a
  {
  }

  /** The chosen record is dated whenever either input is, and no older than either. */
  lemma ChooseRecordKeepsNewest(a: TimeSeriesRecord, b: TimeSeriesRecord)
    ensures a.lastUpdate.Some? ==>
      ChooseRecord(a, b).lastUpdate.Some? && StrLe(a.lastUpdate.value, ChooseRecord(a, b).lastUpdate.value)
    ensures b.lastUpdate.Some? ==>
      ChooseRecord(a, b).lastUpdate.Some? && StrLe(b.lastUpdate.value, ChooseRecord(a, b).lastUpdate.value)
  {
    if a.lastUpdate.Some? {
      StrLeReflexive(a.lastUpdate.value);
    }
    if b.lastUpdate.Some? {
      StrLeReflexive(b.lastUpdate.value);
    }
    if a.lastUpdate.Some? && b.lastUpdate.Some? {
      StrLeTotal(a.lastUpdate.value, b.lastUpdate.value);
    }
  }

  // ---------------------------------------------------------------------
  // Canonical order

  /** `10**9`, the position given to records whose code has no input position. */
  const ABSENT_CODE_INDEX: int := 1_000_000_000

  /** The canonical sort key `(original_code_index or 10**9, series_code, survey_date, last_update or "")`. */
  function SortKey(rec: TimeSeriesRecord): (int, string, string, string) {
    (if rec.originalCodeIndex.Some? then rec.originalCodeIndex.value else ABSENT_CODE_INDEX,
     rec.seriesCode,
     rec.surveyDate,
     if rec.lastUpdate.Some? then rec.lastUpdate.value else "")
  }

  /** Python's `<=` on those key tuples. */
  predicate KeyLe(x: (int, string, string, string), y: (int, string, string, string)) {
    x.0 < y.0
    || (x.0 == y.0 && (StrLt(x.1, y.1)
    || (x.1 == y.1 && (StrLt(x.2, y.2)
    || (x.2 == y.2 && StrLe(x.3, y.3))))))
  }

  predicate CanonicalLe(a: TimeSeriesRecord, b: TimeSeriesRecord) {
    KeyLe(SortKey(a), SortKey(b))
  }

  /** `_sort_records`: the canonical order sorts by key; any other order leaves the list alone. */
  function SortRecords(records: seq<TimeSeriesRecord>, outputOrder: string): (r: seq<TimeSeriesRecord>)
    ensures multiset(r) == multiset(records)
    ensures outputOrder != CANONICAL ==> r == records
  {
    if outputOrder != CANONICAL then records else Sorting.Sort(records, CanonicalLe)
  }

  lemma StrLtTransitive(a: string, b: string, c: string)
    requires StrLe(a, b) && StrLe(b, c)
    requires StrLt(a, b) || StrLt(b, c)
    ensures StrLt(a, c)
  {
    StrLeTransitive(a, b, c);
    if a == c {
      StrLeAntisymmetric(a, b);
    }
  }

  lemma KeyLeTotal(x: (int, string, string, string), y: (int, string, string, string))
    ensures KeyLe(x, y) || KeyLe(y, x)
  {
    StrLeTotal(x.1, y.1);
    StrLeTotal(x.2, y.2);
    StrLeTotal(x.3, y.3);
  }

  lemma KeyLeTransitive(x: (int, string, string, string), y: (int, string, string, string),
                        z: (int, string, string, string))
    requires KeyLe(x, y) && KeyLe(y, z)
    ensures KeyLe(x, z)
  {
    if x.0 == y.0 && y.0 == z.0 {
      if StrLt(x.1, y.1) && StrLt(y.1, z.1) {
        StrLtTransitive(x.1, y.1, z.1);
      } else if x.1 == y.1 && y.1 == z.1 {
        if StrLt(x.2, y.2) && StrLt(y.2, z.2) {
          StrLtTransitive(x.2, y.2, z.2);
        } else if x.2 == y.2 && y.2 == z.2 {
          StrLeTransitive(x.3, y.3, z.3);
        }
      }
    }
  }

  /** The canonical key order is total and transitive on any list of records. */
  lemma CanonicalLeTotalPreorder(s: seq<TimeSeriesRecord>)
    ensures Sorting.TotalPreorderOn(s, CanonicalLe)
  {
    forall a, b | a in s && b in s ensures CanonicalLe(a, b) || CanonicalLe(b, a) {
      KeyLeTotal(SortKey(a), SortKey(b));
    }
    forall a, b, c | a in s && b in s && c in s && CanonicalLe(a, b) && CanonicalLe(b, c)
      ensures CanonicalLe(a, c)
    {
      KeyLeTransitive(SortKey(a), SortKey(b), SortKey(c));
    }
  }

  /** In canonical order the result is sorted by the key. */
  lemma SortRecordsSorted(records: seq<TimeSeriesRecord>)
    ensures Sorting.Sorted(SortRecords(records, CANONICAL), CanonicalLe)
  {
    CanonicalLeTotalPreorder(records);
    Sorting.SortSorted(records, CanonicalLe);
  }

  /**
   * In canonical order a record whose code has no input position never
   * precedes one whose code has a position below 10**9.
   */
  lemma UnindexedSortLast(records: seq<TimeSeriesRecord>, i: int, j: int)
    requires 0 <= i < j < |SortRecords(records, CANONICAL)|
    requires SortRecords(records, CANONICAL)[j].originalCodeIndex.Some?
    requires SortRecords(records, CANONICAL)[j].originalCodeIndex.value < ABSENT_CODE_INDEX
    ensures SortRecords(records, CANONICAL)[i].originalCodeIndex.Some?
  {
    SortRecordsSorted(records);
  }

  /** In canonical order a record with a series position comes before every record without one. */
  lemma IndexedSortsFirst(records: seq<TimeSeriesRecord>, x: TimeSeriesRecord, y: TimeSeriesRecord)
    requires x.originalCodeIndex.Some? && x.originalCodeIndex.value < ABSENT_CODE_INDEX
    requires y.originalCodeIndex.None?
    ensures var s := SortRecords(records, CANONICAL);
      forall i, j :: 0 <= i < |s| && 0 <= j < |s| && s[i] == x && s[j] == y ==> i < j
  {
    var s := SortRecords(records, CANONICAL);
    forall i, j | 0 <= i < |s| && 0 <= j < |s| && s[i] == x && s[j] == y ensures i < j {
      if j < i {
        UnindexedSortLast(records, j, i);
      }
    }
  }

  // ---------------------------------------------------------------------
  // Publication window

  /** 08:50, as minutes after midnight, and the window's last minute 90 minutes later. */
  const WINDOW_BEGIN: int := 8 * 60 + 50
  const WINDOW_END: int := WINDOW_BEGIN + 90

  function MinuteOfDay(c: Clock): int {
    c.hour * 60 + c.minute
  }

  predicate InWindow(c: Clock) {
    WINDOW_BEGIN <= MinuteOfDay(c) <= WINDOW_END
  }

  /** A reading whose minute field is in range. */
  predicate ValidClock(c: Clock) {
    0 <= c.minute < 60
  }

  /** The window read off a clock: 08:50 to 10:20, both ends included. */
  predicate PublicationHours(c: Clock) {
    (c.hour == 8 && c.minute >= 50) || c.hour == 9 || (c.hour == 10 && c.minute <= 20)
  }

  lemma WindowIsPublicationHours(c: Clock)
    requires ValidClock(c)
    ensures InWindow(c) <==> PublicationHours(c)
  {
    if c.hour <= 7 {
      assert MinuteOfDay(c) <= 7 * 60 + 59;
    } else if c.hour >= 11 {
      assert MinuteOfDay(c) >= 11 * 60;
    }
  }

  /** `_window_crossed`: the first fetch was outside the window and the current time is inside it. */
  function WindowCrossed(firstFetch: Clock, current: Clock): (r: bool)
    ensures ValidClock(firstFetch) && ValidClock(current) ==>
      (r <==> !PublicationHours(firstFetch) && PublicationHours(current))
  {
    if ValidClock(firstFetch) && ValidClock(current) then
      WindowIsPublicationHours(firstFetch);
      WindowIsPublicationHours(current);
      !InWindow(firstFetch) && InWindow(current)
    else !InWindow(firstFetch) && InWindow(current)
  }

  /** A run that starts inside the window never crosses into it. */
  lemma StartInsideNeverCrosses(firstFetch: Clock, current: Clock)
    requires ValidClock(firstFetch) && PublicationHours(firstFetch)
    requires ValidClock(current)
    ensures !WindowCrossed(firstFetch, current)
  {
  }

  // ---------------------------------------------------------------------
  // Wildcard resolution decision

  /** Python truthiness of an optional start position: None and 0 are both false. */
  predicate PositionGiven(startPosition: Option<int>) {
    startPosition.Some? && startPosition.value != 0
  }

  /** `_should_resolve_wildcard`; the method argument, when given, overrides the configured mode. */
  function ShouldResolveWildcard(config: ClientConfig, resolveWildcard: Option<bool>, layerNorm: seq<string>,
                                 autoPaginate: bool, resumeToken: Option<Resume.Token>,
                                 startPosition: Option<int>): (r: bool)
    ensures r ==> layerNorm == ["*"] && autoPaginate
    ensures r ==> !Resume.Given(resumeToken) && !PositionGiven(startPosition)
    ensures resolveWildcard == Some(false) ==> !r
    ensures resolveWildcard.None? && !config.resolveWildcard ==> !r
  {
    var mode := if resolveWildcard.None? then config.resolveWildcard else resolveWildcard.value;
    mode && layerNorm == ["*"] && autoPaginate && !Resume.Given(resumeToken) && !PositionGiven(startPosition)
  }

  /** A plain wildcard request with auto-paging resolves exactly when the effective mode is on. */
  lemma ResolveWildcardPlainRequest(config: ClientConfig, resolveWildcard: Option<bool>)
    ensures ShouldResolveWildcard(config, resolveWildcard, ["*"], true, None, None)
      == (if resolveWildcard.Some? then resolveWildcard.value else config.resolveWildcard)
  {
  }

  /** The override makes the configured mode irrelevant. */
  lemma ResolveWildcardOverride(c1: ClientConfig, c2: ClientConfig, b: bool, layerNorm: seq<string>,
                                autoPaginate: bool, resumeToken: Option<Resume.Token>, startPosition: Option<int>)
    ensures ShouldResolveWildcard(c1, Some(b), layerNorm, autoPaginate, resumeToken, startPosition)
      == ShouldResolveWildcard(c2, Some(b), layerNorm, autoPaginate, resumeToken, startPosition)
  {
  }

  /** A start position of 0 counts as no start position. */
  lemma StartPositionZeroIsUnset(config: ClientConfig, resolveWildcard: Option<bool>, layerNorm: seq<string>,
                                 autoPaginate: bool, resumeToken: Option<Resume.Token>)
    ensures ShouldResolveWildcard(config, resolveWildcard, layerNorm, autoPaginate, resumeToken, Some(0))
      == ShouldResolveWildcard(config, resolveWildcard, layerNorm, autoPaginate, resumeToken, None)
  {
  }

  // ---------------------------------------------------------------------
  // Cache key

  /** `str(b)` for a Python bool. */
  function PyBool(b: bool): string {
    if b then "True" else "False"
  }

  /** The key's leading `api=...|` field. */
  function ApiPrefix(api: string): string {
    "api=" + api + "|"
  }

  /** The settings part of a cache key after the api field, up to and including the output order. */
  function CacheKeySettings(config: ClientConfig, lang: string, format: string): string {
    "origin=" + config.baseUrl + "|lang=" + lang + "|format=" + format + "|"
    + "parser=" + PARSER_VERSION + "|normalizer=" + NORMALIZER_VERSION + "|schema=" + SCHEMA_VERSION + "|"
    + "strict_api=" + PyBool(config.strictApi) + "|auto_split=" + PyBool(config.autoSplitCodes) + "|"
    + "consistency=" + config.consistencyMode.Code() + "|"
    + "conflict=" + config.conflictResolution + "|"
    + "output_order=" + config.outputOrder
  }

  /** The optional `|resolve_wildcard=...` segment. */
  function WildcardSegment(resolveWildcard: Option<bool>): string {
    if resolveWildcard.Some? then "|resolve_wildcard=" + PyBool(resolveWildcard.value) else ""
  }

  /** The first and last parts of a three-part concatenation can be read back off it. */
  lemma ThreeParts(p: string, mid: string, q: string)
    ensures |p + mid + q| == |p| + |mid| + |q|
    ensures (p + mid + q)[..|p|] == p
    ensures (p + mid + q)[|p| + |mid|..] == q
  {
  }

  /** `_build_cache_key`. */
  function BuildCacheKey(config: ClientConfig, api: string, fingerprint: string, lang: string, format: string,
                         resolveWildcard: Option<bool>): (key: string)
    ensures |key| >= |ApiPrefix(api)| + |fingerprint| + 4
    ensures key[|key| - |fingerprint| - 4..] == "|fp=" + fingerprint
    ensures key[..|ApiPrefix(api)|] == ApiPrefix(api)
  {
    var mid := CacheKeySettings(config, lang, format) + WildcardSegment(resolveWildcard);
    ThreeParts(ApiPrefix(api), mid, "|fp=" + fingerprint);
    ApiPrefix(api) + mid + ("|fp=" + fingerprint)
  }

  /** Two keys for the same settings are equal exactly when their fingerprints are. */
  lemma CacheKeyFingerprint(config: ClientConfig, api: string, lang: string, format: string,
                            resolveWildcard: Option<bool>, fp1: string, fp2: string)
    ensures (BuildCacheKey(config, api, fp1, lang, format, resolveWildcard)
      == BuildCacheKey(config, api, fp2, lang, format, resolveWildcard)) <==> fp1 == fp2
  {
    var k1 := BuildCacheKey(config, api, fp1, lang, format, resolveWildcard);
    var k2 := BuildCacheKey(config, api, fp2, lang, format, resolveWildcard);
    if k1 == k2 {
      assert "|fp=" + fp1 == "|fp=" + fp2;
      assert fp1 == ("|fp=" + fp1)[4..];
      assert fp2 == ("|fp=" + fp2)[4..];
    }
  }

  /** Keys with and without the wildcard segment, or with different wildcard settings, never collide. */
  lemma CacheKeyWildcardDistinct(config: ClientConfig, api: string, fingerprint: string, lang: string,
                                 format: string, r1: Option<bool>, r2: Option<bool>)
    requires r1 != r2
    ensures BuildCacheKey(config, api, fingerprint, lang, format, r1)
      != BuildCacheKey(config, api, fingerprint, lang, format, r2)
  {
    var base := CacheKeySettings(config, lang, format);
    ThreeParts(ApiPrefix(api), base + WildcardSegment(r1), "|fp=" + fingerprint);
    ThreeParts(ApiPrefix(api), base + WildcardSegment(r2), "|fp=" + fingerprint);
    assert |WildcardSegment(r1)| != |WildcardSegment(r2)|;
  }

  /** A code-API key never equals a layer-API key. */
  lemma CodeAndLayerKeysDiffer(c1: ClientConfig, c2: ClientConfig, fp1: string, fp2: string,
                               lang1: string, lang2: string, format1: string, format2: string,
                               r1: Option<bool>, r2: Option<bool>)
    ensures BuildCacheKey(c1, "code", fp1, lang1, format1, r1) != BuildCacheKey(c2, "layer", fp2, lang2, format2, r2)
  {
    PrefixesDiffer(CacheKeySettings(c1, lang1, format1) + WildcardSegment(r1), "|fp=" + fp1,
                   CacheKeySettings(c2, lang2, format2) + WildcardSegment(r2), "|fp=" + fp2);
  }

  /** Whatever follows them, the code-API and layer-API prefixes keep two strings apart. */
  lemma PrefixesDiffer(mid1: string, tail1: string, mid2: string, tail2: string)
    ensures ApiPrefix("code") + mid1 + tail1 != ApiPrefix("layer") + mid2 + tail2
  {
    var k1, k2 := ApiPrefix("code") + mid1 + tail1, ApiPrefix("layer") + mid2 + tail2;
    assert k1[4] == 'c';
    assert k2[4] == 'l';
  }

  // ---------------------------------------------------------------------
  // Codes of one frequency from metadata

  /** A metadata code is taken when it is non-empty and its guessed frequency is the wanted one or unknown. */
  predicate Wanted(code: string, frequency: Validation.Frequency) {
    code != ""
    && (CodeChunks.GuessFrequencyFromCode(code) == frequency.Code()
        || CodeChunks.GuessFrequencyFromCode(code) == CodeChunks.UNKNOWN)
  }

  /** The codes of `records` that `keep` accepts, in record order. */
  function CodesWhere(records: seq<MetadataRecord>, keep: string -> bool): (codes: seq<string>)
    ensures |codes| <= |records|
  {
    if |records| == 0 then []
    else
      var last := records[|records| - 1];
      CodesWhere(records[..|records| - 1], keep) + (if keep(last.seriesCode) then [last.seriesCode] else [])
  }

  function WantedFor(frequency: Validation.Frequency): string -> bool {
    code => Wanted(code, frequency)
  }

  /** The codes `_resolve_codes_from_metadata` returns, in record order. */
  function CodesFor(records: seq<MetadataRecord>, frequency: Validation.Frequency): seq<string> {
    CodesWhere(records, WantedFor(frequency))
  }

  lemma {:induction false} CodesWhereMembership(records: seq<MetadataRecord>, keep: string -> bool, c: string)
    ensures c in CodesWhere(records, keep) <==>
      keep(c) && exists i :: 0 <= i < |records| && records[i].seriesCode == c
    decreases |records|
  {
    if |records| > 0 {
      var init := records[..|records| - 1];
      CodesWhereMembership(init, keep, c);
      if exists i :: 0 <= i < |init| && init[i].seriesCode == c {
        var i :| 0 <= i < |init| && init[i].seriesCode == c;
        assert records[i] == init[i];
      }
      if exists i :: 0 <= i < |records| && records[i].seriesCode == c {
        var i :| 0 <= i < |records| && records[i].seriesCode == c;
        if i < |init| {
          assert init[i] == records[i];
        }
      }
    }
  }

  /** A code is listed exactly when some record carries it and it is wanted. */
  lemma CodesForMembership(records: seq<MetadataRecord>, frequency: Validation.Frequency, c: string)
    ensures c in CodesFor(records, frequency) <==>
      Wanted(c, frequency) && exists i :: 0 <= i < |records| && records[i].seriesCode == c
  {
    CodesWhereMembership(records, WantedFor(frequency), c);
  }

  /** `_resolve_codes_from_metadata`. */
  method ResolveCodesFromMetadata(frame: Models.MetadataFrame, frequency: Validation.Frequency)
    returns (result: seq<string>)
    ensures result == CodesFor(frame.records, frequency)
  {
    result := [];
    for i := 0 to |frame.records|
      invariant result == CodesFor(frame.records[..i], frequency)
    {
      var record := frame.records[i];
      CodesForSnoc(frame.records, frequency, i);
      if record.seriesCode == "" {
        continue;
      }
      var guessed := CodeChunks.GuessFrequencyFromCode(record.seriesCode);
      if guessed == frequency.Code() || guessed == CodeChunks.UNKNOWN {
        result := result + [record.seriesCode];
      }
    }
    assert frame.records[..|frame.records|] == frame.records;
  }

  lemma CodesForSnoc(records: seq<MetadataRecord>, frequency: Validation.Frequency, i: nat)
    requires i < |records|
    ensures CodesFor(records[..i + 1], frequency)
      == CodesFor(records[..i], frequency) + (if Wanted(records[i].seriesCode, frequency) then [records[i].seriesCode] else [])
  {
    assert records[..i + 1][..i] == records[..i];
  }

  // ---------------------------------------------------------------------
  // Duplicate reconciliation across pages

  /** The dedupe key `(series_code, survey_date)`. */
  type Key = (string, string)

  function KeyOf(rec: TimeSeriesRecord): Key {
    (rec.seriesCode, rec.surveyDate)
  }

  /**
   * The loop's reconciliation state: the kept record per key with the keys
   * in first-insertion order (a Python dict), and the conflict tally.
   */
  datatype Dedupe = Dedupe(
    kept: map<Key, TimeSeriesRecord>,
    order: seq<Key>,
    conflictsCount: nat,
    conflictsSample: seq<ConflictDetail>)

  const NO_RECORDS: Dedupe := Dedupe(map[], [], 0, [])

  /** Each key is listed once, exactly the kept keys are listed, and each kept record carries its key. */
  ghost predicate Keyed(d: Dedupe) {
    && Sorting.Distinct(d.order)
    && (forall k :: k in d.kept <==> k in d.order)
    && (forall k :: k in d.kept ==> KeyOf(d.kept[k]) == k)
  }

  /** Every counted conflict is in the sample. */
  predicate Tallied(d: Dedupe) {
    d.conflictsCount == |d.conflictsSample|
  }

  /** The sample entry for an incoming duplicate whose LAST_UPDATE differs from the stored one. */
  function ConflictOf(existing: TimeSeriesRecord, incoming: TimeSeriesRecord): ConflictDetail {
    ConflictDetail(incoming.seriesCode, incoming.surveyDate, existing.lastUpdate, incoming.lastUpdate)
  }

  /** The error STRICT mode raises for a conflict. */
  function ConflictError(detail: ConflictDetail): BojError {
    ConsistencyError("last_update_conflict", Conflict(detail))
  }

  /** One iteration of the dedupe loop for an incoming record. */
  function Merge(d: Dedupe, rec: TimeSeriesRecord, strict: bool): (r: Result<Dedupe>)
    ensures r.Err? ==> strict
    ensures r.Ok? && Tallied(d) ==> Tallied(r.value)
  {
    var k := KeyOf(rec);
    if k !in d.kept then Ok(d.(kept := d.kept[k := rec], order := d.order + [k]))
    else
      var existing := d.kept[k];
      if existing.lastUpdate == rec.lastUpdate then Ok(d.(kept := d.kept[k := ChooseRecord(existing, rec)]))
      else if strict then Err(ConflictError(ConflictOf(existing, rec)))
      else Ok(Dedupe(d.kept[k := ChooseRecord(existing, rec)], d.order, d.conflictsCount + 1,
                     d.conflictsSample + [ConflictOf(existing, rec)]))
  }

  /** The dedupe loop over a page's records, stopping at the first error. */
  function MergeAll(d: Dedupe, records: seq<TimeSeriesRecord>, strict: bool): (r: Result<Dedupe>)
    ensures r.Err? ==> strict
    ensures r.Ok? && Tallied(d) ==> Tallied(r.value)
    decreases |records|
  {
    if |records| == 0 then Ok(d)
    else
      match MergeAll(d, records[..|records| - 1], strict)
      case Err(e) => Err(e)
      case Ok(prev) => Merge(prev, records[|records| - 1], strict)
  }

  /**
   * A conflict is counted exactly when the incoming duplicate's LAST_UPDATE
   * differs from the stored one; equal dates merge silently.
   */
  lemma MergeCounts(d: Dedupe, rec: TimeSeriesRecord)
    ensures Merge(d, rec, false).Ok?
    ensures Merge(d, rec, false).value.conflictsCount == d.conflictsCount
      + (if KeyOf(rec) in d.kept && d.kept[KeyOf(rec)].lastUpdate != rec.lastUpdate then 1 else 0)
    ensures KeyOf(rec) in d.kept && d.kept[KeyOf(rec)].lastUpdate != rec.lastUpdate ==>
      Merge(d, rec, false).value.conflictsSample == d.conflictsSample + [ConflictOf(d.kept[KeyOf(rec)], rec)]
      && Merge(d, rec, true) == Err(ConflictError(ConflictOf(d.kept[KeyOf(rec)], rec)))
  {
  }

  lemma MergeKeyed(d: Dedupe, rec: TimeSeriesRecord, strict: bool)
    requires Keyed(d) && Merge(d, rec, strict).Ok?
    ensures Keyed(Merge(d, rec, strict).value)
  {
    var k := KeyOf(rec);
    var r := Merge(d, rec, strict).value;
    if k !in d.kept {
      assert r.order == d.order + [k];
      forall i, j | 0 <= i < j < |r.order| ensures r.order[i] != r.order[j] {
        if j == |d.order| {
          assert r.order[i] == d.order[i];
        } else {
          assert r.order[i] == d.order[i] && r.order[j] == d.order[j];
        }
      }
    }
  }

  /** After every page the state holds exactly one record per key, listed once. */
  lemma {:induction false} MergeAllKeyed(d: Dedupe, records: seq<TimeSeriesRecord>, strict: bool)
    requires Keyed(d) && MergeAll(d, records, strict).Ok?
    ensures Keyed(MergeAll(d, records, strict).value)
    decreases |records|
  {
    if |records| > 0 {
      MergeAllKeyed(d, records[..|records| - 1], strict);
      MergeKeyed(MergeAll(d, records[..|records| - 1], strict).value, records[|records| - 1], strict);
    }
  }

  lemma {:induction false} MergeAllTallied(d: Dedupe, records: seq<TimeSeriesRecord>, strict: bool)
    requires Tallied(d) && MergeAll(d, records, strict).Ok?
    ensures Tallied(MergeAll(d, records, strict).value)
    decreases |records|
  {
    if |records| > 0 {
      MergeAllTallied(d, records[..|records| - 1], strict);
    }
  }

  /** Exactly the keys seen so far are kept. */
  lemma {:induction false} MergeAllKeys(d: Dedupe, records: seq<TimeSeriesRecord>, strict: bool, k: Key)
    requires MergeAll(d, records, strict).Ok?
    ensures k in MergeAll(d, records, strict).value.kept <==>
      k in d.kept || exists i :: 0 <= i < |records| && KeyOf(records[i]) == k
    decreases |records|
  {
    if |records| > 0 {
      var init := records[..|records| - 1];
      MergeAllKeys(d, init, strict, k);
      if exists i :: 0 <= i < |init| && KeyOf(init[i]) == k {
        var i :| 0 <= i < |init| && KeyOf(init[i]) == k;
        assert records[i] == init[i];
      }
      if exists i :: 0 <= i < |records| && KeyOf(records[i]) == k {
        var i :| 0 <= i < |records| && KeyOf(records[i]) == k;
        if i < |init| {
          assert init[i] == records[i];
        }
      }
    }
  }

  /** The record kept for a key is no older than `rec` when `rec` is dated. */
  ghost predicate KeptNoOlder(d: Dedupe, rec: TimeSeriesRecord) {
    KeyOf(rec) in d.kept
    && (rec.lastUpdate.Some? ==>
          d.kept[KeyOf(rec)].lastUpdate.Some?
          && StrLe(rec.lastUpdate.value, d.kept[KeyOf(rec)].lastUpdate.value))
  }

  lemma MergeNewest(d: Dedupe, rec: TimeSeriesRecord, strict: bool, earlier: TimeSeriesRecord)
    requires Merge(d, rec, strict).Ok?
    ensures KeptNoOlder(Merge(d, rec, strict).value, rec)
    ensures KeptNoOlder(d, earlier) ==> KeptNoOlder(Merge(d, rec, strict).value, earlier)
  {
    var k := KeyOf(rec);
    var r := Merge(d, rec, strict).value;
    if k in d.kept {
      ChooseRecordKeepsNewest(d.kept[k], rec);
      if KeptNoOlder(d, earlier) && KeyOf(earlier) == k && earlier.lastUpdate.Some? {
        StrLeTransitive(earlier.lastUpdate.value, d.kept[k].lastUpdate.value, r.kept[k].lastUpdate.value);
      }
    } else if rec.lastUpdate.Some? {
      StrLeReflexive(rec.lastUpdate.value);
    }
  }

  /** Whatever the arrival order, the kept record is at least as new as every dated record seen for its key. */
  lemma {:induction false} MergeAllNewest(d: Dedupe, records: seq<TimeSeriesRecord>, strict: bool)
    requires MergeAll(d, records, strict).Ok?
    ensures forall i :: 0 <= i < |records| ==> KeptNoOlder(MergeAll(d, records, strict).value, records[i])
    decreases |records|
  {
    if |records| > 0 {
      var init := records[..|records| - 1];
      var prev := MergeAll(d, init, strict).value;
      MergeAllNewest(d, init, strict);
      forall i | 0 <= i < |records| ensures KeptNoOlder(MergeAll(d, records, strict).value, records[i]) {
        MergeNewest(prev, records[|records| - 1], strict, records[i]);
        if i < |init| {
          assert records[i] == init[i];
        }
      }
    }
  }

  /** Every kept record was kept before or came in with the page. */
  lemma {:induction false} MergeAllProvenance(d: Dedupe, records: seq<TimeSeriesRecord>, strict: bool)
    requires MergeAll(d, records, strict).Ok?
    ensures forall k :: k in MergeAll(d, records, strict).value.kept ==>
      MergeAll(d, records, strict).value.kept[k] in d.kept.Values
      || MergeAll(d, records, strict).value.kept[k] in records
    decreases |records|
  {
    if |records| > 0 {
      var init := records[..|records| - 1];
      MergeAllProvenance(d, init, strict);
      var prev := MergeAll(d, init, strict).value;
      var r := MergeAll(d, records, strict).value;
      forall k | k in r.kept ensures r.kept[k] in d.kept.Values || r.kept[k] in records {
        if k in prev.kept && r.kept[k] == prev.kept[k] {
          if prev.kept[k] in init {
            var i :| 0 <= i < |init| && init[i] == prev.kept[k];
            assert records[i] == init[i];
          }
        }
      }
    }
  }

  /** The first conflict recorded by a best-effort run that started at `d`. */
  function FirstConflict(d: Dedupe, run: Dedupe): ConflictDetail
    requires |run.conflictsSample| > |d.conflictsSample|
  {
    run.conflictsSample[|d.conflictsSample|]
  }

  /**
   * STRICT mode behaves as best-effort mode until the first conflict, and
   * raises that conflict's error instead of counting it.
   */
  lemma {:induction false} StrictAgreesWithBestEffort(d: Dedupe, records: seq<TimeSeriesRecord>)
    requires Tallied(d)
    ensures MergeAll(d, records, false).Ok?
    ensures var b := MergeAll(d, records, false).value;
      && Tallied(b) && b.conflictsCount >= d.conflictsCount
      && b.conflictsSample[..|d.conflictsSample|] == d.conflictsSample
      && (MergeAll(d, records, true).Ok? <==> b.conflictsCount == d.conflictsCount)
      && (MergeAll(d, records, true).Ok? ==> MergeAll(d, records, true) == Ok(b))
      && (MergeAll(d, records, true).Err? ==>
            MergeAll(d, records, true).error == ConflictError(FirstConflict(d, b)))
    decreases |records|
  {
    if |records| > 0 {
      var init := records[..|records| - 1];
      var rec := records[|records| - 1];
      StrictAgreesWithBestEffort(d, init);
      var pb := MergeAll(d, init, false).value;
      MergeCounts(pb, rec);
      var b := Merge(pb, rec, false).value;
      assert b.conflictsSample[..|pb.conflictsSample|] == pb.conflictsSample;
      assert b.conflictsSample[..|d.conflictsSample|] == pb.conflictsSample[..|d.conflictsSample|];
      if MergeAll(d, init, true).Err? {
        assert b.conflictsSample[|d.conflictsSample|] == pb.conflictsSample[|d.conflictsSample|];
      }
    }
  }

  lemma {:induction false} MergeAllErrorSticky(d: Dedupe, records: seq<TimeSeriesRecord>, i: nat, strict: bool)
    requires i <= |records| && MergeAll(d, records[..i], strict).Err?
    ensures MergeAll(d, records, strict) == MergeAll(d, records[..i], strict)
    decreases |records| - i
  {
    if i < |records| {
      assert records[..i + 1][..i] == records[..i];
      MergeAllErrorSticky(d, records, i + 1, strict);
    } else {
      assert records[..i] == records;
    }
  }

  /** The dedupe loop over the records of one page, updating the state in place. */
  method MergeRecords(d: Dedupe, records: seq<TimeSeriesRecord>, strict: bool) returns (r: Result<Dedupe>)
    ensures r == MergeAll(d, records, strict)
  {
    var kept, order, count, sample := d.kept, d.order, d.conflictsCount, d.conflictsSample;
    for i := 0 to |records|
      invariant MergeAll(d, records[..i], strict) == Ok(Dedupe(kept, order, count, sample))
    {
      assert records[..i + 1][..i] == records[..i];
      var record := records[i];
      var key := (record.seriesCode, record.surveyDate);
      if key !in kept {
        kept := kept[key := record];
        order := order + [key];
        continue;
      }
      var existing := kept[key];
      if existing.lastUpdate != record.lastUpdate {
        count := count + 1;
        var detail := ConflictDetail(record.seriesCode, record.surveyDate, existing.lastUpdate, record.lastUpdate);
        sample := sample + [detail];
        if strict {
          MergeAllErrorSticky(d, records, i + 1, strict);
          return Err(ConsistencyError("last_update_conflict", Conflict(detail)));
        }
      }
      kept := kept[key := ChooseRecord(existing, record)];
    }
    assert records[..|records|] == records;
    return Ok(Dedupe(kept, order, count, sample));
  }

  /** The kept records in first-insertion order (`list(dedupe.values())`). */
  function KeptRecords(d: Dedupe): (s: seq<TimeSeriesRecord>)
    requires forall i :: 0 <= i < |d.order| ==> d.order[i] in d.kept
    ensures |s| == |d.order|
  {
    seq(|d.order|, i requires 0 <= i < |d.order| => d.kept[d.order[i]])
  }

  /** No two records share a key. */
  ghost predicate UniqueKeys(s: seq<TimeSeriesRecord>) {
    forall i, j :: 0 <= i < j < |s| ==> KeyOf(s[i]) != KeyOf(s[j])
  }

  lemma KeptRecordsUnique(d: Dedupe)
    requires Keyed(d)
    ensures UniqueKeys(KeptRecords(d))
  {
    var s := KeptRecords(d);
    forall i, j | 0 <= i < j < |s| ensures KeyOf(s[i]) != KeyOf(s[j]) {
      assert KeyOf(s[i]) == d.order[i] && KeyOf(s[j]) == d.order[j];
    }
  }

  /** Reordering keeps keys unique. */
  lemma PermutationUniqueKeys(a: seq<TimeSeriesRecord>, b: seq<TimeSeriesRecord>)
    requires multiset(a) == multiset(b) && UniqueKeys(a)
    ensures UniqueKeys(b)
  {
    assert Sorting.Distinct(a) by {
      forall i, j | 0 <= i < j < |a| ensures a[i] != a[j] {
        assert KeyOf(a[i]) != KeyOf(a[j]);
      }
    }
    forall i, j | 0 <= i < j < |b| ensures KeyOf(b[i]) != KeyOf(b[j]) {
      assert b[i] in multiset(a) && b[j] in multiset(a);
      if b[i] == b[j] {
        Sorting.RepeatTwice(b, i, j);
        Sorting.DistinctOnce(a, b[i]);
      }
    }
  }

  /** The sample placed in metadata: `conflicts_sample[:20]`. */
  function SampleHead(sample: seq<ConflictDetail>): (r: seq<ConflictDetail>)
    ensures |r| <= 20 && |r| <= |sample| && r == sample[..|r|]
    ensures |sample| <= 20 ==> r == sample
    ensures |sample| >= 20 ==> |r| == 20
  {
    if |sample| <= 20 then sample else sample[..20]
  }

  // ---------------------------------------------------------------------
  // Code order map

  /** `code_order_map` as (code, position) entries in insertion order, read as a dict. */
  function OrderMap(entries: seq<(string, int)>): map<string, int>
    decreases |entries|
  {
    if |entries| == 0 then map[]
    else OrderMap(entries[..|entries| - 1])[entries[|entries| - 1].0 := entries[|entries| - 1].1]
  }

  lemma OrderMapSnoc(entries: seq<(string, int)>, c: string, v: int)
    ensures OrderMap(entries + [(c, v)]) == OrderMap(entries)[c := v]
  {
    assert (entries + [(c, v)])[..|entries|] == entries;
  }

  /** `d[k] = v` on a dict: an existing entry keeps its place and takes the new value; a new one goes last. */
  function PutEntry(entries: seq<(string, int)>, k: string, v: int): seq<(string, int)>
    decreases |entries|
  {
    if |entries| == 0 then [(k, v)]
    else if entries[0].0 == k then [(k, v)] + entries[1..]
    else [entries[0]] + PutEntry(entries[1..], k, v)
  }

  /** `{item: idx for idx, item in enumerate(codes)}`. */
  function EnumerateCodes(codes: seq<string>): seq<(string, int)>
    decreases |codes|
  {
    if |codes| == 0 then []
    else PutEntry(EnumerateCodes(codes[..|codes| - 1]), codes[|codes| - 1], |codes| - 1)
  }

  /** Each code is listed once. */
  ghost predicate DistinctCodes(entries: seq<(string, int)>) {
    forall i, j :: 0 <= i < j < |entries| ==> entries[i].0 != entries[j].0
  }

  /** `PutEntry` overwrites the first entry for the code in place, or appends one when there is none. */
  lemma {:induction false} PutEntryShape(entries: seq<(string, int)>, k: string, v: int)
    ensures !Lists(entries, k) ==> PutEntry(entries, k, v) == entries + [(k, v)]
    ensures Lists(entries, k) ==>
      exists idx :: 0 <= idx < |entries| && entries[idx].0 == k && PutEntry(entries, k, v) == entries[idx := (k, v)]
    decreases |entries|
  {
    if |entries| > 0 && entries[0].0 != k {
      var tail := entries[1..];
      PutEntryShape(tail, k, v);
      assert entries == [entries[0]] + tail;
      if Lists(entries, k) {
        var i :| 0 <= i < |entries| && entries[i].0 == k;
        assert tail[i - 1].0 == k;
        var idx :| 0 <= idx < |tail| && tail[idx].0 == k && PutEntry(tail, k, v) == tail[idx := (k, v)];
        assert PutEntry(entries, k, v) == entries[idx + 1 := (k, v)];
      } else {
        assert !Lists(tail, k) by {
          forall m | 0 <= m < |tail| ensures tail[m].0 != k {
            assert tail[m] == entries[m + 1];
          }
        }
      }
    } else if |entries| > 0 {
      assert PutEntry(entries, k, v) == entries[0 := (k, v)];
    }
  }

  /** `PutEntry` lists the new code, keeps every listed code, and otherwise keeps the old entries. */
  lemma PutEntryFacts(entries: seq<(string, int)>, k: string, v: int)
    ensures var r := PutEntry(entries, k, v);
      && Lists(r, k)
      && (forall c :: Lists(entries, c) ==> Lists(r, c))
      && (forall i :: 0 <= i < |r| ==> r[i] == (k, v) || r[i] in entries)
      && (DistinctCodes(entries) ==>
            DistinctCodes(r) && forall i :: 0 <= i < |r| && r[i] != (k, v) ==> r[i].0 != k)
  {
    PutEntryShape(entries, k, v);
    var r := PutEntry(entries, k, v);
    if Lists(entries, k) {
      var idx :| 0 <= idx < |entries| && entries[idx].0 == k && r == entries[idx := (k, v)];
      assert r[idx].0 == k;
      forall c | Lists(entries, c) ensures Lists(r, c) {
        var i :| 0 <= i < |entries| && entries[i].0 == c;
        assert r[i].0 == c;
      }
      forall i | 0 <= i < |r| && i != idx ensures r[i] == entries[i] && r[i] in entries {
      }
      if DistinctCodes(entries) {
        forall i | 0 <= i < |r| && i != idx ensures r[i].0 != k {
          assert r[i] == entries[i];
        }
      }
    } else {
      assert r[|entries|] == (k, v);
      forall c | Lists(entries, c) ensures Lists(r, c) {
        var i :| 0 <= i < |entries| && entries[i].0 == c;
        assert r[i].0 == c;
      }
    }
  }

  /** `e` is valued at the last position of its code in `codes`. */
  ghost predicate LastAt(codes: seq<string>, e: (string, int)) {
    && 0 <= e.1 < |codes| && codes[e.1] == e.0
    && forall j :: e.1 < j < |codes| ==> codes[j] != e.0
  }

  /**
   * `{item: idx for idx, item in enumerate(codes)}`: each code is listed once, every code is
   * listed, and each listed code is valued at its last position in the input.
   */
  lemma {:induction false} EnumerateCodesFacts(codes: seq<string>)
    ensures var r := EnumerateCodes(codes);
      && DistinctCodes(r)
      && (forall c :: c in codes ==> Lists(r, c))
      && (forall i :: 0 <= i < |r| ==> LastAt(codes, r[i]))
    decreases |codes|
  {
    if |codes| > 0 {
      var n := |codes| - 1;
      var init := codes[..n];
      var prev := EnumerateCodes(init);
      var r := EnumerateCodes(codes);
      EnumerateCodesFacts(init);
      assert codes == init + [codes[n]];
      assert r == PutEntry(prev, codes[n], n);
      PutEntryFacts(prev, codes[n], n);
      EnumerateStep(init, codes[n], prev, codes, r);
    }
  }

  /** One step of the enumeration: the facts about the entries carry over to one more code. */
  lemma EnumerateStep(init: seq<string>, c: string, prev: seq<(string, int)>, codes: seq<string>, r: seq<(string, int)>)
    requires codes == init + [c]
    requires Lists(r, c) && (forall x :: Lists(prev, x) ==> Lists(r, x))
    requires forall i :: 0 <= i < |r| ==> r[i] == (c, |init|) || r[i] in prev
    requires DistinctCodes(r) && forall i :: 0 <= i < |r| && r[i] != (c, |init|) ==> r[i].0 != c
    requires forall x :: x in init ==> Lists(prev, x)
    requires forall i :: 0 <= i < |prev| ==> LastAt(init, prev[i])
    ensures forall x :: x in codes ==> Lists(r, x)
    ensures forall i :: 0 <= i < |r| ==> LastAt(codes, r[i])
  {
    forall x | x in codes ensures Lists(r, x) {
      if x != c {
        assert x in init;
      }
    }
    forall i | 0 <= i < |r| ensures LastAt(codes, r[i]) {
      if r[i] == (c, |init|) {
        assert codes[|init|] == c;
      } else {
        var m :| 0 <= m < |prev| && prev[m] == r[i];
        assert LastAt(init, prev[m]);
        LastAtSnoc(init, c, prev[m], codes);
      }
    }
  }

  /** An entry for another code stays valued at its last position when a code is appended. */
  lemma LastAtSnoc(init: seq<string>, c: string, e: (string, int), codes: seq<string>)
    requires codes == init + [c] && LastAt(init, e) && e.0 != c
    ensures LastAt(codes, e)
  {
    forall j | e.1 < j < |codes| ensures codes[j] != e.0 {
      if j < |init| {
        assert codes[j] == init[j];
      }
    }
  }

  /** Entries as the layer loop builds them: distinct codes, each valued at its own position. */
  ghost predicate Positional(entries: seq<(string, int)>) {
    && (forall i :: 0 <= i < |entries| ==> entries[i].1 == i)
    && (forall i, j :: 0 <= i < j < |entries| ==> entries[i].0 != entries[j].0)
  }

  /** Some entry is for `code`. */
  ghost predicate Lists(entries: seq<(string, int)>, code: string) {
    exists i :: 0 <= i < |entries| && entries[i].0 == code
  }

  /** The codes of the map are exactly those listed in the entries. */
  lemma {:induction false} OrderMapKeys(entries: seq<(string, int)>, c: string)
    ensures c in OrderMap(entries) <==> Lists(entries, c)
    decreases |entries|
  {
    if |entries| > 0 {
      var n := |entries| - 1;
      var init := entries[..n];
      OrderMapKeys(init, c);
      if Lists(init, c) {
        var i :| 0 <= i < |init| && init[i].0 == c;
        assert entries[i] == init[i];
      }
      if Lists(entries, c) && entries[n].0 != c {
        var i :| 0 <= i < |entries| && entries[i].0 == c;
        assert init[i] == entries[i];
      }
    }
  }

  lemma PositionalPrefix(entries: seq<(string, int)>, n: nat)
    requires Positional(entries) && n <= |entries|
    ensures Positional(entries[..n])
  {
    forall i | 0 <= i < n ensures entries[..n][i] == entries[i] { }
  }

  /** In positional entries, each code maps to its own position. */
  lemma {:induction false} OrderMapAt(entries: seq<(string, int)>, i: nat)
    requires Positional(entries) && i < |entries|
    ensures entries[i].0 in OrderMap(entries) && OrderMap(entries)[entries[i].0] == i
    decreases |entries|
  {
    var n := |entries| - 1;
    if i < n {
      var init := entries[..n];
      PositionalPrefix(entries, n);
      OrderMapAt(init, i);
      assert init[i] == entries[i];
    }
  }

  lemma OrderMapPositional(entries: seq<(string, int)>)
    requires Positional(entries)
    ensures forall c :: c in OrderMap(entries) <==> Lists(entries, c)
    ensures forall i :: 0 <= i < |entries| ==> entries[i].0 in OrderMap(entries) && OrderMap(entries)[entries[i].0] == i
  {
    forall c {
      OrderMapKeys(entries, c);
    }
    forall i | 0 <= i < |entries| {
      OrderMapAt(entries, i);
    }
  }

  /** `e2` keeps `e` as its prefix. */
  ghost predicate Extends(e: seq<(string, int)>, e2: seq<(string, int)>) {
    |e| <= |e2| && e2[..|e|] == e
  }

  lemma ExtendsTransitive(a: seq<(string, int)>, b: seq<(string, int)>, c: seq<(string, int)>)
    requires Extends(a, b) && Extends(b, c)
    ensures Extends(a, c)
  {
    assert c[..|a|] == c[..|b|][..|a|];
  }

  /** The record carries the position its code has in `entries`. */
  ghost predicate IndexedBy(rec: TimeSeriesRecord, entries: seq<(string, int)>) {
    rec.seriesCode in OrderMap(entries) && rec.originalCodeIndex == Some(OrderMap(entries)[rec.seriesCode])
  }

  /** Appending codes never moves the ones already placed. */
  lemma IndexedByExtends(rec: TimeSeriesRecord, e: seq<(string, int)>, e2: seq<(string, int)>)
    requires Positional(e2) && Extends(e, e2)
    requires IndexedBy(rec, e)
    ensures IndexedBy(rec, e2)
  {
    PositionalPrefix(e2, |e|);
    OrderMapKeys(e, rec.seriesCode);
    var i :| 0 <= i < |e| && e[i].0 == rec.seriesCode;
    OrderMapAt(e, i);
    OrderMapAt(e2, i);
    assert e2[i] == e2[..|e|][i];
  }

  // ---------------------------------------------------------------------
  // Series positions on the layer path

  /**
   * One record of the layer loop as written: a code not yet in the map is
   * appended and only this record is given its position; a record of a code
   * already in the map keeps what page expansion gave it.
   */
  function IndexStepAsWritten(entries: seq<(string, int)>, rec: TimeSeriesRecord): (seq<(string, int)>, TimeSeriesRecord) {
    if rec.seriesCode in OrderMap(entries) then (entries, rec)
    else (entries + [(rec.seriesCode, |entries|)], rec.(originalCodeIndex := Some(|entries|)))
  }

  function AssignAsWritten(entries: seq<(string, int)>, records: seq<TimeSeriesRecord>)
    : (r: (seq<(string, int)>, seq<TimeSeriesRecord>))
    ensures |r.1| == |records|
    decreases |records|
  {
    if |records| == 0 then (entries, [])
    else
      var prev := AssignAsWritten(entries, records[..|records| - 1]);
      var step := IndexStepAsWritten(prev.0, records[|records| - 1]);
      (step.0, prev.1 + [step.1])
  }

  /** An observation of series `code` as the layer API returns it, before any position is given. */
  function Observation(code: string, date: string): TimeSeriesRecord {
    TimeSeriesRecord(code, None, None, None, None, None, None, Some("20240101"), date, None, None, 0, 0, [])
  }

  lemma AssignAsWrittenSnoc(entries: seq<(string, int)>, records: seq<TimeSeriesRecord>, rec: TimeSeriesRecord)
    ensures var prev := AssignAsWritten(entries, records);
      var step := IndexStepAsWritten(prev.0, rec);
      AssignAsWritten(entries, records + [rec]) == (step.0, prev.1 + [step.1])
  {
    assert (records + [rec])[..|records|] == records;
  }

  /**
   * As written, a page holding two observations of a new series A (one
   * nested row with two survey dates) followed by a new series B leaves the
   * second observation of A without a position, while B gets position 1; in
   * canonical order that observation then comes after B's.
   */
  lemma SecondObservationSortsLast()
    ensures var w := AssignAsWritten([], [Observation("A", "2023"), Observation("A", "2024"), Observation("B", "2023")]).1;
      && w[0].originalCodeIndex == Some(0) && w[1].originalCodeIndex.None? && w[2].originalCodeIndex == Some(1)
      && var s := SortRecords(w, CANONICAL);
         forall i, j :: 0 <= i < |s| && 0 <= j < |s| && s[i] == w[2] && s[j] == w[1] ==> i < j
  {
    var a1, a2, b := Observation("A", "2023"), Observation("A", "2024"), Observation("B", "2023");
    AsWrittenRepeatUnindexed(a1, a2, b);
    var w := AssignAsWritten([], [a1, a2, b]).1;
    IndexedSortsFirst(w, w[2], w[1]);
  }

  /** As written, a second record of a series that is new on the page keeps its missing position; a later new series gets 1. */
  lemma AsWrittenRepeatUnindexed(a1: TimeSeriesRecord, a2: TimeSeriesRecord, b: TimeSeriesRecord)
    requires a1.seriesCode == a2.seriesCode && b.seriesCode != a1.seriesCode && a2.originalCodeIndex.None?
    ensures var w := AssignAsWritten([], [a1, a2, b]).1;
      w[0].originalCodeIndex == Some(0) && w[1].originalCodeIndex.None? && w[2].originalCodeIndex == Some(1)
  {
    var ea: seq<(string, int)> := [(a1.seriesCode, 0)];
    AsWrittenRepeat(a1, a2);
    OrderMapSnoc([], a1.seriesCode, 0);
    assert [] + ea == ea;
    AssignAsWrittenSnoc([], [a1, a2], b);
    assert [a1, a2] + [b] == [a1, a2, b];
  }

  lemma AsWrittenRepeat(a1: TimeSeriesRecord, a2: TimeSeriesRecord)
    requires a1.seriesCode == a2.seriesCode && a2.originalCodeIndex.None?
    ensures AssignAsWritten([], [a1, a2]).0 == [(a1.seriesCode, 0)]
    ensures AssignAsWritten([], [a1, a2]).1[0].originalCodeIndex == Some(0)
    ensures AssignAsWritten([], [a1, a2]).1[1].originalCodeIndex.None?
  {
    AssignAsWrittenSnoc([], [], a1);
    assert [] + [a1] == [a1];
    OrderMapSnoc([], a1.seriesCode, 0);
    assert [] + [(a1.seriesCode, 0)] == [(a1.seriesCode, 0)];
    AssignAsWrittenSnoc([], [a1], a2);
    assert [a1] + [a2] == [a1, a2];
  }

  /** The layer loop as intended: every record gets its code's position, new codes being appended first. */
  function IndexStep(entries: seq<(string, int)>, rec: TimeSeriesRecord): (r: (seq<(string, int)>, TimeSeriesRecord))
    ensures r.1 == rec.(originalCodeIndex := r.1.originalCodeIndex)
  {
    var code := rec.seriesCode;
    var e := if code in OrderMap(entries) then entries else entries + [(code, |entries|)];
    OrderMapSnoc(entries, code, |entries|);
    (e, rec.(originalCodeIndex := Some(OrderMap(e)[code])))
  }

  function AssignIndex(entries: seq<(string, int)>, records: seq<TimeSeriesRecord>)
    : (r: (seq<(string, int)>, seq<TimeSeriesRecord>))
    ensures |r.1| == |records|
    decreases |records|
  {
    if |records| == 0 then (entries, [])
    else
      var prev := AssignIndex(entries, records[..|records| - 1]);
      var step := IndexStep(prev.0, records[|records| - 1]);
      (step.0, prev.1 + [step.1])
  }

  lemma AssignIndexSnoc(entries: seq<(string, int)>, records: seq<TimeSeriesRecord>, rec: TimeSeriesRecord)
    ensures var prev := AssignIndex(entries, records);
      var step := IndexStep(prev.0, rec);
      AssignIndex(entries, records + [rec]) == (step.0, prev.1 + [step.1])
  {
    assert (records + [rec])[..|records|] == records;
  }

  lemma IndexStepKnown(entries: seq<(string, int)>, rec: TimeSeriesRecord)
    requires rec.seriesCode in OrderMap(entries)
    ensures IndexStep(entries, rec).0 == entries
    ensures IndexStep(entries, rec).1.originalCodeIndex == Some(OrderMap(entries)[rec.seriesCode])
  {
  }

  lemma IndexStepNew(entries: seq<(string, int)>, rec: TimeSeriesRecord)
    requires rec.seriesCode !in OrderMap(entries)
    ensures IndexStep(entries, rec).0 == entries + [(rec.seriesCode, |entries|)]
    ensures IndexStep(entries, rec).1.originalCodeIndex == Some(|entries|)
  {
    OrderMapSnoc(entries, rec.seriesCode, |entries|);
  }

  /** The first record of a page of a new series takes position 0. */
  lemma FirstObservationIndexed(a1: TimeSeriesRecord)
    ensures AssignIndex([], [a1]).0 == [(a1.seriesCode, 0)]
    ensures AssignIndex([], [a1]).1[0].originalCodeIndex == Some(0)
  {
    AssignIndexSnoc([], [], a1);
    assert [] + [a1] == [a1];
    IndexStepNew([], a1);
  }

  /** A second observation of the same series takes the same position, the first keeping its own. */
  lemma RepeatObservationIndexed(a1: TimeSeriesRecord, a2: TimeSeriesRecord)
    requires a1.seriesCode == a2.seriesCode
    ensures AssignIndex([], [a1, a2]).0 == [(a1.seriesCode, 0)]
    ensures AssignIndex([], [a1, a2]).1[0].originalCodeIndex == Some(0)
    ensures AssignIndex([], [a1, a2]).1[1].originalCodeIndex == Some(0)
  {
    FirstObservationIndexed(a1);
    OrderMapSnoc([], a1.seriesCode, 0);
    assert [] + [(a1.seriesCode, 0)] == [(a1.seriesCode, 0)];
    AssignIndexSnoc([], [a1], a2);
    assert [a1] + [a2] == [a1, a2];
    IndexStepKnown([(a1.seriesCode, 0)], a2);
  }

  /**
   * With the intended assignment the same page (two observations of a new
   * series, then one of another new series) gives both observations of the
   * first series position 0 and the other series position 1.
   */
  lemma EveryObservationIndexed(a1: TimeSeriesRecord, a2: TimeSeriesRecord, b: TimeSeriesRecord)
    requires a1.seriesCode == a2.seriesCode && b.seriesCode != a1.seriesCode
    ensures var r := AssignIndex([], [a1, a2, b]).1;
      r[0].originalCodeIndex == Some(0) && r[1].originalCodeIndex == Some(0) && r[2].originalCodeIndex == Some(1)
  {
    var ea: seq<(string, int)> := [(a1.seriesCode, 0)];
    RepeatObservationIndexed(a1, a2);
    OrderMapSnoc([], a1.seriesCode, 0);
    assert [] + ea == ea;
    AssignIndexSnoc([], [a1, a2], b);
    assert [a1, a2] + [b] == [a1, a2, b];
    IndexStepNew(ea, b);
  }

  lemma IndexStepFacts(entries: seq<(string, int)>, rec: TimeSeriesRecord)
    requires Positional(entries)
    ensures var r := IndexStep(entries, rec);
      Positional(r.0) && Extends(entries, r.0) && IndexedBy(r.1, r.0)
  {
    var r := IndexStep(entries, rec);
    var code := rec.seriesCode;
    OrderMapKeys(entries, code);
    if code !in OrderMap(entries) {
      forall i, j | 0 <= i < j < |r.0| ensures r.0[i].0 != r.0[j].0 {
        assert r.0[i] == entries[i];
        if j < |entries| {
          assert r.0[j] == entries[j];
        }
      }
    }
    assert r.0[..|entries|] == entries;
  }

  /** `out` is `records` with each record given its code's position in `entries`, and nothing else changed. */
  ghost predicate Reindexed(records: seq<TimeSeriesRecord>, out: seq<TimeSeriesRecord>, entries: seq<(string, int)>) {
    && |out| == |records|
    && forall i :: 0 <= i < |records| ==>
         out[i] == records[i].(originalCodeIndex := out[i].originalCodeIndex) && IndexedBy(out[i], entries)
  }

  lemma ReindexedSnoc(records: seq<TimeSeriesRecord>, out: seq<TimeSeriesRecord>, e: seq<(string, int)>,
                      e2: seq<(string, int)>, last: TimeSeriesRecord)
    requires |records| > 0 && Reindexed(records[..|records| - 1], out, e) && Positional(e2) && Extends(e, e2)
    requires last == records[|records| - 1].(originalCodeIndex := last.originalCodeIndex) && IndexedBy(last, e2)
    ensures Reindexed(records, out + [last], e2)
  {
    forall i | 0 <= i < |out| ensures IndexedBy(out[i], e2) {
      IndexedByExtends(out[i], e, e2);
    }
  }

  /**
   * With the intended assignment every record of a page carries its code's
   * position, the map only grows, and records are otherwise unchanged.
   */
  lemma {:induction false} AssignIndexFacts(entries: seq<(string, int)>, records: seq<TimeSeriesRecord>)
    requires Positional(entries)
    ensures var r := AssignIndex(entries, records);
      Positional(r.0) && Extends(entries, r.0) && Reindexed(records, r.1, r.0)
    decreases |records|
  {
    if |records| > 0 {
      AssignIndexFacts(entries, records[..|records| - 1]);
      AssignIndexStep(entries, records);
    } else {
      assert entries[..|entries|] == entries;
    }
  }

  /** The last record of a page keeps the facts of `AssignIndexFacts` true. */
  lemma AssignIndexStep(entries: seq<(string, int)>, records: seq<TimeSeriesRecord>)
    requires |records| > 0 && Positional(entries)
    requires var prev := AssignIndex(entries, records[..|records| - 1]);
      Positional(prev.0) && Extends(entries, prev.0) && Reindexed(records[..|records| - 1], prev.1, prev.0)
    ensures var r := AssignIndex(entries, records);
      Positional(r.0) && Extends(entries, r.0) && Reindexed(records, r.1, r.0)
  {
    var prev := AssignIndex(entries, records[..|records| - 1]);
    var step := IndexStep(prev.0, records[|records| - 1]);
    IndexStepFacts(prev.0, records[|records| - 1]);
    ExtendsTransitive(entries, prev.0, step.0);
    ReindexedSnoc(records, prev.1, prev.0, step.0, step.1);
  }

  /** The corrected assignment and the code as written build the same map. */
  lemma {:induction false} AssignIndexSameMap(entries: seq<(string, int)>, records: seq<TimeSeriesRecord>)
    ensures AssignIndex(entries, records).0 == AssignAsWritten(entries, records).0
    decreases |records|
  {
    if |records| > 0 {
      AssignIndexSameMap(entries, records[..|records| - 1]);
    }
  }

  /** Every kept record carries its code's position in `entries`. */
  ghost predicate AllIndexed(d: Dedupe, entries: seq<(string, int)>) {
    forall k :: k in d.kept ==> IndexedBy(d.kept[k], entries)
  }

  lemma MergeKeepsIndexed(d: Dedupe, records: seq<TimeSeriesRecord>, strict: bool,
                          e: seq<(string, int)>, e2: seq<(string, int)>)
    requires Positional(e2) && Extends(e, e2)
    requires AllIndexed(d, e)
    requires forall i :: 0 <= i < |records| ==> IndexedBy(records[i], e2)
    requires MergeAll(d, records, strict).Ok?
    ensures AllIndexed(MergeAll(d, records, strict).value, e2)
  {
    MergeAllProvenance(d, records, strict);
    var r := MergeAll(d, records, strict).value;
    forall k | k in r.kept ensures IndexedBy(r.kept[k], e2) {
      if r.kept[k] in d.kept.Values {
        var k0 :| k0 in d.kept && d.kept[k0] == r.kept[k];
        IndexedByExtends(r.kept[k], e, e2);
      }
    }
  }

  /** Records that each carry one series position per code, different codes having different positions. */
  ghost predicate CodesIndexed(s: seq<TimeSeriesRecord>) {
    && (forall i :: 0 <= i < |s| ==> s[i].originalCodeIndex.Some?)
    && (forall i, j :: 0 <= i < |s| && 0 <= j < |s| ==>
          (s[i].seriesCode == s[j].seriesCode <==> s[i].originalCodeIndex == s[j].originalCodeIndex))
  }

  lemma IndexedRecordsCodesIndexed(s: seq<TimeSeriesRecord>, entries: seq<(string, int)>)
    requires Positional(entries)
    requires forall i :: 0 <= i < |s| ==> IndexedBy(s[i], entries)
    ensures CodesIndexed(s)
  {
    OrderMapPositional(entries);
    forall i, j | 0 <= i < |s| && 0 <= j < |s| && s[i].originalCodeIndex == s[j].originalCodeIndex
      ensures s[i].seriesCode == s[j].seriesCode
    {
      var p :| 0 <= p < |entries| && entries[p].0 == s[i].seriesCode;
      var q :| 0 <= q < |entries| && entries[q].0 == s[j].seriesCode;
      assert OrderMap(entries)[entries[p].0] == p && OrderMap(entries)[entries[q].0] == q;
    }
  }

  // ---------------------------------------------------------------------
  // Retrieval loops

  /** One server reply: the parsed body, the URL that was requested and when the reply arrived. */
  datatype Response = Response(parsed: ParsedResponse, requestUrl: string, receivedAt: Clock)

  /** How a retrieval ends: a frame, an exception, or the scripted replies ran out first. */
  datatype Outcome = Returned(frame: Models.TimeSeriesFrame) | Raised(error: BojError) | OutOfResponses

  const LATEST_LAST_UPDATE: string := "latest_last_update"

  /** `next_position or 1`, as written into the resume token. */
  function TokenPosition(next: Option<int>): (p: int)
    ensures p != 0
  {
    if next.Some? && next.value != 0 then next.value else 1
  }

  /** The metadata recorded after each page. */
  function PageMeta(resp: Response, token: Resume.Token, signal: Option<string>, d: Dedupe): (m: ResponseMeta)
    ensures m.nextPosition == resp.parsed.nextPosition && m.resumeToken == Some(token)
    ensures m.conflictsCount == d.conflictsCount && m.conflictsSample == SampleHead(d.conflictsSample)
    ensures m.consistencySignal == signal
  {
    ResponseMeta(resp.parsed.status, resp.parsed.messageId, resp.parsed.message, resp.parsed.nextPosition,
      resp.parsed.parameters, resp.requestUrl, SCHEMA_VERSION, PARSER_VERSION, NORMALIZER_VERSION,
      Some(token), signal, None, LATEST_LAST_UPDATE, d.conflictsCount, SampleHead(d.conflictsSample))
  }

  /** `_empty_meta`: status 200, message M181030I ("no matching data"), no next position. */
  function EmptyMeta(requestUrl: string): (m: ResponseMeta)
    ensures m.status == 200 && m.messageId == "M181030I" && m.nextPosition.None? && m.resumeToken.None?
    ensures m.conflictsCount == 0 && m.conflictsSample == []
  {
    ResponseMeta(200, "M181030I", "正常に終了しましたが、該当データはありませんでした。", None, [], requestUrl,
      SCHEMA_VERSION, PARSER_VERSION, NORMALIZER_VERSION, None, None, None, LATEST_LAST_UPDATE, 0, [])
  }

  /** The conflict figures a page's metadata may carry. */
  predicate MetaFacts(m: ResponseMeta, strict: bool) {
    |m.conflictsSample| <= 20 && |m.conflictsSample| <= m.conflictsCount && (strict ==> m.conflictsCount == 0)
  }

  /** After the loop: sort the kept records, fall back to the empty metadata, and drop the token at the end. */
  function FinishFrame(d: Dedupe, lastMeta: Option<ResponseMeta>, outputOrder: string): (f: Models.TimeSeriesFrame)
    requires forall i :: 0 <= i < |d.order| ==> d.order[i] in d.kept
    ensures multiset(f.records) == multiset(KeptRecords(d))
  {
    var meta := if lastMeta.Some? then lastMeta.value else EmptyMeta("");
    Models.TimeSeriesFrame(SortRecords(KeptRecords(d), outputOrder),
      if meta.nextPosition.None? then meta.(resumeToken := None) else meta)
  }

  /** What a frame assembled by either loop guarantees. */
  ghost predicate FrameFacts(f: Models.TimeSeriesFrame, strict: bool, outputOrder: string) {
    && UniqueKeys(f.records)
    && (outputOrder == CANONICAL ==> Sorting.Sorted(f.records, CanonicalLe))
    && MetaFacts(f.meta, strict)
    && (f.meta.nextPosition.None? ==> f.meta.resumeToken.None?)
  }

  lemma FinishFrameFacts(d: Dedupe, lastMeta: Option<ResponseMeta>, outputOrder: string, strict: bool)
    requires Keyed(d)
    requires lastMeta.Some? ==> MetaFacts(lastMeta.value, strict)
    ensures FrameFacts(FinishFrame(d, lastMeta, outputOrder), strict, outputOrder)
  {
    var f := FinishFrame(d, lastMeta, outputOrder);
    KeptRecordsUnique(d);
    PermutationUniqueKeys(KeptRecords(d), f.records);
    if outputOrder == CANONICAL {
      SortRecordsSorted(KeptRecords(d));
    }
  }

  lemma FinishFrameIndexed(d: Dedupe, lastMeta: Option<ResponseMeta>, outputOrder: string, entries: seq<(string, int)>)
    requires Keyed(d) && AllIndexed(d, entries) && Positional(entries)
    ensures CodesIndexed(FinishFrame(d, lastMeta, outputOrder).records)
  {
    var s := FinishFrame(d, lastMeta, outputOrder).records;
    var kept := KeptRecords(d);
    forall i | 0 <= i < |s| ensures IndexedBy(s[i], entries) {
      assert s[i] in multiset(kept);
      var p :| 0 <= p < |kept| && kept[p] == s[i];
      assert kept[p] == d.kept[d.order[p]];
    }
    IndexedRecordsCodesIndexed(s, entries);
  }

  /** Reconciling two runs of records one after the other is reconciling their concatenation. */
  lemma {:induction false} MergeAllAppend(d: Dedupe, xs: seq<TimeSeriesRecord>, ys: seq<TimeSeriesRecord>, strict: bool)
    ensures MergeAll(d, xs + ys, strict) ==
      match MergeAll(d, xs, strict)
      case Err(e) => Err(e)
      case Ok(m) => MergeAll(m, ys, strict)
    decreases |ys|
  {
    if |ys| == 0 {
      assert xs + ys == xs;
    } else {
      var init := ys[..|ys| - 1];
      MergeAllAppend(d, xs, init, strict);
      assert (xs + ys)[..|xs + ys| - 1] == xs + init;
      assert (xs + ys)[|xs + ys| - 1] == ys[|ys| - 1];
    }
  }

  /** The keys carried by a list of records. */
  ghost function KeysOf(s: seq<TimeSeriesRecord>): set<Key> {
    set i | 0 <= i < |s| :: KeyOf(s[i])
  }

  /** The records a retrieval returns once it has reconciled `seen` from an empty table, in output order. */
  ghost function ReconciledRecords(seen: seq<TimeSeriesRecord>, strict: bool, outputOrder: string): seq<TimeSeriesRecord>
    requires MergeAll(NO_RECORDS, seen, strict).Ok?
  {
    MergeAllKeyed(NO_RECORDS, seen, strict);
    SortRecords(KeptRecords(MergeAll(NO_RECORDS, seen, strict).value), outputOrder)
  }

  /** Every record of `s` is a kept record of `d`, under its own key. */
  lemma KeptRecordsMembers(d: Dedupe, s: seq<TimeSeriesRecord>)
    requires Keyed(d) && multiset(s) == multiset(KeptRecords(d))
    ensures forall x :: x in s ==> KeyOf(x) in d.kept && d.kept[KeyOf(x)] == x
    ensures KeysOf(s) == d.kept.Keys
  {
    var kept := KeptRecords(d);
    forall x | x in s ensures KeyOf(x) in d.kept && d.kept[KeyOf(x)] == x {
      assert x in multiset(kept);
      var p :| 0 <= p < |kept| && kept[p] == x;
      assert kept[p] == d.kept[d.order[p]];
    }
    forall k | k in d.kept ensures k in KeysOf(s) {
      var p :| 0 <= p < |d.order| && d.order[p] == k;
      assert kept[p] in multiset(s);
      var i :| 0 <= i < |s| && s[i] == kept[p];
      assert KeyOf(s[i]) == k;
    }
  }

  /**
   * What a retrieval returns is the reconciliation of what it has seen: one
   * record per (series code, survey date) seen, each one of the records seen,
   * and none older than a dated record seen for its key.
   */
  lemma ReconciledRecordsFacts(seen: seq<TimeSeriesRecord>, strict: bool, outputOrder: string)
    requires MergeAll(NO_RECORDS, seen, strict).Ok?
    ensures var r := ReconciledRecords(seen, strict, outputOrder);
      && UniqueKeys(r)
      && KeysOf(r) == KeysOf(seen)
      && (forall x :: x in r ==> x in seen)
      && (forall x, y :: x in r && y in seen && KeyOf(x) == KeyOf(y) && y.lastUpdate.Some? ==>
            x.lastUpdate.Some? && StrLe(y.lastUpdate.value, x.lastUpdate.value))
  {
    var d := MergeAll(NO_RECORDS, seen, strict).value;
    MergeAllKeyed(NO_RECORDS, seen, strict);
    var r := ReconciledRecords(seen, strict, outputOrder);
    assert multiset(r) == multiset(KeptRecords(d));
    ReconciledKeys(seen, strict, d, r);
    ReconciledNewest(seen, strict, d, r);
  }

  lemma ReconciledKeys(seen: seq<TimeSeriesRecord>, strict: bool, d: Dedupe, r: seq<TimeSeriesRecord>)
    requires MergeAll(NO_RECORDS, seen, strict) == Ok(d)
    requires Keyed(d) && multiset(r) == multiset(KeptRecords(d))
    ensures UniqueKeys(r) && KeysOf(r) == KeysOf(seen)
  {
    KeptRecordsUnique(d);
    PermutationUniqueKeys(KeptRecords(d), r);
    KeptRecordsMembers(d, r);
    forall k ensures k in d.kept <==> k in KeysOf(seen) {
      MergeAllKeys(NO_RECORDS, seen, strict, k);
    }
  }

  lemma ReconciledNewest(seen: seq<TimeSeriesRecord>, strict: bool, d: Dedupe, r: seq<TimeSeriesRecord>)
    requires MergeAll(NO_RECORDS, seen, strict) == Ok(d)
    requires Keyed(d) && multiset(r) == multiset(KeptRecords(d))
    ensures forall x :: x in r ==> x in seen
    ensures forall x, y :: x in r && y in seen && KeyOf(x) == KeyOf(y) && y.lastUpdate.Some? ==>
      x.lastUpdate.Some? && StrLe(y.lastUpdate.value, x.lastUpdate.value)
  {
    KeptRecordsMembers(d, r);
    MergeAllProvenance(NO_RECORDS, seen, strict);
    MergeAllNewest(NO_RECORDS, seen, strict);
    forall x, y | x in r && y in seen && KeyOf(x) == KeyOf(y) && y.lastUpdate.Some?
      ensures x.lastUpdate.Some? && StrLe(y.lastUpdate.value, x.lastUpdate.value)
    {
      var j :| 0 <= j < |seen| && seen[j] == y;
      assert KeptNoOlder(d, seen[j]);
    }
  }

  /**
   * The records the code-API loops reconcile from a run of replies, with the
   * page index the next page gets: it counts the pages of the current chunk,
   * and a page without a next position ends the chunk.
   */
  ghost function CodeSeen(replies: seq<Result<Response>>, entries: seq<(string, int)>)
    : Result<(seq<TimeSeriesRecord>, nat)>
    decreases |replies|
  {
    if |replies| == 0 then Ok(([], 0))
    else
      match CodeSeen(replies[..|replies| - 1], entries)
      case Err(e) => Err(e)
      case Ok(prev) =>
        var reply := replies[|replies| - 1];
        if reply.Err? then Err(reply.error)
        else
          match Normalize.ExpandSpec(reply.value.parsed.rows, prev.1, OrderMap(entries))
          case Err(e) => Err(e)
          case Ok(recs) => Ok((prev.0 + recs, if reply.value.parsed.nextPosition.None? then 0 else prev.1 + 1))
  }

  /** The table `d` is the reconciliation of the replies so far, and the next page has index `pageIndex`. */
  ghost predicate CodeReconciled(replies: seq<Result<Response>>, entries: seq<(string, int)>, strict: bool,
                                 d: Dedupe, pageIndex: int) {
    var cs := CodeSeen(replies, entries);
    cs.Ok? && cs.value.1 == pageIndex && MergeAll(NO_RECORDS, cs.value.0, strict) == Ok(d)
  }

  lemma CodeReconciledStep(replies: seq<Result<Response>>, all: seq<Result<Response>>, entries: seq<(string, int)>,
                           strict: bool, d: Dedupe, pageIndex: int, resp: Response)
    requires all == replies + [Ok(resp)]
    requires CodeReconciled(replies, entries, strict, d, pageIndex)
    requires Normalize.ExpandSpec(resp.parsed.rows, pageIndex, OrderMap(entries)).Ok?
    requires MergeAll(d, Normalize.ExpandSpec(resp.parsed.rows, pageIndex, OrderMap(entries)).value, strict).Ok?
    ensures CodeReconciled(all, entries, strict,
      MergeAll(d, Normalize.ExpandSpec(resp.parsed.rows, pageIndex, OrderMap(entries)).value, strict).value,
      if resp.parsed.nextPosition.None? then 0 else pageIndex + 1)
  {
    assert all[..|all| - 1] == replies;
    var seen := CodeSeen(replies, entries).value.0;
    MergeAllAppend(NO_RECORDS, seen, Normalize.ExpandSpec(resp.parsed.rows, pageIndex, OrderMap(entries)).value, strict);
  }

  /**
   * The records the layer-API loop reconciles from a run of replies, each
   * given its series position, with the code order map built so far. Page
   * k of the run has index k.
   */
  ghost function LayerSeen(replies: seq<Result<Response>>): Result<(seq<TimeSeriesRecord>, seq<(string, int)>)>
    decreases |replies|
  {
    if |replies| == 0 then Ok(([], []))
    else
      match LayerSeen(replies[..|replies| - 1])
      case Err(e) => Err(e)
      case Ok(prev) =>
        var reply := replies[|replies| - 1];
        if reply.Err? then Err(reply.error)
        else
          match Normalize.ExpandSpec(reply.value.parsed.rows, |replies| - 1, OrderMap(prev.1))
          case Err(e) => Err(e)
          case Ok(recs) =>
            var placed := AssignIndex(prev.1, recs);
            Ok((prev.0 + placed.1, placed.0))
  }

  /** The table `d` and the code order map `entries` are those reconciled from the replies so far. */
  ghost predicate LayerReconciled(replies: seq<Result<Response>>, strict: bool, d: Dedupe, entries: seq<(string, int)>) {
    var ls := LayerSeen(replies);
    ls.Ok? && ls.value.1 == entries && MergeAll(NO_RECORDS, ls.value.0, strict) == Ok(d)
  }

  lemma LayerReconciledStep(replies: seq<Result<Response>>, all: seq<Result<Response>>, strict: bool, d: Dedupe,
                            entries: seq<(string, int)>, resp: Response, d': Dedupe, entries': seq<(string, int)>)
    requires all == replies + [Ok(resp)]
    requires LayerReconciled(replies, strict, d, entries)
    requires PageReconciled(d, entries, resp, |replies|, strict, d', entries')
    ensures LayerReconciled(all, strict, d', entries')
  {
    assert all[..|all| - 1] == replies;
    var placed := AssignIndex(entries, Normalize.ExpandSpec(resp.parsed.rows, |replies|, OrderMap(entries)).value);
    MergeAllAppend(NO_RECORDS, LayerSeen(replies).value.0, placed.1, strict);
  }

  /** What one layer-API page does: the page's records get their positions and are reconciled into `d0`. */
  ghost predicate PageReconciled(d0: Dedupe, entries0: seq<(string, int)>, resp: Response, pageIndex: int, strict: bool,
                                 d: Dedupe, entries: seq<(string, int)>) {
    var expanded := Normalize.ExpandSpec(resp.parsed.rows, pageIndex, OrderMap(entries0));
    expanded.Ok? && var placed := AssignIndex(entries0, expanded.value);
    entries == placed.0 && MergeAll(d0, placed.1, strict) == Ok(d)
  }

  /** Token handling of the code path: decode, then validate against the token's own chunk index. */
  function CodeResume(token: Resume.Token, fingerprint: string): (r: Result<Resume.ResumeTokenState>)
    ensures r.Ok? ==> Resume.DecodeResumeToken(token) == r
    ensures r.Err? ==> r.error != ResumeTokenMismatch("chunk_index_mismatch")
  {
    match Resume.DecodeResumeToken(token)
    case Err(e) => Err(e)
    case Ok(st) =>
      match Resume.ValidateResumeToken(st, fingerprint, st.chunkIndex, PARSER_VERSION, NORMALIZER_VERSION)
      case Err(e) => Err(e)
      case Ok(_) => Ok(st)
  }

  /** Token handling of the layer path: decode, then validate against chunk index 0. */
  function LayerResume(token: Resume.Token, fingerprint: string): (r: Result<Resume.ResumeTokenState>)
    ensures r.Ok? ==> Resume.DecodeResumeToken(token) == r && r.value.chunkIndex == 0
    ensures r.Ok? ==> r.value.requestFingerprint == fingerprint
  {
    match Resume.DecodeResumeToken(token)
    case Err(e) => Err(e)
    case Ok(st) =>
      match Resume.ValidateResumeToken(st, fingerprint, 0, PARSER_VERSION, NORMALIZER_VERSION)
      case Err(e) => Err(e)
      case Ok(_) => Ok(st)
  }

  /** What holds between the pages of either loop. */
  ghost predicate Progress(d: Dedupe, lastMeta: Option<ResponseMeta>, strict: bool) {
    && Keyed(d) && Tallied(d) && (strict ==> d.conflictsCount == 0)
    && (lastMeta.Some? ==> MetaFacts(lastMeta.value, strict))
  }

  /** One code-API page: expand its rows and reconcile them with what is kept. */
  method CodePage(d: Dedupe, resp: Response, pageIndex: int, entries: seq<(string, int)>, strict: bool)
    returns (r: Result<Dedupe>)
    requires Keyed(d) && Tallied(d)
    ensures r.Ok? ==> (Normalize.ExpandSpec(resp.parsed.rows, pageIndex, OrderMap(entries)).Ok?
      && r == MergeAll(d, Normalize.ExpandSpec(resp.parsed.rows, pageIndex, OrderMap(entries)).value, strict))
    ensures r.Ok? ==> Keyed(r.value) && Tallied(r.value)
    ensures r.Ok? && strict ==> r.value.conflictsCount == d.conflictsCount
  {
    var expanded := Normalize.ExpandTimeseriesRows(resp.parsed.rows, pageIndex, OrderMap(entries));
    if expanded.Err? {
      return Err(expanded.error);
    }
    var merged := MergeRecords(d, expanded.value, strict);
    if merged.Err? {
      return Err(merged.error);
    }
    MergeAllKeyed(d, expanded.value, strict);
    MergeAllTallied(d, expanded.value, strict);
    StrictAgreesWithBestEffort(d, expanded.value);
    return merged;
  }

  /** One layer-API page: expand its rows, give every record its series position, and reconcile. */
  method LayerPage(d: Dedupe, entries: seq<(string, int)>, resp: Response, pageIndex: int, strict: bool)
    returns (r: Result<(Dedupe, seq<(string, int)>)>)
    requires Keyed(d) && Tallied(d) && Positional(entries) && AllIndexed(d, entries)
    ensures r.Ok? ==> Keyed(r.value.0) && Tallied(r.value.0) && Positional(r.value.1) && AllIndexed(r.value.0, r.value.1)
    ensures r.Ok? && strict ==> r.value.0.conflictsCount == d.conflictsCount
    ensures r.Ok? ==> (Normalize.ExpandSpec(resp.parsed.rows, pageIndex, OrderMap(entries)).Ok?
      && r.value.1 == AssignIndex(entries, Normalize.ExpandSpec(resp.parsed.rows, pageIndex, OrderMap(entries)).value).0
      && MergeAll(d, AssignIndex(entries, Normalize.ExpandSpec(resp.parsed.rows, pageIndex, OrderMap(entries)).value).1,
                  strict) == Ok(r.value.0))
  {
    var expanded := Normalize.ExpandTimeseriesRows(resp.parsed.rows, pageIndex, OrderMap(entries));
    if expanded.Err? {
      return Err(expanded.error);
    }
    var placed := AssignIndex(entries, expanded.value);
    AssignIndexFacts(entries, expanded.value);
    var merged := MergeRecords(d, placed.1, strict);
    if merged.Err? {
      return Err(merged.error);
    }
    MergeAllKeyed(d, placed.1, strict);
    MergeAllTallied(d, placed.1, strict);
    StrictAgreesWithBestEffort(d, placed.1);
    MergeKeepsIndexed(d, placed.1, strict, entries, placed.0);
    return Ok((merged.value, placed.0));
  }

  /** The records returned by the code-API loops are the reconciliation of the replies they used. */
  ghost predicate CodeReturns(replies: seq<Result<Response>>, entries: seq<(string, int)>, strict: bool,
                              outputOrder: string, records: seq<TimeSeriesRecord>) {
    var cs := CodeSeen(replies, entries);
    cs.Ok? && MergeAll(NO_RECORDS, cs.value.0, strict).Ok?
    && records == ReconciledRecords(cs.value.0, strict, outputOrder)
  }

  /** The records returned by the layer-API loop are the reconciliation of the replies it used. */
  ghost predicate LayerReturns(replies: seq<Result<Response>>, strict: bool, outputOrder: string,
                               records: seq<TimeSeriesRecord>) {
    var ls := LayerSeen(replies);
    ls.Ok? && MergeAll(NO_RECORDS, ls.value.0, strict).Ok?
    && records == ReconciledRecords(ls.value.0, strict, outputOrder)
  }

  /** One code-API reply used by the loop extends the reconciled replies by one. */
  lemma CodeAdvance(responses: seq<Result<Response>>, requests: nat, entries: seq<(string, int)>, strict: bool,
                    d: Dedupe, pageIndex: int, resp: Response, d': Dedupe)
    requires 1 <= requests <= |responses| && responses[requests - 1] == Ok(resp)
    requires CodeReconciled(responses[..requests - 1], entries, strict, d, pageIndex)
    requires Normalize.ExpandSpec(resp.parsed.rows, pageIndex, OrderMap(entries)).Ok?
    requires MergeAll(d, Normalize.ExpandSpec(resp.parsed.rows, pageIndex, OrderMap(entries)).value, strict) == Ok(d')
    ensures CodeReconciled(responses[..requests], entries, strict, d',
                           if resp.parsed.nextPosition.None? then 0 else pageIndex + 1)
  {
    TakeSnoc(responses, requests);
    CodeReconciledStep(responses[..requests - 1], responses[..requests], entries, strict, d, pageIndex, resp);
  }

  /** The code-API frame returns the reconciliation of the replies used. */
  lemma CodeFinish(replies: seq<Result<Response>>, entries: seq<(string, int)>, strict: bool, d: Dedupe,
                   lastMeta: Option<ResponseMeta>, outputOrder: string)
    requires CodeReconciled(replies, entries, strict, d, 0) && Keyed(d)
    ensures CodeReturns(replies, entries, strict, outputOrder, FinishFrame(d, lastMeta, outputOrder).records)
  {
  }

  /** Taking one more element of a sequence appends it. */
  lemma TakeSnoc<T>(s: seq<T>, n: nat)
    requires 1 <= n <= |s|
    ensures s[..n] == s[..n - 1] + [s[n - 1]]
  {
  }

  /** One layer-API reply used by the loop extends the reconciled replies by one. */
  lemma LayerAdvance(responses: seq<Result<Response>>, requests: nat, strict: bool, d: Dedupe,
                     entries: seq<(string, int)>, resp: Response, d': Dedupe, entries': seq<(string, int)>)
    requires 1 <= requests <= |responses| && responses[requests - 1] == Ok(resp)
    requires LayerReconciled(responses[..requests - 1], strict, d, entries)
    requires PageReconciled(d, entries, resp, requests - 1, strict, d', entries')
    ensures LayerReconciled(responses[..requests], strict, d', entries')
  {
    TakeSnoc(responses, requests);
    LayerReconciledStep(responses[..requests - 1], responses[..requests], strict, d, entries, resp, d', entries');
  }

  /** The layer-API frame returns the reconciliation of the replies used. */
  lemma LayerFinish(replies: seq<Result<Response>>, strict: bool, d: Dedupe, entries: seq<(string, int)>,
                    lastMeta: Option<ResponseMeta>, outputOrder: string)
    requires LayerReconciled(replies, strict, d, entries) && Keyed(d)
    ensures LayerReturns(replies, strict, outputOrder, FinishFrame(d, lastMeta, outputOrder).records)
  {
  }

  /**
   * The inner loop of `get_by_code` for one chunk: request pages from
   * `start` until the server reports no next position. `stop` holds the
   * outcome when the retrieval ends inside the chunk; otherwise the table,
   * the last metadata and the number of replies used so far are passed on.
   */
  method FetchChunk(config: ClientConfig, chunkIndex: int, start: int, entries: seq<(string, int)>,
                    fingerprint: string, lang: string, format: string, strict: bool,
                    d0: Dedupe, meta0: Option<ResponseMeta>, responses: seq<Result<Response>>, used: nat)
    returns (stop: Option<Outcome>, d: Dedupe, lastMeta: Option<ResponseMeta>, requests: nat)
    requires used <= |responses| && Progress(d0, meta0, strict)
    requires CodeReconciled(responses[..used], entries, strict, d0, 0)
    ensures used <= requests <= |responses|
    ensures stop.None? ==> Progress(d, lastMeta, strict) && lastMeta.Some? && lastMeta.value.nextPosition.None?
    ensures stop.None? ==> CodeReconciled(responses[..requests], entries, strict, d, 0)
    ensures stop.Some? ==> !stop.value.Returned?
  {
    var pager := new CodePager.CodePagerState(chunkIndex, start);
    d, lastMeta, requests := d0, meta0, used;
    var pageIndex := 0;
    while true
      invariant used <= requests <= |responses|
      invariant Progress(d, lastMeta, strict)
      invariant CodeReconciled(responses[..requests], entries, strict, d, pageIndex)
      decreases |responses| - requests
    {
      if requests == |responses| {
        return Some(OutOfResponses), d, lastMeta, requests;
      }
      var reply := responses[requests];
      requests := requests + 1;
      if reply.Err? {
        return Some(Raised(reply.error)), d, lastMeta, requests;
      }
      var resp := reply.value;
      var page := CodePage(d, resp, pageIndex, entries, strict);
      if page.Err? {
        return Some(Raised(page.error)), d, lastMeta, requests;
      }
      CodeAdvance(responses, requests, entries, strict, d, pageIndex, resp, page.value);
      d := page.value;
      var next := resp.parsed.nextPosition;
      var token := Resume.CreateResumeToken("code", config.baseUrl, fingerprint, chunkIndex, TokenPosition(next),
        lang, format, PARSER_VERSION, NORMALIZER_VERSION, SCHEMA_VERSION, entries);
      lastMeta := Some(PageMeta(resp, token, None, d));
      pageIndex := pageIndex + 1;
      var advance := CodePager.AdvanceCodePosition(pager, next);
      if advance.Stalled? {
        return Some(Raised(PaginationStalled(advance.chunkIndex, advance.start, advance.next))), d, lastMeta, requests;
      }
      if advance.Finished? {
        return None, d, lastMeta, requests;
      }
    }
  }

  /**
   * The paging loop of `get_by_code`: chunks of codes, one cursor per chunk,
   * each page reconciled into one table. Replies are taken from `responses`
   * in order; `requests` counts the ones used. `cached` is what a fresh cache
   * entry for the request's key holds, if there is one.
   */
  method FetchByCode(config: ClientConfig, codes: seq<string>, strictMode: bool, splitMode: bool,
                     outputOrder: string, lang: string, format: string, fingerprint: string,
                     startPosition: Option<int>, resumeToken: Option<Resume.Token>,
                     cached: Option<Models.TimeSeriesFrame>, responses: seq<Result<Response>>)
    returns (out: Outcome, requests: nat)
    ensures requests <= |responses|
    ensures Validation.ValidateStrictAutoSplit(strictMode, splitMode).Err? ==>
      (out == Raised(Validation.ValidateStrictAutoSplit(strictMode, splitMode).error) && requests == 0)
    ensures (Validation.ValidateStrictAutoSplit(strictMode, splitMode).Ok? && Resume.Given(resumeToken)
      && CodeResume(resumeToken.value, fingerprint).Err?) ==>
      (out == Raised(CodeResume(resumeToken.value, fingerprint).error) && requests == 0)
    ensures (Validation.ValidateStrictAutoSplit(strictMode, splitMode).Ok?
      && (Resume.Given(resumeToken) ==> CodeResume(resumeToken.value, fingerprint).Ok?)
      && cached.Some?) ==> (out == Returned(cached.value) && requests == 0)
    ensures out.Returned? && cached.None? ==>
      FrameFacts(out.frame, config.consistencyMode.Strict?, outputOrder) && out.frame.meta.resumeToken.None?
    ensures out.Returned? && cached.None? ==>
      var entries := if Resume.Given(resumeToken) && CodeResume(resumeToken.value, fingerprint).Ok?
        then CodeResume(resumeToken.value, fingerprint).value.codeOrderMap else EnumerateCodes(codes);
      CodeReturns(responses[..requests], entries, config.consistencyMode.Strict?, outputOrder, out.frame.records)
  {
    var valid := Validation.ValidateStrictAutoSplit(strictMode, splitMode);
    if valid.Err? {
      return Raised(valid.error), 0;
    }
    var chunks: seq<seq<string>>;
    if strictMode || !splitMode {
      chunks := [codes];
    } else {
      var split := CodeChunks.SplitCodesByFrequencyAndSize(codes, 250);
      chunks := split.value;
    }
    var entries := EnumerateCodes(codes);
    var startChunk := 0;
    var chunkStart := if PositionGiven(startPosition) then startPosition.value else 1;
    if Resume.Given(resumeToken) {
      var state := CodeResume(resumeToken.value, fingerprint);
      if state.Err? {
        return Raised(state.error), 0;
      }
      startChunk := state.value.chunkIndex;
      chunkStart := state.value.nextPosition;
      entries := state.value.codeOrderMap;
    }
    if cached.Some? {
      return Returned(cached.value), 0;
    }
    out, requests := ChunkLoop(config, chunks, startChunk, chunkStart, entries, fingerprint, lang, format,
      outputOrder, responses);
  }

  /** The chunk loop of `get_by_code`, from the resumed chunk to the finished frame. */
  method ChunkLoop(config: ClientConfig, chunks: seq<seq<string>>, startChunk: int, chunkStart: int,
                   entries: seq<(string, int)>, fingerprint: string, lang: string, format: string,
                   outputOrder: string, responses: seq<Result<Response>>)
    returns (out: Outcome, requests: nat)
    ensures requests <= |responses|
    ensures out.Returned? ==>
      FrameFacts(out.frame, config.consistencyMode.Strict?, outputOrder) && out.frame.meta.resumeToken.None?
    ensures out.Returned? ==>
      CodeReturns(responses[..requests], entries, config.consistencyMode.Strict?, outputOrder, out.frame.records)
  {
    var strict := config.consistencyMode.Strict?;
    var dd := NO_RECORDS;
    var lastMeta: Option<ResponseMeta> := None;
    requests := 0;
    assert responses[..0] == [];
    for chunkIndex := 0 to |chunks|
      invariant requests <= |responses|
      invariant Progress(dd, lastMeta, strict)
      invariant CodeReconciled(responses[..requests], entries, strict, dd, 0)
      invariant lastMeta.Some? ==> lastMeta.value.nextPosition.None?
    {
      if chunkIndex < startChunk {
        continue;
      }
      var stop;
      stop, dd, lastMeta, requests := FetchChunk(config, chunkIndex, if chunkIndex == startChunk then chunkStart else 1,
        entries, fingerprint, lang, format, strict, dd, lastMeta, responses, requests);
      if stop.Some? {
        return stop.value, requests;
      }
    }
    FinishFrameFacts(dd, lastMeta, outputOrder, strict);
    CodeFinish(responses[..requests], entries, strict, dd, lastMeta, outputOrder);
    return Returned(FinishFrame(dd, lastMeta, outputOrder)), requests;
  }

  /** What holds between the pages of the layer loop besides `Progress`. */
  ghost predicate LayerProgress(d: Dedupe, entries: seq<(string, int)>, signal: Option<string>,
                                lastMeta: Option<ResponseMeta>, strict: bool) {
    && Positional(entries) && AllIndexed(d, entries)
    && (strict ==> signal.None?)
    && (lastMeta.Some? ==> lastMeta.value.consistencySignal == signal)
  }

  /**
   * One reply of the layer loop: the publication-window check, the page,
   * and the metadata recorded for it. `err` holds the exception raised, if any.
   */
  method LayerReply(config: ClientConfig, fingerprint: string, lang: string, format: string, firstFetch: Clock,
                    resp: Response, pageIndex: int, d0: Dedupe, entries0: seq<(string, int)>,
                    signal0: Option<string>, strict: bool)
    returns (err: Option<BojError>, d: Dedupe, entries: seq<(string, int)>, signal: Option<string>, meta: ResponseMeta)
    requires Keyed(d0) && Tallied(d0) && (strict ==> d0.conflictsCount == 0)
    requires Positional(entries0) && AllIndexed(d0, entries0) && (strict ==> signal0.None?)
    ensures err.None? ==> Progress(d, Some(meta), strict) && LayerProgress(d, entries, signal, Some(meta), strict)
    ensures err.None? ==> meta.nextPosition == resp.parsed.nextPosition
    ensures err.None? ==> PageReconciled(d0, entries0, resp, pageIndex, strict, d, entries)
    ensures err.None? ==> (signal.Some? <==> signal0.Some? || WindowCrossed(firstFetch, resp.receivedAt))
    ensures strict && WindowCrossed(firstFetch, resp.receivedAt) ==>
      err == Some(ConsistencyError("window_crossed", Window(firstFetch, resp.receivedAt)))
  {
    d, entries, signal := d0, entries0, signal0;
    meta := EmptyMeta("");
    var now := resp.receivedAt;
    if WindowCrossed(firstFetch, now) {
      signal := Some("window_crossed");
      if strict {
        return Some(ConsistencyError("window_crossed", Window(firstFetch, now))), d, entries, signal, meta;
      }
    }
    var page := LayerPage(d, entries, resp, pageIndex, strict);
    if page.Err? {
      return Some(page.error), d, entries, signal, meta;
    }
    d, entries := page.value.0, page.value.1;
    var next := resp.parsed.nextPosition;
    var token := Resume.CreateResumeToken("layer", config.baseUrl, fingerprint, 0, TokenPosition(next),
      lang, format, PARSER_VERSION, NORMALIZER_VERSION, SCHEMA_VERSION, entries);
    meta := PageMeta(resp, token, signal, d);
    err := None;
  }

  /**
   * The paging loop of `get_by_layer`, with the metadata-driven wildcard
   * delegation left out. `firstFetch` is the clock reading taken before the
   * first request; each reply carries the reading taken after it.
   */
  method FetchByLayer(config: ClientConfig, lang: string, format: string, fingerprint: string,
                      autoPaginate: bool, startPosition: Option<int>, resumeToken: Option<Resume.Token>,
                      cached: Option<Models.TimeSeriesFrame>, firstFetch: Clock, responses: seq<Result<Response>>)
    returns (out: Outcome, requests: nat)
    ensures requests <= |responses|
    ensures !autoPaginate ==> requests <= 1
    ensures cached.Some? ==> (out == Returned(cached.value) && requests == 0)
    ensures (cached.None? && Resume.Given(resumeToken) && LayerResume(resumeToken.value, fingerprint).Err?) ==>
      (out == Raised(LayerResume(resumeToken.value, fingerprint).error) && requests == 0)
    ensures out.Returned? && cached.None? ==>
      && FrameFacts(out.frame, config.consistencyMode.Strict?, config.outputOrder)
      && CodesIndexed(out.frame.records)
      && (config.consistencyMode.Strict? ==> out.frame.meta.consistencySignal.None?)
    ensures out.Returned? && cached.None? ==>
      LayerReturns(responses[..requests], config.consistencyMode.Strict?, config.outputOrder, out.frame.records)
  {
    if cached.Some? {
      return Returned(cached.value), 0;
    }
    var pager := new LayerPager.LayerPagerState(if PositionGiven(startPosition) then startPosition.value else 1);
    if Resume.Given(resumeToken) {
      var state := LayerResume(resumeToken.value, fingerprint);
      if state.Err? {
        return Raised(state.error), 0;
      }
      pager.startPosition := state.value.nextPosition;
    }
    out, requests := LayerLoop(config, lang, format, fingerprint, autoPaginate, pager, firstFetch, responses);
  }

  /** The request loop of `get_by_layer`, from the first page to the finished frame. */
  method LayerLoop(config: ClientConfig, lang: string, format: string, fingerprint: string,
                   autoPaginate: bool, pager: LayerPager.LayerPagerState, firstFetch: Clock,
                   responses: seq<Result<Response>>)
    returns (out: Outcome, requests: nat)
    modifies pager
    ensures requests <= |responses|
    ensures !autoPaginate ==> requests <= 1
    ensures out.Returned? ==>
      && FrameFacts(out.frame, config.consistencyMode.Strict?, config.outputOrder)
      && CodesIndexed(out.frame.records)
      && (config.consistencyMode.Strict? ==> out.frame.meta.consistencySignal.None?)
    ensures out.Returned? ==>
      LayerReturns(responses[..requests], config.consistencyMode.Strict?, config.outputOrder, out.frame.records)
  {
    var strict := config.consistencyMode.Strict?;
    var dd := NO_RECORDS;
    var signal: Option<string> := None;
    var lastMeta: Option<ResponseMeta> := None;
    var entries: seq<(string, int)> := [];
    assert responses[..0] == [];
    requests := 0;
    while true
      invariant requests <= |responses|
      invariant !autoPaginate ==> requests == 0
      invariant Progress(dd, lastMeta, strict)
      invariant LayerProgress(dd, entries, signal, lastMeta, strict)
      invariant LayerReconciled(responses[..requests], strict, dd, entries)
      decreases |responses| - requests
    {
      if requests == |responses| {
        return OutOfResponses, requests;
      }
      var reply := responses[requests];
      requests := requests + 1;
      if reply.Err? {
        return Raised(reply.error), requests;
      }
      var err, meta;
      err, dd, entries, signal, meta := LayerStep(config, fingerprint, lang, format, firstFetch,
        responses, requests, dd, entries, signal, strict);
      if err.Some? {
        return Raised(err.value), requests;
      }
      lastMeta := Some(meta);
      var next := reply.value.parsed.nextPosition;
      if !autoPaginate {
        break;
      }
      var advance := LayerPager.AdvanceLayerPosition(pager, next);
      if advance.Stalled? {
        return Raised(PaginationStalled(advance.chunkIndex, advance.start, advance.next)), requests;
      }
      if advance.Finished? {
        break;
      }
    }
    var frame := FinishFrame(dd, lastMeta, config.outputOrder);
    LayerDone(responses[..requests], strict, config.outputOrder, dd, entries, signal, lastMeta, frame);
    return Returned(frame), requests;
  }

  /** One reply of the layer loop, taken as the next of the replies already reconciled. */
  method LayerStep(config: ClientConfig, fingerprint: string, lang: string, format: string, firstFetch: Clock,
                   responses: seq<Result<Response>>, requests: nat, d0: Dedupe, entries0: seq<(string, int)>,
                   signal0: Option<string>, strict: bool)
    returns (err: Option<BojError>, d: Dedupe, entries: seq<(string, int)>, signal: Option<string>, meta: ResponseMeta)
    requires 1 <= requests <= |responses| && responses[requests - 1].Ok?
    requires Progress(d0, None, strict) && LayerProgress(d0, entries0, signal0, None, strict)
    requires LayerReconciled(responses[..requests - 1], strict, d0, entries0)
    ensures err.None? ==> Progress(d, Some(meta), strict) && LayerProgress(d, entries, signal, Some(meta), strict)
    ensures err.None? ==> meta.nextPosition == responses[requests - 1].value.parsed.nextPosition
    ensures err.None? ==> LayerReconciled(responses[..requests], strict, d, entries)
  {
    var resp := responses[requests - 1].value;
    err, d, entries, signal, meta := LayerReply(config, fingerprint, lang, format, firstFetch,
      resp, requests - 1, d0, entries0, signal0, strict);
    if err.None? {
      LayerAdvance(responses, requests, strict, d0, entries0, resp, d, entries);
    }
  }

  /** What the layer loop knows when it stops holds of the frame it returns. */
  lemma LayerDone(replies: seq<Result<Response>>, strict: bool, outputOrder: string, d: Dedupe,
                  entries: seq<(string, int)>, signal: Option<string>, lastMeta: Option<ResponseMeta>,
                  frame: Models.TimeSeriesFrame)
    requires Progress(d, lastMeta, strict) && LayerProgress(d, entries, signal, lastMeta, strict)
    requires LayerReconciled(replies, strict, d, entries)
    requires frame == FinishFrame(d, lastMeta, outputOrder)
    ensures FrameFacts(frame, strict, outputOrder) && CodesIndexed(frame.records)
    ensures strict ==> frame.meta.consistencySignal.None?
    ensures LayerReturns(replies, strict, outputOrder, frame.records)
  {
    FinishFrameFacts(d, lastMeta, outputOrder, strict);
    FinishFrameIndexed(d, lastMeta, outputOrder, entries);
    LayerFinish(replies, strict, d, entries, lastMeta, outputOrder);
  }
}
