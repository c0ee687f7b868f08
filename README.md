# bojstat retrieval engine in Dafny

`bojstat` is a client for the Bank of Japan's time-series statistics API. This
project models the part of it that decides what is requested and what is
returned, and proves properties of that model. The covered parts are:

- the code API (`getDataCode`), which takes series codes split into chunks of at most 250 codes of one frequency;
- the layer API (`getDataLayer`), which takes a database, a frequency and a layer path;
- paging with a forward-only cursor that raises a stall error;
- resume tokens, with an ordered list of mismatch reasons;
- the retry policy and attempt budget of the transport layer, and the rate limiter on its own (the transport loop does not call it);
- the file cache;
- input validation;
- the CSV line classifier and row normalisation;
- reconciliation of duplicate observations (one record per series code and survey date, the newest LAST_UPDATE winning);
- the canonical output order;
- the check of the morning publication window (08:50 to 10:20).

Each module follows one source file:

- `Data`: `services/data.py`, covering record choice, sorting, the window check, the wildcard decision, the cache key and the code and layer loops.
- `CodePager` and `LayerPager`: `pager/code_pager.py` and `pager/layer_pager.py`. They are classes whose `startPosition` field only moves forward.
- `Resume`: `resume.py`.
- `Transport` and `Http`: `services/_transport.py` and `http.py`.
- `Cache`: `cache.py`, a class whose directory is a map from file names to contents.
- `Validation` and `CodeChunks`: `validation.py`. `CodeChunks` holds the frequency guess and the chunk split.
- `Normalize`: `normalize.py`.
- `CsvParser`: `parsers/csv_parser.py`, starting from already-tokenised rows.
- `ErrorsCatalog`: `errors_catalog.py`.
- `Models`: `models.py`.
- `Types`, `Config` and `Errors`: the records, configuration and exception kinds these files share.
- `Values`, `Json`, `Text` and `Sorting`: JSON-like values, the fingerprint serialisation, Python string helpers and `sorted`.

The design choices are these:

- Every page the server returns is an input value. The loops of `get_by_code`, `get_by_layer` and `perform_sync_request` run over a scripted sequence of replies, so each loop is a `method` with invariants.
- The page steps `Data.CodePage` and `Data.LayerPage` are proved against the pure functions `MergeAll` and `AssignIndex`. The result of `Data.FetchByCode` and `Data.FetchByLayer` is built by `FinishFrame` and `SortRecords`. The contracts of the two loops state the observable guarantees:
  - errors are raised before any request;
  - a cached frame short-circuits the loop;
  - the request count stays within the replies supplied;
  - each frame returned has one record per key, a sorted order and a bounded conflict sample.
- Clocks, the jitter draw and the outcome of a file write are parameters.
- `ClientConfig.resolve_wildcard` is read by `data.py` but is absent from the configuration class in `config.py`. It is modelled as a configuration field.

## Model

| member | source | states |
|---|---|---|
| CodePager.Decide | src/bojstat/pager/code_pager.py:32-41 | no next position finishes; a next position at or before the cursor is a stall carrying the chunk index, the cursor and the reported position; a larger one advances |
| CodePager.NextStart | src/bojstat/pager/code_pager.py:40 | the cursor never moves back, and it moves exactly when the decision is to advance |
| CodePager.CodePagerState.constructor | src/bojstat/pager/code_pager.py:11-15 | a cursor holds its chunk index and a start position that defaults to 1 |
| CodePager.AdvanceCodePosition | src/bojstat/pager/code_pager.py:18-41 | the result is the decision for the old cursor; the chunk index is kept and the cursor moves to the next position only when it advances |
| CodePager.Walk | src/bojstat/pager/code_pager.py:32-41 | the cursor positions visited over a run of pages start at the start position, with at most one more position than pages |
| CodePager.WalkStrictlyIncreases | src/bojstat/pager/code_pager.py:34-40 | along any run of advances the cursor strictly increases, so paging cannot loop |
| CodePager.WalkPositionsReported | src/bojstat/pager/code_pager.py:40 | every position the cursor takes is the NEXTPOSITION the server reported on the page before |
| LayerPager.LayerPagerState.constructor | src/bojstat/pager/layer_pager.py:11-14 | a layer cursor starts at the given position, 1 by default |
| LayerPager.AdvanceLayerPosition | src/bojstat/pager/layer_pager.py:17-40 | behaves as the code cursor with chunk index 0: same decision, same move |
| Resume.FingerprintIgnoresInsertionOrder | src/bojstat/resume.py:24-28 | two component dictionaries with the same entries in any order get the same fingerprint, because keys are sorted before hashing |
| Resume.CodeOrderValue | src/bojstat/resume.py:87 | the code order map is stored with one entry per code |
| Resume.IntField | src/bojstat/resume.py:44 | a missing integer field makes the token unreadable, naming the field |
| Resume.StrField | src/bojstat/resume.py:45 | a string field fails exactly when it is missing, naming the field |
| Resume.CodeOrderEntries | src/bojstat/resume.py:55 | a decoded code order map has one entry per stored entry |
| Resume.CodeOrderField | src/bojstat/resume.py:55 | a missing code_order_map makes the token unreadable |
| Resume.DecodeResumeToken | src/bojstat/resume.py:38-56 | every decoding failure is reported as an unreadable token |
| Resume.CodeOrderRoundTrip | src/bojstat/resume.py:55-87 | reading back a stored code order map gives the original entries in order |
| Resume.DecodeCreateRoundTrip | src/bojstat/resume.py:38-89 | decoding a freshly created token gives back every argument, with the current token version |
| Resume.PayloadFields | src/bojstat/resume.py:75-88 | the created payload holds each of the twelve fields with the value it was given |
| Resume.FieldNamesDistinct | src/bojstat/resume.py:44-55 | the twelve field names read by decoding are pairwise distinct |
| Resume.DecodedPayloadHasEveryField | src/bojstat/resume.py:43-56 | a payload that decodes holds all twelve fields |
| Resume.DecodeNeedsEveryField | src/bojstat/resume.py:43-56 | a payload missing any one of the twelve fields cannot be decoded |
| Resume.FirstMismatch | src/bojstat/resume.py:109-116 | reports nothing exactly when every check passes, and otherwise the first failing check |
| Resume.ValidateResumeToken | src/bojstat/resume.py:92-116 | accepts exactly when token version, fingerprint, chunk index, parser and normalizer versions all match; otherwise raises the mismatch reason of the first field that differs, in that order |
| Resume.ValidationIgnoresUncheckedFields | src/bojstat/resume.py:102-108 | api, origin, language, format, schema version and next position do not affect validation |
| Resume.CreatedTokenValidates | src/bojstat/resume.py:59-116 | a created token decodes and validates against the request it was created for |
| Cache.PathForKey | src/bojstat/cache.py:41-44 | the cache file name ends in ".json" |
| Cache.PathForKeyInjective | src/bojstat/cache.py:41-44 | distinct keys use distinct files, taking the digest as injective |
| Cache.QuarantineIsNotACacheFile | src/bojstat/cache.py:75 | a quarantined file never has the name of a live cache file |
| Cache.Lookup | src/bojstat/cache.py:46-87 | no cache directory, OFF or FORCE_REFRESH, or a missing file is a miss; an unreadable file is a miss and is moved to its quarantine name, the directory afterwards holding exactly the old names without it plus the quarantine name, every other file unchanged; otherwise a hit happens exactly for a complete entry or when incomplete ones are allowed, and is stale exactly when older than the TTL |
| Cache.FileCache.constructor | src/bojstat/cache.py:34-39 | the cache keeps its directory, TTL and the files already there |
| Cache.FileCache.Get | src/bojstat/cache.py:46-87 | the hit and the new directory are those of the lookup |
| Cache.FileCache.Put | src/bojstat/cache.py:89-114 | without a directory nothing changes; otherwise a successful write replaces the key's file with the new body, a failed one leaves the directory as it was, and no temporary file remains |
| Cache.Written | src/bojstat/cache.py:95-99 | the written body records the time, the completeness flag and the payload |
| Cache.PutThenGet | src/bojstat/cache.py:46-114 | a complete entry just written is found with its payload, and is stale exactly when more than the TTL has passed |
| Cache.IncompleteIsMiss | src/bojstat/cache.py:82-83 | an incomplete entry is a miss unless incomplete entries are allowed |
| ErrorsCatalog.ErrorClassifier.Classify | src/bojstat/errors_catalog.py:45-70 | keeps the catalogue version; an id not in the table is "unknown" with confidence 0, a known one gets its category; the observation key is the normalised id, prefixed by "status:" when a status is given |
| ErrorsCatalog.CatalogHasNoUnknown | src/bojstat/errors_catalog.py:11-36 | no catalogued id maps to "unknown" |
| ErrorsCatalog.ConfidenceIffKnown | src/bojstat/errors_catalog.py:62-64 | confidence is 1 exactly for catalogued ids, and the category is "unknown" exactly for the others |
| ErrorsCatalog.NormalizeIdIdempotent | src/bojstat/errors_catalog.py:61 | stripping and upper-casing a normalised id changes nothing |
| ErrorsCatalog.ClassifyIgnoresCaseAndSpace | src/bojstat/errors_catalog.py:61-70 | classifying the normalised id gives the same result as the raw one |
| Http.ParseRetryAfter | src/bojstat/http.py:82-94 | a missing or empty header gives nothing; digits (after stripping) give that many seconds; anything else gives nothing unless it is an HTTP date; a result is never negative |
| Http.OnlyFourStatusesRetried | src/bojstat/http.py:97-109 | only statuses 403, 429, 500 and 503 are ever retried |
| Http.RetriedStatuses | src/bojstat/http.py:97-109 | 429, 500 and 503 are always retried, and 403 exactly when retry_on_403 is set and a Retry-After header is present |
| Http.FullJitterBackoff | src/bojstat/http.py:124-128 | the wait is drawn between 0 and min(cap, base * 2^attempt) |
| Http.JitterCap | src/bojstat/http.py:127 | the upper end is the smaller of the cap and base * 2^attempt |
| Http.BackoffBounds | src/bojstat/http.py:124-128 | with non-negative base and cap the wait lies in [0, cap] and never exceeds base * 2^attempt |
| Http.DecideWaitSeconds | src/bojstat/http.py:131-145 | the wait is the longest of Retry-After, the local wait and the backoff, and its source is "retry_after" exactly when the server sent one |
| Http.SyncRateLimiter.constructor | src/bojstat/http.py:35-38 | the minimum interval is 1/rate, or 0 when the rate is not positive; nothing is scheduled yet |
| Http.SyncRateLimiter.Acquire | src/bojstat/http.py:40-56 | without an interval it returns at once; otherwise it waits until the scheduled time and schedules the next request one interval after it sent, so requests are at least one interval apart |
| Transport.EffectiveTransportMaxAttempts | src/bojstat/services/_transport.py:36-42 | without a transport cap it is max_attempts; with one it is that cap raised to at least 1 |
| Transport.TotalAttempts | src/bojstat/services/_transport.py:187-188 | the loop length is the larger of max_attempts and the transport cap |
| Transport.ComputeBackoff | src/bojstat/services/_transport.py:45-53 | with a non-negative base and cap the backoff lies in [0, cap_delay] |
| Transport.Take | src/bojstat/services/_transport.py:96 | `text[:n]`: the first n characters, or the whole text when shorter |
| Transport.ParseWithFallback | src/bojstat/services/_transport.py:56-98 | a body that parses is returned as parsed; one that does not becomes an UNPARSEABLE_RESPONSE with the HTTP status, no rows, parameters, next position or date, and the first 2048 characters of the text as excerpt |
| Transport.MakeApiError | src/bojstat/services/_transport.py:101-125 | an unparseable body is a gateway error; otherwise 400, 500 and 503 map to bad-request, server and unavailable errors and any other status to the generic API error; status, id, URL and excerpt are carried over, and the full text only when capture is on |
| Transport.ShouldRetryResponse | src/bojstat/services/_transport.py:147-168 | STATUS 500 or 503 is always retried; a 403 with Retry-After when enabled is retried while under its own budget; otherwise exactly HTTP 429, 500 and 503 are retried |
| Transport.StepAt | src/bojstat/services/_transport.py:189-234 | a transport failure is retried exactly when retryable and under the transport budget, with the backoff of that attempt as its wait, and otherwise ends in a transport error; a response is retried when its status is retryable and attempts remain, waiting the Retry-After delay or the backoff; otherwise a non-200 STATUS ends in the error `make_api_error` builds and STATUS 200 in success with the parsed body, URL and text |
| Transport.RunFromUnfold | src/bojstat/services/_transport.py:189-234 | one attempt of the loop: a stop ends the run after one call; a retry adds one call and one wait before the remaining attempts |
| Transport.RetryStep | src/bojstat/services/_transport.py:189-225 | a retried attempt moves one call and its wait from the remaining run into what has been done |
| Transport.RunFromEnd | src/bojstat/services/_transport.py:236-238 | once the attempts are used up the last transport failure is raised, or the generic failure message when there was none |
| Transport.PerformSyncRequest | src/bojstat/services/_transport.py:171-238 | the attempt loop yields exactly the result, call count and waits of the run defined attempt by attempt |
| Transport.Decisions | src/bojstat/services/_transport.py:187-234 | one decision per attempt the budget allows, each the one the loop body takes at that attempt |
| Transport.RunOverShape | src/bojstat/services/_transport.py:189-234 | for any decisions that never retry on the last attempt, the run from any attempt makes at least one call, no more than the attempts left, and sleeps once between consecutive calls |
| Transport.DecisionsWithinBudget | src/bojstat/services/_transport.py:193-225 | the loop never retries on the last attempt of the total budget |
| Transport.RunOverRetriesUntil | src/bojstat/services/_transport.py:189-234 | decisions that retry up to some attempt and stop there end the run with exactly that many calls and that attempt's result |
| Transport.RunOverSucceeds | src/bojstat/services/_transport.py:227-234 | when every stopping decision that succeeds carries STATUS 200, a successful run does too |
| Transport.RunFromShape | src/bojstat/services/_transport.py:189-234 | from any attempt the run makes at least one call, no more than the attempts left, and sleeps once between consecutive calls |
| Transport.CallsWithinBudget | src/bojstat/services/_transport.py:187-238 | a request makes between 1 and the total attempts of GET calls, with one wait fewer than calls; with no attempts at all it fails with the generic message |
| Transport.SuccessMeansStatus200 | src/bojstat/services/_transport.py:227-234 | a request that succeeds returned a body whose STATUS is 200 |
| Transport.PersistentTransportFailure | src/bojstat/services/_transport.py:193-202 | when every attempt fails with a retryable transport error, exactly the transport budget of calls is made and the last failure is raised |
| Transport.PersistentServerError | src/bojstat/services/_transport.py:211-233 | when every reply is STATUS 500, exactly max_attempts calls are made and a server error is raised |
| Transport.FinalReplyError | src/bojstat/services/_transport.py:211-233 | when every attempt before the n-th is retried and the n-th reply is not retried and has a STATUS other than 200, the run makes exactly n calls and raises the error `make_api_error` builds from that reply |
| CsvParser.TrimRow | src/bojstat/parsers/csv_parser.py:14-15 | every cell is stripped, the row keeps its length, and a cell becomes empty exactly when it was all whitespace |
| CsvParser.KeptRows | src/bojstat/parsers/csv_parser.py:29 | the parser never sees more rows than the reader produced |
| CsvParser.KeptRowsTrimmed | src/bojstat/parsers/csv_parser.py:29 | every kept row is non-empty, has a non-empty cell, and has no cell with whitespace at its ends, so `row[0]` is always defined |
| CsvParser.ParamGet | src/bojstat/parsers/csv_parser.py:37 | a parameter name is found exactly when some entry has it |
| CsvParser.ParamPut | src/bojstat/parsers/csv_parser.py:62 | assignment keeps every existing name in place and either keeps the length or appends the new entry |
| CsvParser.ParamGetUnique | src/bojstat/parsers/csv_parser.py:37 | with unique names, a lookup returns the value of the entry with that name |
| CsvParser.ParamPutGet | src/bojstat/parsers/csv_parser.py:62 | after assignment the name reads back the new value, other names read as before, and names stay unique |
| CsvParser.NormalizeCells | src/bojstat/parsers/csv_parser.py:77 | each cell is normalised as a key, position by position |
| CsvParser.MapRowDistinct | src/bojstat/parsers/csv_parser.py:83-88 | a mapped data row has one entry per column name |
| CsvParser.MapRowKeys | src/bojstat/parsers/csv_parser.py:85-86 | a mapped data row has no entry for an empty column name or for a name not in the header |
| CsvParser.MapRowValues | src/bojstat/parsers/csv_parser.py:84-87 | each non-empty column name maps to the cell of its last column, or "" when the row is too short |
| CsvParser.MapRow | src/bojstat/parsers/csv_parser.py:83-88 | the column loop builds the specified mapped row |
| CsvParser.ControlStepKeepsData | src/bojstat/parsers/csv_parser.py:46-70 | a control line never touches the data header or the data rows |
| CsvParser.StatusRow | src/bojstat/parsers/csv_parser.py:46-48 | STATUS sets the status to `int(row[1])`, or 0 when the cell is missing or empty; a non-integer raises |
| CsvParser.EmptyNextPositionKeepsState | src/bojstat/parsers/csv_parser.py:64-67 | NEXTPOSITION with a missing or empty value changes nothing; with an integer it sets the next position |
| CsvParser.ParameterRow | src/bojstat/parsers/csv_parser.py:59-63 | PARAMETER maps the normalised name to the third cell, or to None when missing or empty, and changes nothing else |
| CsvParser.DataRow | src/bojstat/parsers/csv_parser.py:72-88 | the first row naming a header column becomes the header; later rows are mapped under it; rows before any header are dropped |
| CsvParser.StepHeader | src/bojstat/parsers/csv_parser.py:44-88 | a header once set is kept, and no data row is added while there is none |
| CsvParser.FoldHeaderFirst | src/bojstat/parsers/csv_parser.py:44-88 | over the whole body no data row is kept before a header, and the first header is never replaced |
| CsvParser.ExcerptIsPrefix | src/bojstat/parsers/csv_parser.py:101 | the excerpt is the first 2048 characters of the body, or the whole body when shorter |
| CsvParser.FoldStep | src/bojstat/parsers/csv_parser.py:44 | the loop over one more row is the step applied to the state so far |
| CsvParser.FoldErrorSticky | src/bojstat/parsers/csv_parser.py:47-66 | the first row that raises decides the outcome |
| CsvParser.ParseCsvResponse | src/bojstat/parsers/csv_parser.py:18-103 | the row loop computes the specified parse of the kept rows, with the excerpt |
| Validation.ValidateOutboundText | src/bojstat/validation.py:125-145 | text passes exactly when it holds no forbidden character and no full-width character; a forbidden character is reported before a full-width one |
| Validation.ValidateAll | src/bojstat/validation.py:155-162 | every item passes the outbound check, or the first failing item's error is returned |
| Validation.NonEmpty | src/bojstat/validation.py:154 | keeps exactly the non-empty pieces and drops nothing else |
| Validation.NormalizeCodes | src/bojstat/validation.py:148-163 | the result is the stripped non-empty pieces, never empty; no pieces left gives missing_code; otherwise it succeeds exactly when every code passes the outbound check |
| Validation.ValidateLayerItems | src/bojstat/validation.py:186-195 | later layer items pass exactly when each is `*` or all digits, and fail with invalid_layer |
| Validation.NormalizeLayer | src/bojstat/validation.py:166-196 | succeeds exactly for 1 to 5 items each `*` or digits, returning them; an empty list is missing_layer, more than five is too_many_layers, a bad first item is invalid_layer1 and a bad later one invalid_layer |
| Validation.PeriodKey | src/bojstat/validation.py:234-237 | the key is the year and the month (0 for a bare year) |
| Validation.PeriodKeyExample | src/bojstat/validation.py:234-237 | 202412 has key (2024, 12) |
| Validation.ValidatePeriodFormat | src/bojstat/validation.py:199-231 | a layer-API period is accepted exactly when it has four digits for CY/FY and six otherwise, a year from 1850 to 2050, and a half 01-02, a quarter 01-04 or a month 01-12 as the frequency asks; a wrong shape is invalid_period_format, then a year out of range is period_out_of_range, then a bad half, quarter or month is invalid_half, invalid_quarter or invalid_month |
| Validation.ValidateCodePeriodFormat | src/bojstat/validation.py:263-291 | a code-API period is accepted exactly when it is YYYY or YYYYMM with year 1850 to 2050 and month 01 to 12; a wrong shape is invalid_code_period_format |
| Validation.CheckPeriod | src/bojstat/validation.py:250-255 | a period that passes is outbound-clean, shaped like YYYY or YYYYMM and passes the format check of its API |
| Validation.CheckPeriods | src/bojstat/validation.py:250-260 | succeeds exactly when both given periods pass and the start key is not after the end key; with two valid periods the failure is period_order |
| Validation.NormalizePeriods | src/bojstat/validation.py:240-260 | the stripped periods are returned exactly when each given one passes the layer-API format for the frequency and they are in order |
| Validation.NormalizeCodePeriods | src/bojstat/validation.py:294-328 | the stripped periods are returned exactly when each given one passes the code-API format and they are in order |
| Validation.CodePeriodsReversed | src/bojstat/validation.py:319-327 | start 202412 with end 202401 is rejected with period_order |
| Validation.NormalizeStartPosition | src/bojstat/validation.py:331-351 | absent gives None; text must strip to digits with value at least 1, an integer must be at least 1 and is returned as is; every failure is invalid_start_position |
| Validation.ValidateStrictAutoSplit | src/bojstat/validation.py:354-358 | fails with a ValueError exactly when strict_api and auto_split_codes are both on |
| Validation.NormalizedEntries | src/bojstat/validation.py:372-373 | each key is stripped and upper-cased, each value kept, in order |
| Validation.RawParamsRejectsCoreKeys | src/bojstat/validation.py:372-381 | the loop fails, always with raw_override_core_forbidden, exactly when some normalised key is a core parameter |
| Validation.RawParamsWellFormed | src/bojstat/validation.py:371-381 | the resulting parameters have distinct, non-empty, non-core keys |
| Validation.RawParamsCoversInput | src/bojstat/validation.py:372-381 | every non-empty normalised input key is present in the result |
| Validation.RawParamsKeepsKeys | src/bojstat/validation.py:381 | a key already present stays present |
| Validation.NormalizeRawParams | src/bojstat/validation.py:362-384 | no or empty raw parameters give an empty result; otherwise the loop's result over the normalised entries, whichever allow_raw_override is |
| Validation.CanonicalFrom | src/bojstat/validation.py:442-452 | one pair per entry whose value is not None, so nothing is dropped exactly when no value is None |
| Validation.CanonicalParams | src/bojstat/validation.py:439-452 | the pairs are those of the key-sorted parameters, skipping None, with upper-cased keys and rendered values |
| Validation.CanonicalStep | src/bojstat/validation.py:443-451 | one loop step appends the entry's pair unless its value is None |
| Validation.CanonicalIgnoresOrder | src/bojstat/validation.py:443 | two dictionaries with the same entries give the same canonical list, whatever their insertion order |
| Validation.CanonicalSortedByKey | src/bojstat/validation.py:443 | the iteration order is sorted by key and is a permutation of the entries |
| Validation.RenderParamSplits | src/bojstat/validation.py:445-451 | a list of comma-free texts is rendered comma-joined, so splitting on commas gives the list back |
| Text.SplitJoin | src/bojstat/validation.py:445-451 | splitting pieces joined by a separator none of them contains gives the pieces back |
| CodeChunks.LastIndexOf | src/bojstat/validation.py:397 | the position found holds the character and none follows it; no position means the character does not occur |
| CodeChunks.AtSuffix | src/bojstat/validation.py:397-398 | the text after the last `@` contains no `@`, and there is a suffix exactly when the code contains `@` |
| CodeChunks.TrailingDigits | src/bojstat/validation.py:401 | counts the maximal run of digits ending the string |
| CodeChunks.RegexGroupIsLeftmostMatch | src/bojstat/validation.py:401 | the computed group is absent exactly when the regular expression has no match, and otherwise is the leftmost match, taking two letters when two qualify |
| CodeChunks.MatchEndsAtDigits | src/bojstat/validation.py:401 | every match's letters end where the trailing digits begin |
| CodeChunks.GuessFrequencyFromCode | src/bojstat/validation.py:387-406 | the result is a known frequency or UNKNOWN; a recognised `@` suffix wins, with W0 to W6 mapped to W |
| CodeChunks.GuessWithoutSuffix | src/bojstat/validation.py:395-405 | with no `@`, an empty suffix or a suffix that is not a known frequency, the guess is the regular expression's group when that names a frequency, and UNKNOWN otherwise |
| CodeChunks.TwoLetterRunWins | src/bojstat/validation.py:401-405 | XQM01 matches the two letters QM, which are not a frequency, so the guess is UNKNOWN |
| CodeChunks.AtSuffixExamples | src/bojstat/validation.py:397-400 | a code ending @M guesses M and one ending @w3 guesses W |
| CodeChunks.OrderFacts | src/bojstat/validation.py:422-428 | the first-appearance key list has no repeats, lists every code's key and only those |
| CodeChunks.OrderEmpty | src/bojstat/validation.py:422-428 | the key list is empty exactly when there are no codes |
| CodeChunks.GroupFacts | src/bojstat/validation.py:429 | a group holds only input codes of its key, and is empty when no code has that key |
| CodeChunks.ChunkedBounds | src/bojstat/validation.py:434-435 | every slice holds between 1 and size items taken from the input |
| CodeChunks.ChunkedFlatten | src/bojstat/validation.py:434-435 | the slices put back together give the input, in order |
| CodeChunks.ChunkedSizes | src/bojstat/validation.py:434-435 | every slice but the last holds exactly size items |
| CodeChunks.ThreeHundredCodes | src/bojstat/validation.py:434-435 | 300 codes of one frequency split into chunks of 250 and 50 |
| CodeChunks.ChunksForFacts | src/bojstat/validation.py:431-436 | every chunk is within bounds and its codes share one listed key |
| CodeChunks.ChunksForFlatten | src/bojstat/validation.py:431-436 | the chunks put back together are the groups one after the other |
| CodeChunks.GroupsArePermutation | src/bojstat/validation.py:422-436 | the groups in first-appearance order hold every input code exactly once |
| CodeChunks.SplitSpecProperties | src/bojstat/validation.py:409-436 | every chunk is non-empty, holds at most size codes of one frequency, and the chunks are the input regrouped by first-seen frequency, each group in input order |
| CodeChunks.GroupBy | src/bojstat/validation.py:422-429 | the loop's order list is the first-appearance key list and each dictionary entry is that key's group |
| CodeChunks.AppendChunks | src/bojstat/validation.py:433-435 | the inner loop appends exactly the size-limited slices of the group |
| CodeChunks.SplitCodesByFrequencyAndSize | src/bojstat/validation.py:409-436 | a positive size gives the specified split; size 0 fails exactly when there are codes; a negative size gives no chunks |
| Normalize.NormalizeKey | src/bojstat/normalize.py:32-41 | the canonical name never contains a space |
| Normalize.AliasValuesHaveNoSpace | src/bojstat/normalize.py:11-29 | no canonical alias contains a space |
| Normalize.CompactShape | src/bojstat/normalize.py:35 | the compact form has no underscore and no lower-case letter |
| Normalize.NormalizeKeyIgnoresCase | src/bojstat/normalize.py:32-41 | a key and its lower-case spelling normalise to the same name, so "series_code" and "SERIES_CODE" agree |
| Normalize.NormalizeKeyIdempotentOutsideTable | src/bojstat/normalize.py:35-41 | for a key not found in the alias table, normalising the result again changes nothing |
| Normalize.WeekAnchor | src/bojstat/normalize.py:104-105 | an anchor exists exactly when the label has both `(` and `)`, and contains no `)` |
| Normalize.FrequencyCodeFromLabel | src/bojstat/normalize.py:82-107 | a missing or empty label gives nothing; a label with ANNUAL (MAR) gives FY and any other label with ANNUAL gives CY; otherwise QUARTERLY, MONTHLY and DAILY, tested in that order, give Q, M and D; failing those, WEEKLY gives W with the parenthesised anchor, and anything else gives nothing |
| Normalize.HalfYearCodesUnreachable | src/bojstat/normalize.py:88-95 | CH and FH are never produced, because every SEMIANNUAL label contains ANNUAL, which is tested first and gives CY |
| Normalize.AnnualLabels | src/bojstat/normalize.py:88-95 | every label containing ANNUAL (MAR), SEMIANNUAL (SEP) or SEMIANNUAL also contains ANNUAL |
| Normalize.SeriesCodeSpellings | src/bojstat/normalize.py:11-41 | SERIES CODE, SERIESCODE and series_code all normalise to SERIES_CODE |
| Normalize.NormalizeRowDistinct | src/bojstat/normalize.py:127 | a normalised row has one entry per canonical key |
| Normalize.Extract | src/bojstat/normalize.py:110-114 | the value under the first listed key present, or None when none is present |
| Normalize.ExtractFirstPresent | src/bojstat/normalize.py:110-114 | keys after the first present one are never consulted |
| Normalize.Extras | src/bojstat/normalize.py:161-177 | the extras keep exactly the entries whose key is not a recognised column |
| Normalize.DecimalOrNone | src/bojstat/normalize.py:70-75 | None exactly for a missing, blank or "null" cell, otherwise the stripped text |
| Normalize.OptText | src/bojstat/normalize.py:149-155 | None exactly when the value is None |
| Normalize.MakeRecord | src/bojstat/normalize.py:146-178 | the record carries the row's code, the survey date, its page and row, the code's request position and the cell's value, and no recognised column among its extras |
| Normalize.ListOrEmpty | src/bojstat/normalize.py:142-143 | an absent list is empty, a list is kept, and a scalar raises the TypeError of `list()` |
| Normalize.NestedRecords | src/bojstat/normalize.py:144-179 | one record per survey date, in order; a date past the end of the values gets no value |
| Normalize.NestedProvenance | src/bojstat/normalize.py:146-160 | every nested record carries the row's code, page, row and code position |
| Normalize.RecordsOfProvenance | src/bojstat/normalize.py:126-220 | a row without a series code gives no record; every record of a row carries its code, page, row and code position and no recognised column among its extras |
| Normalize.FlatRowCount | src/bojstat/normalize.py:182-220 | a flat row gives one record when it has SURVEY_DATES and none otherwise |
| Normalize.NestedRowCount | src/bojstat/normalize.py:140-180 | a nested row gives exactly one record per survey date, unless reading its lists fails |
| Normalize.CollectLast | src/bojstat/normalize.py:126 | one more row appends its records after those of the earlier rows, or its error replaces them |
| Normalize.CollectProvenance | src/bojstat/normalize.py:125-221 | walking tagged rows keeps every record on the page and in row order |
| Normalize.RowsOfPageTagged | src/bojstat/normalize.py:126-160 | each record a page row gives is tagged with that row |
| Normalize.ExpandProvenance | src/bojstat/normalize.py:117-221 | every record names its page, its row and its code's position in the request, has a non-empty code, and records come out in row order |
| Normalize.CollectErrorSticky | src/bojstat/normalize.py:126 | the first failing row decides the result; later rows are never looked at |
| Normalize.AppendNested | src/bojstat/normalize.py:144-179 | the inner loop appends exactly the nested records of the row |
| Normalize.ExpandNested | src/bojstat/normalize.py:140-180 | a nested row reads its two lists, then appends one record per date, or fails with the list error |
| Normalize.ExpandRow | src/bojstat/normalize.py:127-220 | one pass of the row loop appends exactly the row's records |
| Normalize.ExpandTimeseriesRows | src/bojstat/normalize.py:117-221 | the loop's result is the specified expansion of the page's rows |
| Models.TimeSeriesFrame.ToWide | src/bojstat/models.py:70-78 | the rows returned are the wide rows of the frame's records |
| Models.FillTable | src/bojstat/models.py:73-77 | the loop leaves the table of rows keyed by survey date, each record written in order, and the dates in first-seen order |
| Models.WideTable | src/bojstat/models.py:73-77 | the table has a row for exactly the survey dates that occur |
| Models.WideStep | src/bojstat/models.py:74-77 | one record writes its date and its value into its date's row, creating the row the first time the date is seen |
| Models.DateOrder | src/bojstat/models.py:73-75 | the first-seen dates are distinct and are exactly the dates that occur |
| Models.WideRows | src/bojstat/models.py:78 | one row per sorted table key |
| Models.WideRowsOnePerDate | src/bojstat/models.py:70-78 | one row per distinct survey date, in strictly increasing date order |
| Models.LastWrite | src/bojstat/models.py:74-77 | finds the last record that writes a given date and code, or shows that none does |
| Models.WideTableCell | src/bojstat/models.py:74-77 | a cell holds the value of the last record with that date and code, so a later duplicate wins, and is absent when there is none |
| Models.WideTableDateCell | src/bojstat/models.py:76 | a row's survey_date column holds its own date when no series is itself called survey_date |
| Models.WideRowCells | src/bojstat/models.py:70-78 | row i belongs to the i-th smallest date; each code's column holds the last value written for that date and code |
| Models.RecordToDict | src/bojstat/models.py:27-43 | the stored dictionary has exactly the record's fourteen field names, in order |
| Models.RecordItems | src/bojstat/models.py:102-105 | one stored dictionary per record |
| Models.ToCachePayload | src/bojstat/models.py:98-107 | the payload keeps the frame's metadata and lists every record's dictionary under "records" |
| Models.GetOr | src/bojstat/models.py:114-132 | a missing key gives the default |
| Models.IntField | src/bojstat/models.py:130-131 | a missing field reads as 0, an integer as itself, and a value `int()` cannot convert fails |
| Models.ExtrasField | src/bojstat/models.py:132 | a falsy value gives the empty dictionary, a dictionary is kept as it is, a list of pairs is folded into a dictionary; any other value is an error |
| Models.PairsToDict | src/bojstat/models.py:132 | `dict()` of a list succeeds exactly when every item is a pair |
| Models.PairsToDictHasKeys | src/bojstat/models.py:132 | every pair's key is in the resulting dictionary |
| Models.PairsToDictOnlyKeys | src/bojstat/models.py:132 | every key of the resulting dictionary is some pair's key |
| Models.TextField | src/bojstat/models.py:119-126 | an absent key or a null gives None, a text value is kept as it is |
| Models.IndexField | src/bojstat/models.py:129 | a position is read exactly when the stored value is an integer, and it is that integer |
| Models.ValueField | src/bojstat/models.py:115-116 | the value is missing exactly when the stored one is None or empty |
| Models.ItemToRecord | src/bojstat/models.py:114-133 | only a dictionary item reads as a record |
| Models.DecodeWith | src/bojstat/models.py:113-134 | a successful read gives one record per item |
| Models.DecodeErrorSticky | src/bojstat/models.py:114-134 | once an item fails, the later items do not matter |
| Models.DecodeAllOk | src/bojstat/models.py:114-134 | when every item reads as its record, the list reads as the list of records |
| Models.FromCachePayload | src/bojstat/models.py:110-146 | the loop's result is the specified reading of the payload |
| Models.RecordDictStores | src/bojstat/models.py:27-43 | the stored dictionary holds every field of the record under its name |
| Models.StoredFieldsReadBack | src/bojstat/models.py:119-132 | what is read back from a stored dictionary is the record's own fields |
| Models.RecordRoundTrip | src/bojstat/models.py:27-43 | reading back one stored record gives the same fields, and the same value when it is text |
| Models.CachePayloadRoundTrip | src/bojstat/models.py:98-146 | reading back a frame's payload gives its metadata and, record by record, the code, dates, last update, code index, page and row positions and other fields; the value too when it is non-empty text |
| Models.Where | src/bojstat/models.py:207-208 | the kept elements are exactly those of the input meeting the condition |
| Models.WhereAppend | src/bojstat/models.py:207-208 | filtering distributes over concatenation, so kept elements stay in order |
| Models.WhereWhere | src/bojstat/models.py:175-190 | filtering by the name and then by the frequency keeps what one filter by both keeps |
| Models.WhereAgree | src/bojstat/models.py:175-190 | conditions that agree on every element keep the same elements |
| Models.WhereAll | src/bojstat/models.py:175-190 | a condition every element meets keeps the whole list |
| Models.NonEmptyCodes | src/bojstat/models.py:165 | the codes listed are exactly the non-empty codes of the records |
| Models.NonEmptyCodesAppend | src/bojstat/models.py:165 | the codes of two lists of records are the codes of each, in record order |
| Models.MetadataFrame.Head | src/bojstat/models.py:156-159 | the first n records with the same metadata; a negative n drops the last -n records |
| Models.MetadataFrame.SeriesCodes | src/bojstat/models.py:161-165 | exactly the non-empty codes of the records |
| Models.MetadataFrame.Find | src/bojstat/models.py:167-191 | the same metadata, and a record is kept exactly when every active filter accepts it |
| Models.MetadataFrame.Filter | src/bojstat/models.py:193-210 | the same metadata, and a record is kept exactly when the predicate holds |
| Models.HeadOfHead | src/bojstat/models.py:156-159 | a prefix of a prefix is the shorter prefix |
| Models.FindIsOneFilter | src/bojstat/models.py:175-191 | the two successive filters keep, in order, the records both conditions accept |
| Models.FindIgnoresCase | src/bojstat/models.py:177-185 | the letter case of the needle and of the frequency does not change the result |
| Models.FindDropsNameless | src/bojstat/models.py:176-182 | with the name filter on, a record without a name is never found |
| Data.ChooseRecord | src/bojstat/services/data.py:1261-1272 | the result is one of the two records |
| Data.ChooseRecordUndated | src/bojstat/services/data.py:1262-1265 | an undated stored record gives way even to an undated incoming one; an undated incoming record never replaces a dated stored one |
| Data.ChooseRecordLaterDateWins | src/bojstat/services/data.py:1266-1269 | of two different dates the lexicographically later one wins, whichever argument carries it |
| Data.ChooseRecordEqualDates | src/bojstat/services/data.py:1270-1272 | on equal dates the record with the smaller (page, row) pair wins, and an exact tie keeps the stored one |
| Data.ChooseRecordKeepsNewest | src/bojstat/services/data.py:1261-1272 | the chosen record is dated whenever either input is, and no older than either |
| Data.SortRecords | src/bojstat/services/data.py:1275-1287 | the result is a permutation of the input, and any order other than canonical returns the input unchanged |
| Data.KeyLeTotal | src/bojstat/services/data.py:1283-1287 | any two sort keys are comparable |
| Data.KeyLeTransitive | src/bojstat/services/data.py:1283-1287 | the key order is transitive |
| Data.CanonicalLeTotalPreorder | src/bojstat/services/data.py:1283-1287 | the canonical key order is a total preorder on any list of records |
| Data.SortRecordsSorted | src/bojstat/services/data.py:1280-1287 | in canonical order the result is sorted by (code position or 10**9, series code, survey date, last update or "") |
| Data.UnindexedSortLast | src/bojstat/services/data.py:1284-1287 | a record without a code position never precedes one whose position is below 10**9 |
| Data.IndexedSortsFirst | src/bojstat/services/data.py:1284-1287 | a record with a code position below 10**9 comes before every record without one |
| Data.WindowIsPublicationHours | src/bojstat/services/data.py:1291-1295 | the minute-of-day range 530 to 620 is the clock range 08:50 to 10:20, both ends included |
| Data.WindowCrossed | src/bojstat/services/data.py:1290-1297 | true exactly when the first fetch was outside the window and the current time is inside it |
| Data.StartInsideNeverCrosses | src/bojstat/services/data.py:1290-1297 | a run that starts inside the window never crosses into it |
| Data.ShouldResolveWildcard | src/bojstat/services/data.py:70-105 | resolving requires layer exactly ["*"], auto-paging, no resume token and no start position; an override of false, or no override with the mode off, never resolves |
| Data.ResolveWildcardPlainRequest | src/bojstat/services/data.py:95-105 | for a plain wildcard request with auto-paging the answer is the effective mode, the argument overriding the configuration |
| Data.ResolveWildcardOverride | src/bojstat/services/data.py:95 | with an override given, the configured mode does not matter |
| Data.StartPositionZeroIsUnset | src/bojstat/services/data.py:104 | a start position of 0 counts as none |
| Data.ThreeParts | src/bojstat/services/data.py:660-671 | the first and last parts of a concatenation can be read back off it |
| Data.BuildCacheKey | src/bojstat/services/data.py:651-671 | the key starts with the api field and ends with the fingerprint field |
| Data.CacheKeyFingerprint | src/bojstat/services/data.py:651-671 | two keys for the same settings are equal exactly when their fingerprints are |
| Data.CacheKeyWildcardDistinct | src/bojstat/services/data.py:668-670 | keys with different wildcard settings, or with and without one, never collide |
| Data.CodeAndLayerKeysDiffer | src/bojstat/services/data.py:661 | a code-API key never equals a layer-API key |
| Data.CodesWhere | src/bojstat/services/data.py:60-67 | at most one code per record |
| Data.CodesWhereMembership | src/bojstat/services/data.py:60-67 | a code is listed exactly when a record carries it and the condition accepts it |
| Data.CodesForMembership | src/bojstat/services/data.py:44-67 | a code is listed exactly when some record carries it, it is non-empty and its guessed frequency is the wanted one or UNKNOWN |
| Data.ResolveCodesFromMetadata | src/bojstat/services/data.py:44-67 | the loop's result is the wanted codes in record order |
| Data.Merge | src/bojstat/services/data.py:265-286 | only STRICT mode fails, and the conflict count stays equal to the sample length |
| Data.MergeCounts | src/bojstat/services/data.py:265-286 | the conflict count rises by one exactly when the incoming duplicate's last update differs from the stored one, the sample gains that conflict, and STRICT mode raises last_update_conflict with it |
| Data.MergeKeyed | src/bojstat/services/data.py:266-286 | one record keeps the table at one record per key, each key listed once |
| Data.MergeAllKeyed | src/bojstat/services/data.py:265-286 | after a page the table holds exactly one record per (series code, survey date) |
| Data.MergeAllTallied | src/bojstat/services/data.py:271-280 | after a page the conflict count equals the sample length |
| Data.MergeAllKeys | src/bojstat/services/data.py:266-269 | exactly the keys seen so far are kept |
| Data.MergeNewest | src/bojstat/services/data.py:286 | the kept record is no older than the incoming record or any record it was already no older than |
| Data.MergeAllNewest | src/bojstat/services/data.py:265-286 | whatever the arrival order, the kept record is at least as new as every dated record seen for its key |
| Data.MergeAllProvenance | src/bojstat/services/data.py:265-286 | every kept record was kept before or came in with the page |
| Data.StrictAgreesWithBestEffort | src/bojstat/services/data.py:271-286 | STRICT mode runs as best-effort mode until the first differing duplicate, and then raises that conflict's error instead of counting it |
| Data.MergeAllErrorSticky | src/bojstat/services/data.py:281-285 | once STRICT mode raises, the rest of the page is not looked at |
| Data.MergeRecords | src/bojstat/services/data.py:265-286 | the dedupe loop over a page gives the specified reconciliation |
| Data.KeptRecords | src/bojstat/services/data.py:324-325 | one record per listed key, in insertion order |
| Data.KeptRecordsUnique | src/bojstat/services/data.py:324-325 | no two kept records share a key |
| Data.PermutationUniqueKeys | src/bojstat/services/data.py:324-327 | reordering keeps the keys unique |
| Data.SampleHead | src/bojstat/services/data.py:318 | the sample in metadata holds the first conflicts, never more than 20 |
| Data.OrderMapSnoc | src/bojstat/services/data.py:486 | adding a code sets its position and leaves the others |
| Data.OrderMapKeys | src/bojstat/services/data.py:440-487 | the map's codes are exactly those listed |
| Data.OrderMapAt | src/bojstat/services/data.py:484-487 | each listed code maps to its own position |
| Data.OrderMapPositional | src/bojstat/services/data.py:484-487 | for entries built in position order, the map's codes are those listed, each at its position |
| Data.IndexedByExtends | src/bojstat/services/data.py:484-487 | adding codes never moves a code already placed |
| Data.AssignAsWritten | src/bojstat/services/data.py:484-487 | one output record per input record |
| Data.AssignAsWrittenSnoc | src/bojstat/services/data.py:484-487 | the loop as written handles records one at a time |
| Data.SecondObservationSortsLast | src/bojstat/services/data.py:484-487 | as written, a page with two observations of a new series A and then one of a new series B leaves the second A observation without a position while B gets 1, so canonical order puts it after B |
| Data.IndexStep | src/bojstat/services/data.py:484-487 | a record only has its position changed |
| Data.AssignIndex | src/bojstat/services/data.py:484-487 | one output record per input record |
| Data.AssignIndexSnoc | src/bojstat/services/data.py:484-487 | the corrected loop handles records one at a time |
| Data.AsWrittenRepeatUnindexed | src/bojstat/services/data.py:479-487 | as written, for any two records of one series new on the page (the second without a position) followed by a record of another series, the first gets 0, the second stays without a position and the other gets 1 |
| Data.FirstObservationIndexed | src/bojstat/services/data.py:484-487 | with the corrected assignment the first record of a new series on an empty map takes position 0 and becomes the map's only entry |
| Data.RepeatObservationIndexed | src/bojstat/services/data.py:484-487 | with the corrected assignment a second record of the same series takes the same position 0 and adds no entry |
| Data.EveryObservationIndexed | src/bojstat/services/data.py:484-487 | with the corrected assignment, for any two records of one series followed by a record of another series, both records of the first get 0 and the other gets 1 |
| Data.IndexStepFacts | src/bojstat/services/data.py:484-487 | one step keeps codes at their own positions, only appends, and gives the record its code's position |
| Data.ReindexedSnoc | src/bojstat/services/data.py:484-487 | giving one more record its position keeps every record placed |
| Data.AssignIndexFacts | src/bojstat/services/data.py:484-487 | with the corrected assignment every record of a page carries its code's position, the map only grows, and records are otherwise unchanged |
| Data.AssignIndexSameMap | src/bojstat/services/data.py:484-487 | the corrected loop and the loop as written build the same code order map |
| Data.MergeKeepsIndexed | src/bojstat/services/data.py:484-504 | reconciling placed records into a placed table keeps every kept record placed |
| Data.IndexedRecordsCodesIndexed | src/bojstat/services/data.py:484-487 | placed records carry one position per code, different codes different positions |
| Data.TokenPosition | src/bojstat/services/data.py:294 | the token's next position is never 0: a missing next position is written as 1 |
| Data.PageMeta | src/bojstat/services/data.py:302-319 | the page metadata carries the reply's next position, the page's token, the conflict count, at most the first 20 conflicts and the window signal |
| Data.EmptyMeta | src/bojstat/services/data.py:1300-1315 | status 200, message M181030I, no next position, no token and no conflicts |
| Data.FinishFrame | src/bojstat/services/data.py:324-331 | the frame holds the kept records, reordered |
| Data.FinishFrameFacts | src/bojstat/services/data.py:324-331 | the frame has one record per key, is sorted in canonical order, carries at most 20 conflicts, and has no token when there is no next position |
| Data.FinishFrameIndexed | src/bojstat/services/data.py:546-554 | on the layer path every returned record carries one position per code |
| Data.CodeResume | src/bojstat/services/data.py:195-206 | a token is accepted as decoded; the code path checks the chunk index against the token's own, so chunk_index_mismatch never arises |
| Data.LayerResume | src/bojstat/services/data.py:422-431 | an accepted token has chunk index 0 and this request's fingerprint |
| Data.CodePage | src/bojstat/services/data.py:260-286 | one page reconciles exactly its expanded records, keeps one record per key and a count matching the sample, and in STRICT mode counts nothing |
| Data.LayerPage | src/bojstat/services/data.py:479-504 | one page extends the code order map by the page's codes, reconciles exactly its placed records into the table, and keeps every kept record placed |
| Data.FetchChunk | src/bojstat/services/data.py:218-322 | the chunk loop uses no more replies than given; leaving normally, it keeps the table invariants, the last page reported no next position, and the table is the reconciliation of every reply consumed so far; no frame is returned from inside a chunk |
| Data.FetchByCode | src/bojstat/services/data.py:128-333 | a strict/auto-split clash and a mismatching token raise before any request and before the cache; a fresh cache entry is returned with no request; a frame built from pages has one record per key, canonical order when asked, at most 20 sampled conflicts and no token |
| Data.LayerReply | src/bojstat/services/data.py:470-538 | a reply inside a window entered after the first fetch sets the signal, and in STRICT mode raises window_crossed with both clock readings; otherwise the page's placed records are reconciled exactly into the table |
| Data.FetchByLayer | src/bojstat/services/data.py:335-556 | the cache is consulted before the token; a mismatching token raises with no request; without auto-paging at most one request is made; a built frame has one record per key, one position per code, canonical order when asked, and no window signal in STRICT mode |
| Data.ChunkLoop | src/bojstat/services/data.py:216-331 | the loop over chunks uses no more replies than given; a returned frame has one record per key, canonical order when asked, no token, and its records are exactly the reconciliation of the records expanded from the replies consumed |
| Data.LayerStep | src/bojstat/services/data.py:470-538 | a reply that is taken without an exception leaves the table and code map equal to the reconciliation of every reply consumed so far, this one included, and records the page's next position |
| Data.LayerLoop | src/bojstat/services/data.py:441-554 | the page loop uses no more replies than given and at most one without auto-paging; a returned frame has one record per key, one position per code, no window signal in STRICT mode, and its records are exactly the reconciliation of the records expanded from the replies consumed |
| Data.MergeAll | src/bojstat/services/data.py:265-286 | only STRICT mode can fail, and a page keeps the conflict count equal to the sample length |
| Data.MergeAllAppend | src/bojstat/services/data.py:265-286 | reconciling two runs of records one after the other is reconciling their concatenation, an error in the first stopping both |
| Data.KeptRecordsMembers | src/bojstat/services/data.py:324-325 | any reordering of the kept records lists exactly the kept keys, each with its kept record |
| Data.ReconciledRecordsFacts | src/bojstat/services/data.py:265-331 | the records reconciled from everything seen have one record per key, exactly the keys seen, each one of the records seen, and none older than a dated record seen for its key |
| Data.CodeReconciledStep | src/bojstat/services/data.py:260-286 | one more code-API reply extends the reconciled records by that page's expanded records |
| Data.LayerReconciledStep | src/bojstat/services/data.py:479-504 | one more layer-API reply extends the reconciled records by that page's placed records and the code order map by its codes |
| Data.CodeAdvance | src/bojstat/services/data.py:260-286 | after a page, the table is the reconciliation of every reply consumed, with the page index counted on |
| Data.CodeFinish | src/bojstat/services/data.py:324-331 | the frame built at the end of the code loop holds exactly the records reconciled from the replies |
| Data.LayerAdvance | src/bojstat/services/data.py:479-504 | after a page, the table and code order map are those reconciled from every reply consumed |
| Data.LayerFinish | src/bojstat/services/data.py:546-554 | the frame built at the end of the layer loop holds exactly the records reconciled from the replies |
| Data.PutEntryShape | src/bojstat/services/data.py:166 | a dictionary assignment overwrites the code's entry in place, or appends one for a new code |
| Data.PutEntryFacts | src/bojstat/services/data.py:166 | an assignment lists the code, keeps every listed code, and keeps codes distinct |
| Data.EnumerateCodesFacts | src/bojstat/services/data.py:166 | the input-order map lists each code once, lists every code, and values each at its last position in the input |
| Json.SortByKeyCanonical | src/bojstat/resume.py:27 | sorting a dictionary's entries by key gives the same list whatever the insertion order, when keys are distinct |
| Json.DumpsSortedIgnoresOrder | src/bojstat/resume.py:27 | with sorted keys, the serialisation of a dictionary does not depend on insertion order |
| Sorting.Sort | src/bojstat/services/data.py:1287 | the sorted list is a permutation of the input |
| Sorting.SortSorted | src/bojstat/services/data.py:1287 | under a total preorder the result is sorted |
| Sorting.SortedUnique | src/bojstat/resume.py:27 | two sorted permutations of one multiset are equal when the order separates distinct elements |
| Sorting.SortKeepsDistinct | src/bojstat/models.py:78 | sorting a list without repetitions keeps it without repetitions |

## Left out

- The async copies (`AsyncDataService`, its bridge and worker classes, `perform_async_request`, `AsyncRateLimiter`, `AsyncMetadataService`) repeat the synchronous logic. Threading and asyncio locks concern concurrency only.
- HTTP itself (`client.get`, httpx types, headers), the wiring in `client.py`, `services/metadata.py` and `cli.py` are I/O plumbing. A reply is a parsed value in the model.
- Data.FetchByLayer: the metadata-driven wildcard delegation (`_get_by_layer_via_codes`) is not modelled. Only its decision function, `Data.ShouldResolveWildcard`, and the code extraction, `Data.ResolveCodesFromMetadata`, are.
- Data.FetchByCode, Data.FetchByLayer: they take the already-normalised codes, language, format and fingerprint as inputs. `normalize_lang`, `normalize_format`, `normalize_db`, `normalize_frequency` and the assembly of the fingerprint components are not part of this model.
- Data.FetchByCode, Data.FetchByLayer: the cache lookup is a parameter `cached` holding a fresh entry's frame, if there is one. The final `cache.put` is not modelled here; `Cache.FileCache.Put` and `Cache.PutThenGet` cover it separately.
- Data.FetchByCode, Data.FetchByLayer: a scripted reply that is an error stands for the exception `perform_sync_request` raised. Running out of scripted replies ends the run with `OutOfResponses`, which is a modelling stop and has no counterpart in the library.
- Data.FetchByCode, Data.FetchByLayer: `date_parse_warning` with `metadata_freshness_strict` (`BojDateParseError`) and the `parse_date_tolerant` date parsing are left out, because `datetime.fromisoformat` is a foreign function.
- Data.FetchByCode, Data.FetchByLayer: the stall error from the pager is raised as in the pager modules. The resume token written into each page's metadata is built and checked by `Resume`, but its base64/JSON text is the `Resume.Token` datatype.
- Data.FetchByLayer: it uses the corrected series-position assignment (see Findings). The code as written is `Data.AssignAsWritten`.
- Data.SortRecords: it is an insertion sort that is a permutation and sorted by the canonical key. Its stability (equal keys keep input order) is not stated.
- Resume: SHA-256 is the identity stand-in `Json.Sha256Hex`, an injective function. base64 and JSON (de)serialisation of tokens are a datatype wrapper (`Resume.Token`) whose decoding inverts encoding. Malformed base64 or JSON is the `Unreadable` case.
- Json: the serialiser escapes only `"` and `\`. Control-character escapes and `ensure_ascii` details are left out.
- Http.ParseRetryAfter: HTTP-date parsing is a parameter, the delay that email-date parsing would give. Only its clamping to non-negative and the numeric branch are modelled.
- Http.FullJitterBackoff: `random.uniform` is the parameter `u` in [0, 1). Sleeping is left out.
- Cache: the directory is a map from file names to stored bodies, a file that cannot be read or parsed is the `Unreadable` case, and a failed write is a parameter. File locking is left out.
- CsvParser: `csv.reader` tokenisation and the Shift-JIS/UTF-8 decoding in `parsers/__init__.py` and `json_parser.py` are not part of this model. The parser starts from tokenised rows.
- Validation.ValidateOutboundText: `unicodedata.east_asian_width` is approximated by the main Wide and Fullwidth code-point blocks.
- Text: upper-casing, lower-casing, `casefold` and `isdigit` are ASCII-only. Python's Unicode tables (full-width digits, special case mappings) are left out. `Models.MetadataFrame.Find` therefore uses ASCII lower-casing for `casefold`.
- Normalize.DecimalOrNone: it keeps the stripped text instead of a `Decimal`. Text that `Decimal` rejects is not mapped to None. Decimal and float formatting (`_convert_value`, numeric modes, the float64 default of `to_wide`), `to_long`, `to_pandas` and `to_polars` are left out.
- Normalize: `parse_date_tolerant` and `normalize_metadata_rows` are not part of this model.
- Models.FromCachePayload: the metadata dictionary is carried beside the records as a `ResponseMeta` value. Its `date_parsed` re-parsing is left out.
- Models.FromCachePayload: text fields are read as their text and a non-integer `original_code_index` as None; the library keeps such values raw.
- Models.ExtrasField: of what `dict()` accepts, only a dictionary, a falsy value and a list of two-element lists or two-character strings are modelled. A list of two-key dictionaries is rejected, and a bad element is always a ValueError where the library can raise a TypeError.
- Cache.Lookup: a readable file holds the three fields the cache reads. JSON that is not an object (`AttributeError`), and a `created_at` that is null or not a number (`TypeError`/`ValueError`), are not modelled. The quarantine rename always succeeds; the swallowed `OSError` is not modelled.
- Transport.PerformSyncRequest: it does not call the rate limiter before each attempt. `Http.SyncRateLimiter` is modelled on its own, and the waits it would add are left out.
- Models.CachePayloadRoundTrip: the value field round-trips only for non-empty text, because an empty string is read back as None in the library too.

## Findings

| source | as written | input that shows it | evidently intended | confidence | as-written member | corrected member |
|---|---|---|---|---|---|---|
| src/bojstat/services/data.py:479-487 | records are expanded with `code_order_map.get(code)` before the page's loop adds new codes to the map, and the loop sets `original_code_index` only on the record that adds the code, so later records of that code on the same page keep None | one layer page with series A at survey dates 2023 and 2024 (one nested row), then series B at 2023, with an empty map: A/2023 gets 0, A/2024 gets None, B/2023 gets 1, and canonical order puts A/2024 after B/2023 | every record of a code gets that code's position, so all of a series' records sort together in first-seen order | not executed | Data.SecondObservationSortsLast | Data.AssignIndexFacts |
