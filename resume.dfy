/**
 * Resume tokens: a request's fingerprint, the token payload that records
 * where paging stopped, its encoding and decoding, and the field-by-field
 * validation that rejects a token issued for a different request.
 *
 * base64url and JSON are trusted: an encoded token is kept as the payload it
 * encodes (`Encoded`), and any text that is not base64url of a JSON document
 * is `Unreadable`.
 */
module Resume {
  import opened Text
  import opened Values
  import opened Json
  import opened Config
  import opened Errors

  datatype ResumeTokenState = ResumeTokenState(
    tokenVersion: int,
    api: string,
    apiOrigin: string,
    requestFingerprint: string,
    chunkIndex: int,
    nextPosition: int,
    lang: string,
    format: string,
    parserVersion: string,
    normalizerVersion: string,
    schemaVersion: string,
    codeOrderMap: seq<(string, int)>)

  /** The text of a resume token. */
  datatype Token = Encoded(payload: Value) | Unreadable(text: string)

  /** Python truthiness of the token text: an encoded payload is never empty. */
  predicate Given(token: Option<Token>) {
    token.Some? && (token.value.Encoded? || token.value.text != "")
  }

  /** The mismatch reason reported for each checked field. */
  function ReasonFor(key: string): string {
    match key
    case "token_version" => "token_version_mismatch"
    case "request_fingerprint" => "fingerprint_mismatch"
    case "chunk_index" => "chunk_index_mismatch"
    case "parser_version" => "parser_version_mismatch"
    case "normalizer_version" => "normalizer_version_mismatch"
    case _ => key
  }

  /** `sha256(json.dumps(components, sort_keys=True))` in hex. */
  function BuildRequestFingerprint(components: Dict): string {
    Sha256Hex(Dumps(VObj(components), true))
  }

  /** Two component dictionaries holding the same entries get the same fingerprint. */
  lemma FingerprintIgnoresInsertionOrder(a: Dict, b: Dict)
    requires DistinctKeys(a) && multiset(a) == multiset(b)
    ensures BuildRequestFingerprint(a) == BuildRequestFingerprint(b)
  {
    DumpsSortedIgnoresOrder(a, b);
  }

  function EncodeResumeToken(payload: Dict): Token {
    Encoded(VObj(payload))
  }

  function CodeOrderValue(m: seq<(string, int)>): (d: Dict)
    ensures |d| == |m|
  {
    seq(|m|, i requires 0 <= i < |m| => (m[i].0, VInt(m[i].1)))
  }

  /** The twelve-field payload `create_resume_token` encodes. */
  function TokenPayload(
    api: string, apiOrigin: string, requestFingerprint: string, chunkIndex: int, nextPosition: int,
    lang: string, format: string, parserVersion: string, normalizerVersion: string,
    schemaVersion: string, codeOrderMap: seq<(string, int)>): Dict
  {
    [("token_version", VInt(TOKEN_VERSION)),
     ("api", VStr(api)),
     ("api_origin", VStr(apiOrigin)),
     ("request_fingerprint", VStr(requestFingerprint)),
     ("chunk_index", VInt(chunkIndex)),
     ("next_position", VInt(nextPosition)),
     ("lang", VStr(lang)),
     ("format", VStr(format)),
     ("parser_version", VStr(parserVersion)),
     ("normalizer_version", VStr(normalizerVersion)),
     ("schema_version", VStr(schemaVersion)),
     ("code_order_map", VObj(CodeOrderValue(codeOrderMap)))]
  }

  function CreateResumeToken(
    api: string, apiOrigin: string, requestFingerprint: string, chunkIndex: int, nextPosition: int,
    lang: string, format: string, parserVersion: string, normalizerVersion: string,
    schemaVersion: string, codeOrderMap: seq<(string, int)>): Token
  {
    EncodeResumeToken(TokenPayload(api, apiOrigin, requestFingerprint, chunkIndex, nextPosition,
      lang, format, parserVersion, normalizerVersion, schemaVersion, codeOrderMap))
  }

  const FIELD_NAMES: seq<string> := [
    "token_version", "api", "api_origin", "request_fingerprint", "chunk_index", "next_position",
    "lang", "format", "parser_version", "normalizer_version", "schema_version", "code_order_map"]

  /** `int(payload[name])`. */
  function IntField(d: Dict, name: string): (r: Result<int>)
    ensures !HasKey(d, name) ==> r == Err(ResumeTokenUnreadable(MissingField(name)))
    ensures r.Err? ==> r.error.ResumeTokenUnreadable?
  {
    match Get(d, name)
    case None => Err(ResumeTokenUnreadable(MissingField(name)))
    case Some(v) =>
      match AsInt(v)
      case None => Err(ResumeTokenUnreadable(BadField(name)))
      case Some(n) => Ok(n)
  }

  /** `str(payload[name])`. */
  function StrField(d: Dict, name: string): (r: Result<string>)
    ensures r.Err? <==> !HasKey(d, name)
    ensures r.Err? ==> r == Err(ResumeTokenUnreadable(MissingField(name)))
  {
    match Get(d, name)
    case None => Err(ResumeTokenUnreadable(MissingField(name)))
    case Some(v) => Ok(Render(v))
  }

  /** `{str(k): int(v) for k, v in entries}`. */
  function CodeOrderEntries(entries: Dict): (r: Option<seq<(string, int)>>)
    ensures r.Some? ==> |r.value| == |entries|
  {
    if |entries| == 0 then Some([])
    else
      match (AsInt(entries[0].1), CodeOrderEntries(entries[1..]))
      case (Some(n), Some(rest)) => Some([(entries[0].0, n)] + rest)
      case _ => None
  }

  /** `{str(k): int(v) for k, v in dict(payload["code_order_map"]).items()}`. */
  function CodeOrderField(d: Dict): (r: Result<seq<(string, int)>>)
    ensures !HasKey(d, "code_order_map") ==> r == Err(ResumeTokenUnreadable(MissingField("code_order_map")))
    ensures r.Err? ==> r.error.ResumeTokenUnreadable?
  {
    match Get(d, "code_order_map")
    case None => Err(ResumeTokenUnreadable(MissingField("code_order_map")))
    case Some(VObj(entries)) =>
      (match CodeOrderEntries(entries)
       case None => Err(ResumeTokenUnreadable(BadField("code_order_map")))
       case Some(m) => Ok(m))
    case Some(_) => Err(ResumeTokenUnreadable(BadField("code_order_map")))
  }

  /** Decodes a token, reading the fields in declaration order; the first failure is reported. */
  function DecodeResumeToken(token: Token): (r: Result<ResumeTokenState>)
    ensures r.Err? ==> r.error.ResumeTokenUnreadable?
  {
    match token
    case Unreadable(_) => Err(ResumeTokenUnreadable(NotBase64Json))
    case Encoded(payload) =>
      if !payload.VObj? then Err(ResumeTokenUnreadable(PayloadNotObject))
      else
        var d := payload.entries;
        var tokenVersion :- IntField(d, "token_version");
        var api :- StrField(d, "api");
        var apiOrigin :- StrField(d, "api_origin");
        var fingerprint :- StrField(d, "request_fingerprint");
        var chunkIndex :- IntField(d, "chunk_index");
        var nextPosition :- IntField(d, "next_position");
        var lang :- StrField(d, "lang");
        var format :- StrField(d, "format");
        var parserVersion :- StrField(d, "parser_version");
        var normalizerVersion :- StrField(d, "normalizer_version");
        var schemaVersion :- StrField(d, "schema_version");
        var codeOrderMap :- CodeOrderField(d);
        Ok(ResumeTokenState(tokenVersion, api, apiOrigin, fingerprint, chunkIndex, nextPosition,
          lang, format, parserVersion, normalizerVersion, schemaVersion, codeOrderMap))
  }

  lemma {:induction false} CodeOrderRoundTrip(m: seq<(string, int)>)
    ensures CodeOrderEntries(CodeOrderValue(m)) == Some(m)
  {
    if |m| > 0 {
      CodeOrderRoundTrip(m[1..]);
      assert CodeOrderValue(m)[1..] == CodeOrderValue(m[1..]);
      assert m == [m[0]] + m[1..];
    }
  }

  /** Decoding a freshly created token gives back every argument, with the current token version. */
  lemma DecodeCreateRoundTrip(
    api: string, apiOrigin: string, requestFingerprint: string, chunkIndex: int, nextPosition: int,
    lang: string, format: string, parserVersion: string, normalizerVersion: string,
    schemaVersion: string, codeOrderMap: seq<(string, int)>)
    ensures DecodeResumeToken(CreateResumeToken(api, apiOrigin, requestFingerprint, chunkIndex, nextPosition,
      lang, format, parserVersion, normalizerVersion, schemaVersion, codeOrderMap))
      == Ok(ResumeTokenState(TOKEN_VERSION, api, apiOrigin, requestFingerprint, chunkIndex, nextPosition,
        lang, format, parserVersion, normalizerVersion, schemaVersion, codeOrderMap))
  {
    var st := ResumeTokenState(TOKEN_VERSION, api, apiOrigin, requestFingerprint, chunkIndex, nextPosition,
      lang, format, parserVersion, normalizerVersion, schemaVersion, codeOrderMap);
    PayloadReadsBack(st);
    DecodeFromFields(TokenPayload(api, apiOrigin, requestFingerprint, chunkIndex, nextPosition,
      lang, format, parserVersion, normalizerVersion, schemaVersion, codeOrderMap), st);
  }

  /** Each of the twelve fields of a created payload reads back as the value it was built from. */
  lemma PayloadReadsBack(st: ResumeTokenState)
    requires st.tokenVersion == TOKEN_VERSION
    ensures var p := TokenPayload(st.api, st.apiOrigin, st.requestFingerprint, st.chunkIndex, st.nextPosition,
      st.lang, st.format, st.parserVersion, st.normalizerVersion, st.schemaVersion, st.codeOrderMap);
      && IntField(p, "token_version") == Ok(st.tokenVersion)
      && StrField(p, "api") == Ok(st.api) && StrField(p, "api_origin") == Ok(st.apiOrigin)
      && StrField(p, "request_fingerprint") == Ok(st.requestFingerprint)
      && IntField(p, "chunk_index") == Ok(st.chunkIndex) && IntField(p, "next_position") == Ok(st.nextPosition)
      && StrField(p, "lang") == Ok(st.lang) && StrField(p, "format") == Ok(st.format)
      && StrField(p, "parser_version") == Ok(st.parserVersion)
      && StrField(p, "normalizer_version") == Ok(st.normalizerVersion)
      && StrField(p, "schema_version") == Ok(st.schemaVersion)
      && CodeOrderField(p) == Ok(st.codeOrderMap)
  {
    var p := TokenPayload(st.api, st.apiOrigin, st.requestFingerprint, st.chunkIndex, st.nextPosition,
      st.lang, st.format, st.parserVersion, st.normalizerVersion, st.schemaVersion, st.codeOrderMap);
    PayloadFields(st.api, st.apiOrigin, st.requestFingerprint, st.chunkIndex, st.nextPosition,
      st.lang, st.format, st.parserVersion, st.normalizerVersion, st.schemaVersion, st.codeOrderMap);
    CodeOrderRoundTrip(st.codeOrderMap);
    IntFieldOf(p, "token_version", st.tokenVersion);
    StrFieldOf(p, "api", st.api);
    StrFieldOf(p, "api_origin", st.apiOrigin);
    StrFieldOf(p, "request_fingerprint", st.requestFingerprint);
    IntFieldOf(p, "chunk_index", st.chunkIndex);
    IntFieldOf(p, "next_position", st.nextPosition);
    StrFieldOf(p, "lang", st.lang);
    StrFieldOf(p, "format", st.format);
    StrFieldOf(p, "parser_version", st.parserVersion);
    StrFieldOf(p, "normalizer_version", st.normalizerVersion);
    StrFieldOf(p, "schema_version", st.schemaVersion);
  }

  lemma IntFieldOf(d: Dict, name: string, n: int)
    requires Get(d, name) == Some(VInt(n))
    ensures IntField(d, name) == Ok(n)
  {
  }

  lemma StrFieldOf(d: Dict, name: string, s: string)
    requires Get(d, name) == Some(VStr(s))
    ensures StrField(d, name) == Ok(s)
  {
  }

  /** A payload whose twelve fields read back as `st`'s decodes to `st`. */
  lemma DecodeFromFields(d: Dict, st: ResumeTokenState)
    requires IntField(d, "token_version") == Ok(st.tokenVersion)
    requires StrField(d, "api") == Ok(st.api) && StrField(d, "api_origin") == Ok(st.apiOrigin)
    requires StrField(d, "request_fingerprint") == Ok(st.requestFingerprint)
    requires IntField(d, "chunk_index") == Ok(st.chunkIndex) && IntField(d, "next_position") == Ok(st.nextPosition)
    requires StrField(d, "lang") == Ok(st.lang) && StrField(d, "format") == Ok(st.format)
    requires StrField(d, "parser_version") == Ok(st.parserVersion)
    requires StrField(d, "normalizer_version") == Ok(st.normalizerVersion)
    requires StrField(d, "schema_version") == Ok(st.schemaVersion)
    requires CodeOrderField(d) == Ok(st.codeOrderMap)
    ensures DecodeResumeToken(Encoded(VObj(d))) == Ok(st)
  {
  }

  lemma PayloadFields(
    api: string, apiOrigin: string, requestFingerprint: string, chunkIndex: int, nextPosition: int,
    lang: string, format: string, parserVersion: string, normalizerVersion: string,
    schemaVersion: string, codeOrderMap: seq<(string, int)>)
    ensures var p := TokenPayload(api, apiOrigin, requestFingerprint, chunkIndex, nextPosition,
      lang, format, parserVersion, normalizerVersion, schemaVersion, codeOrderMap);
      Get(p, "token_version") == Some(VInt(TOKEN_VERSION))
      && Get(p, "api") == Some(VStr(api))
      && Get(p, "api_origin") == Some(VStr(apiOrigin))
      && Get(p, "request_fingerprint") == Some(VStr(requestFingerprint))
      && Get(p, "chunk_index") == Some(VInt(chunkIndex))
      && Get(p, "next_position") == Some(VInt(nextPosition))
      && Get(p, "lang") == Some(VStr(lang))
      && Get(p, "format") == Some(VStr(format))
      && Get(p, "parser_version") == Some(VStr(parserVersion))
      && Get(p, "normalizer_version") == Some(VStr(normalizerVersion))
      && Get(p, "schema_version") == Some(VStr(schemaVersion))
      && Get(p, "code_order_map") == Some(VObj(CodeOrderValue(codeOrderMap)))
  {
    var p := TokenPayload(api, apiOrigin, requestFingerprint, chunkIndex, nextPosition,
      lang, format, parserVersion, normalizerVersion, schemaVersion, codeOrderMap);
    PayloadDistinct(p);
    GetAt(p, 0);
    GetAt(p, 1);
    GetAt(p, 2);
    GetAt(p, 3);
    GetAt(p, 4);
    GetAt(p, 5);
    GetAt(p, 6);
    GetAt(p, 7);
    GetAt(p, 8);
    GetAt(p, 9);
    GetAt(p, 10);
    GetAt(p, 11);
  }

  /** Any dictionary keyed by the twelve field names, in order, has distinct keys. */
  lemma PayloadDistinct(p: Dict)
    requires |p| == |FIELD_NAMES| && forall i :: 0 <= i < |p| ==> p[i].0 == FIELD_NAMES[i]
    ensures DistinctKeys(p)
  {
    FieldNamesDistinct();
  }

  lemma GetAt(d: Dict, i: nat)
    requires DistinctKeys(d) && i < |d|
    ensures Get(d, d[i].0) == Some(d[i].1)
  {
    GetUnique(d, d[i].0);
  }

  lemma FieldNamesDistinct()
    ensures forall i, j :: 0 <= i < j < |FIELD_NAMES| ==> FIELD_NAMES[i] != FIELD_NAMES[j]
  {
  }

  /** A payload that decodes holds all twelve fields. */
  lemma DecodedPayloadHasEveryField(d: Dict)
    requires DecodeResumeToken(Encoded(VObj(d))).Ok?
    ensures forall name :: name in FIELD_NAMES ==> HasKey(d, name)
  {
    DecodedFieldsOk(d);
    forall name | name in FIELD_NAMES ensures HasKey(d, name) {
      var i :| 0 <= i < |FIELD_NAMES| && FIELD_NAMES[i] == name;
      assert i < 6 || 6 <= i < 12;
    }
  }

  lemma DecodedFieldsOk(d: Dict)
    requires DecodeResumeToken(Encoded(VObj(d))).Ok?
    ensures HasKey(d, "token_version") && HasKey(d, "api") && HasKey(d, "api_origin")
    ensures HasKey(d, "request_fingerprint") && HasKey(d, "chunk_index") && HasKey(d, "next_position")
    ensures HasKey(d, "lang") && HasKey(d, "format") && HasKey(d, "parser_version")
    ensures HasKey(d, "normalizer_version") && HasKey(d, "schema_version") && HasKey(d, "code_order_map")
  {
    assert IntField(d, "token_version").Ok?;
    assert StrField(d, "api").Ok?;
    assert StrField(d, "api_origin").Ok?;
    assert StrField(d, "request_fingerprint").Ok?;
    assert IntField(d, "chunk_index").Ok?;
    assert IntField(d, "next_position").Ok?;
    assert StrField(d, "lang").Ok?;
    assert StrField(d, "format").Ok?;
    assert StrField(d, "parser_version").Ok?;
    assert StrField(d, "normalizer_version").Ok?;
    assert StrField(d, "schema_version").Ok?;
    assert CodeOrderField(d).Ok?;
  }

  /** A payload that lacks any of the twelve fields cannot be decoded. */
  lemma DecodeNeedsEveryField(d: Dict, name: string)
    requires name in FIELD_NAMES && !HasKey(d, name)
    ensures DecodeResumeToken(Encoded(VObj(d))).Err?
  {
    if DecodeResumeToken(Encoded(VObj(d))).Ok? {
      DecodedPayloadHasEveryField(d);
      assert false;
    }
  }

  /** The five checks in the order they run: field name, and whether it matches. */
  function Checks(state: ResumeTokenState, requestFingerprint: string, chunkIndex: int,
                  parserVersion: string, normalizerVersion: string): seq<(string, bool)>
  {
    [("token_version", state.tokenVersion == TOKEN_VERSION),
     ("request_fingerprint", state.requestFingerprint == requestFingerprint),
     ("chunk_index", state.chunkIndex == chunkIndex),
     ("parser_version", state.parserVersion == parserVersion),
     ("normalizer_version", state.normalizerVersion == normalizerVersion)]
  }

  /** The name of the first failing check, if any. */
  function FirstMismatch(checks: seq<(string, bool)>): (r: Option<string>)
    ensures r.None? <==> forall i :: 0 <= i < |checks| ==> checks[i].1
    ensures r.Some? ==> exists i :: 0 <= i < |checks| && checks[i] == (r.value, false) && (forall j :: 0 <= j < i ==> checks[j].1)
  {
    if |checks| == 0 then None
    else if !checks[0].1 then Some(checks[0].0)
    else
      var rest := FirstMismatch(checks[1..]);
      if rest.Some? then
        ghost var i :| 0 <= i < |checks[1..]| && checks[1..][i] == (rest.value, false) && (forall j :: 0 <= j < i ==> checks[1..][j].1);
        assert checks[i + 1] == (rest.value, false);
        rest
      else rest
  }

  /** Raises the mismatch error for the first field that differs from what the request expects. */
  function ValidateResumeToken(state: ResumeTokenState, requestFingerprint: string, chunkIndex: int,
                               parserVersion: string, normalizerVersion: string): (r: Result<()>)
    ensures r.Ok? <==> (state.tokenVersion == TOKEN_VERSION && state.requestFingerprint == requestFingerprint
      && state.chunkIndex == chunkIndex && state.parserVersion == parserVersion
      && state.normalizerVersion == normalizerVersion)
    ensures state.tokenVersion != TOKEN_VERSION ==> r == Err(ResumeTokenMismatch("token_version_mismatch"))
    ensures (state.tokenVersion == TOKEN_VERSION && state.requestFingerprint != requestFingerprint)
      ==> r == Err(ResumeTokenMismatch("fingerprint_mismatch"))
    ensures (state.tokenVersion == TOKEN_VERSION && state.requestFingerprint == requestFingerprint
             && state.chunkIndex != chunkIndex)
      ==> r == Err(ResumeTokenMismatch("chunk_index_mismatch"))
    ensures (state.tokenVersion == TOKEN_VERSION && state.requestFingerprint == requestFingerprint
             && state.chunkIndex == chunkIndex && state.parserVersion != parserVersion)
      ==> r == Err(ResumeTokenMismatch("parser_version_mismatch"))
    ensures (state.tokenVersion == TOKEN_VERSION && state.requestFingerprint == requestFingerprint
             && state.chunkIndex == chunkIndex && state.parserVersion == parserVersion
             && state.normalizerVersion != normalizerVersion)
      ==> r == Err(ResumeTokenMismatch("normalizer_version_mismatch"))
  {
    var c := Checks(state, requestFingerprint, chunkIndex, parserVersion, normalizerVersion);
    assert c[1..] == [c[1], c[2], c[3], c[4]];
    assert c[1..][1..] == [c[2], c[3], c[4]];
    assert c[1..][1..][1..] == [c[3], c[4]];
    assert c[1..][1..][1..][1..] == [c[4]];
    match FirstMismatch(c)
    case None => Ok(())
    case Some(key) => Err(ResumeTokenMismatch(ReasonFor(key)))
  }

  /** api, api_origin, lang, format, schema_version and next_position play no part in validation. */
  lemma ValidationIgnoresUncheckedFields(s: ResumeTokenState, t: ResumeTokenState, requestFingerprint: string,
                                         chunkIndex: int, parserVersion: string, normalizerVersion: string)
    requires s.tokenVersion == t.tokenVersion && s.requestFingerprint == t.requestFingerprint
    requires s.chunkIndex == t.chunkIndex && s.parserVersion == t.parserVersion
    requires s.normalizerVersion == t.normalizerVersion
    ensures ValidateResumeToken(s, requestFingerprint, chunkIndex, parserVersion, normalizerVersion)
      == ValidateResumeToken(t, requestFingerprint, chunkIndex, parserVersion, normalizerVersion)
  {
  }

  /** A token always validates against the request it was created for. */
  lemma CreatedTokenValidates(
    api: string, apiOrigin: string, requestFingerprint: string, chunkIndex: int, nextPosition: int,
    lang: string, format: string, schemaVersion: string, codeOrderMap: seq<(string, int)>)
    ensures DecodeResumeToken(CreateResumeToken(api, apiOrigin, requestFingerprint, chunkIndex, nextPosition,
      lang, format, PARSER_VERSION, NORMALIZER_VERSION, schemaVersion, codeOrderMap)).Ok?
    ensures ValidateResumeToken(DecodeResumeToken(CreateResumeToken(api, apiOrigin, requestFingerprint, chunkIndex,
      nextPosition, lang, format, PARSER_VERSION, NORMALIZER_VERSION, schemaVersion, codeOrderMap)).value,
      requestFingerprint, chunkIndex, PARSER_VERSION, NORMALIZER_VERSION).Ok?
  {
    DecodeCreateRoundTrip(api, apiOrigin, requestFingerprint, chunkIndex, nextPosition,
      lang, format, PARSER_VERSION, NORMALIZER_VERSION, schemaVersion, codeOrderMap);
  }
}
