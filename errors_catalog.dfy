/**
 * The MESSAGEID catalogue: a server message id, normalised, is looked up
 * in a fixed table of categories; the classification also carries an
 * observation key and a confidence.
 */
module ErrorsCatalog {
  import opened Text
  import Config
  import Normalize

  const CATEGORY_MAP: map<string, string> := map[
    "M181000I" := "ok",
    "M181030I" := "no_data",
    "M181001E" := "invalid_parameter",
    "M181002E" := "invalid_language",
    "M181003E" := "invalid_format",
    "M181004E" := "missing_db",
    "M181005E" := "invalid_db",
    "M181006E" := "missing_code",
    "M181007E" := "code_count_overflow",
    "M181008E" := "invalid_start",
    "M181009E" := "invalid_end",
    "M181010E" := "period_range",
    "M181011E" := "period_order",
    "M181012E" := "invalid_start_position",
    "M181013E" := "code_not_found",
    "M181014E" := "frequency_mismatch",
    "M181015E" := "start_format_mismatch",
    "M181016E" := "end_format_mismatch",
    "M181017E" := "missing_frequency",
    "M181018E" := "invalid_frequency",
    "M181019E" := "missing_layer",
    "M181020E" := "invalid_layer",
    "M181090S" := "internal_error",
    "M181091S" := "db_unavailable"
  ]

  const UNKNOWN: string := "unknown"

  datatype ErrorClassification = ErrorClassification(
    category: string,
    catalogVersion: string,
    observationKey: string,
    confidence: real)

  /** `message_id.strip().upper()`. */
  function NormalizeId(messageId: string): string {
    Upper(Strip(messageId))
  }

  datatype ErrorClassifier = ErrorClassifier(catalogVersion: string) {

    /** `ErrorClassifier.classify`: a table lookup on the normalised id. */
    function Classify(status: Option<int>, messageId: string): (c: ErrorClassification)
      ensures c.catalogVersion == catalogVersion
      ensures NormalizeId(messageId) !in CATEGORY_MAP ==> c.category == UNKNOWN && c.confidence == 0.0
      ensures NormalizeId(messageId) in CATEGORY_MAP ==> c.category == CATEGORY_MAP[NormalizeId(messageId)]
      ensures status.None? ==> c.observationKey == NormalizeId(messageId)
      ensures status.Some? ==> c.observationKey == IntToString(status.value) + ":" + NormalizeId(messageId)
    {
      var normalized := NormalizeId(messageId);
      var category := if normalized in CATEGORY_MAP then CATEGORY_MAP[normalized] else UNKNOWN;
      var key := match status
        case Some(s) => IntToString(s) + ":" + normalized
        case None => normalized;
      ErrorClassification(category, catalogVersion, key, if category != UNKNOWN then 1.0 else 0.0)
    }
  }

  /** The classifier `ErrorClassifier()` builds when no version is given. */
  const DEFAULT_CLASSIFIER: ErrorClassifier := ErrorClassifier(Config.ERROR_CATALOG_VERSION)

  /** No catalogued id is classified as unknown. */
  lemma CatalogHasNoUnknown()
    ensures forall k :: k in CATEGORY_MAP ==> CATEGORY_MAP[k] != UNKNOWN
  {
  }

  /** A catalogued id is classified with full confidence, an unknown one with none. */
  lemma ConfidenceIffKnown(classifier: ErrorClassifier, status: Option<int>, messageId: string)
    ensures var c := classifier.Classify(status, messageId);
      (c.confidence == 1.0 <==> NormalizeId(messageId) in CATEGORY_MAP)
      && (c.category == UNKNOWN <==> NormalizeId(messageId) !in CATEGORY_MAP)
  {
    CatalogHasNoUnknown();
  }

  /** A normalised id normalises to itself. */
  lemma NormalizeIdIdempotent(messageId: string)
    ensures NormalizeId(NormalizeId(messageId)) == NormalizeId(messageId)
  {
    var x := Strip(messageId);
    var u := Upper(x);
    if u != [] {
      Normalize.CharFacts(x[0]);
      Normalize.CharFacts(x[|x| - 1]);
    }
    StripNoEdges(u);
    forall i | 0 <= i < |u| ensures Upper(u)[i] == u[i] {
      Normalize.CharFacts(x[i]);
    }
  }

  /** Classification ignores surrounding whitespace and letter case: classifying the normalised id gives the same result. */
  lemma ClassifyIgnoresCaseAndSpace(classifier: ErrorClassifier, status: Option<int>, messageId: string)
    ensures classifier.Classify(status, NormalizeId(messageId)) == classifier.Classify(status, messageId)
  {
    NormalizeIdIdempotent(messageId);
  }
}
