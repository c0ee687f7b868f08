/**
 * The records the engine passes between its layers: a parsed API response,
 * a normalised time-series record, a metadata record and the response
 * metadata attached to a frame.
 */
module Types {
  import opened Text
  import opened Values
  import opened Errors
  import Resume

  /** Parser output: the body's STATUS, MESSAGEID, MESSAGE, PARAMETER, NEXTPOSITION and data rows. */
  datatype ParsedResponse = ParsedResponse(
    status: int,
    messageId: string,
    message: string,
    dateRaw: Option<string>,
    parameters: seq<(string, Option<string>)>,
    nextPosition: Option<int>,
    rows: seq<Dict>,
    db: Option<string>,
    excerpt: string)

  /**
   * A normalised observation. `value` keeps the raw cell; the conversion
   * to a decimal number is not part of this model.
   */
  datatype TimeSeriesRecord = TimeSeriesRecord(
    seriesCode: string,
    seriesName: Option<string>,
    unit: Option<string>,
    frequency: Option<string>,
    frequencyCode: Option<string>,
    weekAnchor: Option<string>,
    category: Option<string>,
    lastUpdate: Option<string>,
    surveyDate: string,
    value: Option<Value>,
    originalCodeIndex: Option<int>,
    sourcePageIndex: int,
    sourceRowIndex: int,
    extras: Dict)

  datatype MetadataRecord = MetadataRecord(
    seriesCode: string,
    seriesName: Option<string>,
    unit: Option<string>,
    frequency: Option<string>,
    category: Option<string>,
    layers: seq<Option<string>>,
    startOfTimeSeries: Option<string>,
    endOfTimeSeries: Option<string>,
    lastUpdate: Option<string>,
    notes: Option<string>,
    extras: Dict)

  /** The response metadata fields the retrieval loops fill in. */
  datatype ResponseMeta = ResponseMeta(
    status: int,
    messageId: string,
    message: string,
    nextPosition: Option<int>,
    parameters: seq<(string, Option<string>)>,
    requestUrl: string,
    schemaVersion: string,
    parserVersion: string,
    normalizerVersion: string,
    resumeToken: Option<Resume.Token>,
    consistencySignal: Option<string>,
    consistencyDetails: Option<ConsistencyDetails>,
    conflictResolution: string,
    conflictsCount: nat,
    conflictsSample: seq<ConflictDetail>)
}
