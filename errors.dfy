/**
 * The library's exceptions, as values. Operations that raise in the library
 * return one of these on their error path instead.
 */
module Errors {
  import opened Text

  /** The `BojApiError` subclass chosen for a server-reported failure. */
  datatype ApiErrorKind = BadRequest | ServerError | Unavailable | Gateway | GenericApiError

  /** Why a resume token could not be decoded (Python's KeyError, ValueError, TypeError, binascii errors). */
  datatype DecodeError =
    | NotBase64Json
    | PayloadNotObject
    | MissingField(field: string)
    | BadField(field: string)

  /** One entry of a conflict sample: the duplicated key and both last_update values. */
  datatype ConflictDetail = ConflictDetail(
    seriesCode: string,
    surveyDate: string,
    existingLastUpdate: Option<string>,
    incomingLastUpdate: Option<string>)

  /** A wall-clock reading in Japan Standard Time, down to the minute. */
  datatype Clock = Clock(hour: int, minute: int)

  datatype ConsistencyDetails =
    | Conflict(detail: ConflictDetail)
    | Window(firstFetch: Clock, current: Clock)

  datatype BojError =
    | ApiError(kind: ApiErrorKind, status: int, messageId: string, requestUrl: string,
               excerpt: string, rawResponse: Option<string>)
    | TransportError(message: string, cause: Option<string>)
    | ValidationError(validationCode: string)
    | ResumeTokenMismatch(reason: string)
    | ResumeTokenUnreadable(decodeError: DecodeError)
    | PaginationStalled(chunkIndex: int, start: int, nextPosition: int)
    | ConsistencyError(signal: string, details: ConsistencyDetails)
    | ValueError(message: string)
    | TypeError(message: string)
    | AttributeError(message: string)

  datatype Result<T> = Ok(value: T) | Err(error: BojError) {
    predicate IsFailure() {
      Err?
    }

    function PropagateFailure<U>(): Result<U>
      requires Err?
    {
      Err(error)
    }

    function Extract(): T
      requires Ok?
    {
      value
    }
  }
}
