/** Error kinds the store raises and the result type its operations return. */
module Failures {

  /** The exceptions thrown by the store:
      - MalformedRow: a non-empty row block holds no token, so the tokeniser's
        `match` yields null and the decoder fails on it;
      - InvalidReference: a cell reference that is not letters followed by a
        digit 1-9 at position 0;
      - InvalidRowNumber: a row number below 1. */
  datatype Error = MalformedRow | InvalidReference | InvalidRowNumber

  datatype Result<T> = Ok(value: T) | Err(error: Error)

  datatype Option<T> = None | Some(value: T) {
    function GetOr(default: T): T {
      match this
      case Some(v) => v
      case None => default
    }
  }
}
