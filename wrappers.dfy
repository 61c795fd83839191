/** Option and Result, used for the request's optional fields and for
    validation outcomes. */
module Wrappers {

  datatype Option<+T> = None | Some(value: T) {
    function GetOr(default: T): T {
      match this
      case Some(v) => v
      case None => default
    }
  }

  datatype Result<+R, +E> = Success(value: R) | Failure(error: E)

  /** `field ?? ""`: an absent request field reads as the empty string. */
  function OrEmpty(field: Option<string>): string {
    field.GetOr("")
  }
}
