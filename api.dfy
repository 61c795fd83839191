/** Wire-level names shared by every route: the two roles and the error
    codes with their HTTP statuses. */
module Api {

  const Admin := "admin"
  const Staff := "staff"

  /** The role names a user row may carry. */
  predicate IsRole(role: string) {
    role == Admin || role == Staff
  }

  datatype ErrorCode =
    | MissingFields
    | InvalidLogin
    | Unauthorized
    | InvalidImage
    | InvalidRole
    | UserExists
    | NotFound

  /** The `error` string of the JSON envelope: upper-case words joined by `_`. */
  function Code(e: ErrorCode): (code: string)
    ensures code != [] && code[0] != '_' && code[|code| - 1] != '_'
    ensures forall i :: 0 <= i < |code| ==> 'A' <= code[i] <= 'Z' || code[i] == '_'
  {
    match e
    case MissingFields => "MISSING_FIELDS"
    case InvalidLogin => "INVALID_LOGIN"
    case Unauthorized => "UNAUTHORIZED"
    case InvalidImage => "INVALID_IMAGE"
    case InvalidRole => "INVALID_ROLE"
    case UserExists => "USER_EXISTS"
    case NotFound => "NOT_FOUND"
  }

  /** The HTTP status sent with each error: every failure is a 4xx; a bad
      login and a missing or under-privileged session share 401, and there
      is no 403. */
  function Status(e: ErrorCode): (status: int)
    ensures 400 <= status < 500 && status != 403
    ensures status == 401 <==> e == InvalidLogin || e == Unauthorized
    ensures status == 409 <==> e == UserExists
    ensures status == 404 <==> e == NotFound
    ensures status == 400 <==> e == MissingFields || e == InvalidImage || e == InvalidRole
  {
    match e
    case MissingFields => 400
    case InvalidLogin => 401
    case Unauthorized => 401
    case InvalidImage => 400
    case InvalidRole => 400
    case UserExists => 409
    case NotFound => 404
  }

  /** No two errors share a code, so a client can tell every failure apart
      by its `error` string alone. */
  lemma {:induction false} CodesDistinct(a: ErrorCode, b: ErrorCode)
    ensures Code(a) == Code(b) <==> a == b
  {
    if a != b {
      var ca, cb := Code(a), Code(b);
      if |ca| == |cb| {
        var i :| 0 <= i < |ca| && ca[i] != cb[i];
      }
    }
  }
}
