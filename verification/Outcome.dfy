/** Results shared by every component: an optional value, and the service's
    "value or error code" result. Message texts are not modelled. */
module Outcome {

  datatype Option<+T> = None | Some(value: T)

  datatype ErrorCode =
    | Internal
    | ServiceUnavailable
    | InvalidArgument
    | RateLimited
    | TokenMissing
    | TokenInvalid
    | TokenExpired
    | TokenRevoked
    | WrongPassword
    | AccountLocked
    | CaptchaWrong
    | CaptchaExpired
    | UserNotFound
    | UserAlreadyExists
    | MobileTaken
    | UserDisabled

  datatype Result<+T> = Ok(value: T) | Fail(code: ErrorCode)

  /** Of a list telling which of the coming calls fail, whether the k-th does. */
  predicate FailsAt(faults: seq<bool>, k: nat) {
    k < |faults| && faults[k]
  }
}
