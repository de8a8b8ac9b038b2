/** Values that may be missing, and outcomes of operations that throw in the program. */
module Results {
  datatype Option<+T> = None | Some(value: T) {
    function GetOr(default: T): T {
      if Some? then value else default
    }
  }

  datatype Error =
    | InvalidHexCharacter
    | MissingHexPrefix
    | OddHexLength
    | InvalidDecimalDigit
    | DecimalTooLarge
    | IndexOutOfRange
    | InvalidAddress
    | SettingOutOfRange

  datatype Result<+T> = Success(value: T) | Failure(error: Error) {
    predicate IsFailure() {
      Failure?
    }

    function PropagateFailure<U>(): Result<U>
      requires Failure?
    {
      Failure(error)
    }

    function Extract(): T
      requires Success?
    {
      value
    }
  }
}
