/** Values shared by every module: bytes, JavaScript errors and the
    Option/Result wrappers that stand for `null` and for a rejected promise. */
module Base {

  /** One octet of a Node.js Buffer. */
  newtype byte = x: int | 0 <= x < 256

  type Bytes = seq<byte>

  /** The constructor of a thrown JavaScript error. */
  datatype ErrorName = TypeError | Error

  /** A thrown or rejected JavaScript error: its constructor and its message. */
  datatype Exception = Exception(name: ErrorName, message: string)

  datatype Option<+T> = None | Some(value: T)

  /** A settled promise: fulfilled with a value, or rejected with an error. */
  datatype Result<+T> = Success(value: T) | Failure(error: Exception) {
    predicate IsFailure() { Failure? }

    function PropagateFailure<U>(): Result<U>
      requires Failure?
    {
      Failure(error)
    }

    function Extract(): T
      requires Success?
    {
      value
    }
  }

  predicate IsPrefix(p: string, s: string) {
    |p| <= |s| && s[..|p|] == p
  }
}
