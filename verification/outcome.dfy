/** Errors raised by the decoder and the archive layer, and a failure-compatible
    result type so that `:-` propagates them the way the C# code lets an
    exception unwind. */
module Outcome {

  datatype Error =
    | BadTable                   // LhaException("Bad table.")
    | IndexOutOfRange            // an array access the CLR would reject
    | EndOfStream                // BinaryReader.ReadByte past the end of the input
    | Malformed                  // a shift or fill count outside what the model covers
    | Diverges                   // a tree walk that never reaches a symbol
    | InvalidArgument            // ArgumentException / ArgumentOutOfRangeException
    | UnsupportedMethod(signature: string)
    | UnknownMethod(signature: string)
    | BrokenHeader               // "header is broken ..." family of LhaException
    | UnsupportedLevel(level: int)
    | DataMismatch               // "Data length not matched" / "Data crc is not matched"
    | NullReference              // a member access through a field the code has set to null

  datatype Result<+T> = Ok(value: T) | Err(error: Error) {

    predicate IsFailure() {
      Err?
    }

    function PropagateFailure<U>(): Result<U>
      requires Err?
    {
      Err(error)
    }

    function Extract(): T
      requires Ok?
    {
      value
    }
  }

  /** A value that may be absent (a C# `null`). */
  datatype Option<+T> = None | Some(value: T)

  /** `:- Need(c, e)` fails with `e` unless `c` holds. */
  datatype Check = Pass | Fail(error: Error) {

    predicate IsFailure() {
      Fail?
    }

    function PropagateFailure<U>(): Result<U>
      requires Fail?
    {
      Err(error)
    }
  }

  function Need(condition: bool, error: Error): (c: Check)
    ensures c.Pass? <==> condition
  {
    if condition then Pass else Fail(error)
  }
}
