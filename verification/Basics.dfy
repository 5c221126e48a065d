/** Bytes, optional values and the errors the vault stack can raise. */
module Basics {

  type Byte = x: int | 0 <= x < 256

  type Bytes = seq<Byte>

  datatype Option<+T> = None | Some(value: T)

  /** One constructor per Python exception type that the modelled code raises.
      `Unmodelled` marks inputs whose treatment the model leaves open. */
  datatype Error =
    | FormatError
    | AuthenticationError
    | LockedError
    | EntryNotFoundError
    | FileExistsError
    | FileNotFoundError
    | OSError
    | ValueError
    | StructError
    | TypeError
    | Unmodelled

  datatype Result<+T> = Ok(value: T) | Err(error: Error) {
    predicate IsFailure() {
      Err?
    }

    function PropagateFailure<U>(): Result<U>
      requires Err?
    {
      Err(error)
    }

    function Extract(): T
      requires Ok?
    {
      value
    }
  }

  function Zeros(n: nat): (b: Bytes)
    ensures |b| == n
  {
    seq(n, _ => 0)
  }

  /** Makes a mutable copy of `b`, like Python's `bytearray(b)`. */
  method ToArray(b: Bytes) returns (a: array<Byte>)
    ensures fresh(a) && a[..] == b
  {
    a := new Byte[|b|](i requires 0 <= i < |b| => b[i]);
  }
}
