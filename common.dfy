/** Shared vocabulary of the decoder model: bytes, optional values, and the
    ways a call can end other than by returning normally. */
module Common {

  /** One byte of the image, as Python's `bytes` hands it out. */
  type byte = b: int | 0 <= b < 0x100

  datatype Option<+T> = None | Some(value: T)

  /** Every way a decoder call ends without a value: the exceptions the
      Python code lets escape, and the scan that never returns a result. */
  datatype Error =
    | NegativeSeek   // seek to an offset below zero raises ValueError
    | ShortUnpack    // struct.unpack given a buffer of the wrong length raises struct.error
    | BadReadLength  // read() with a length below -1 raises ValueError
    | NoDelimiter    // read_until reaches the end of data without its delimiter: it never returns a result

  datatype Result<+T> = Success(value: T) | Failure(error: Error)

  /** Pairs a successful result with the cursor position it leaves behind. */
  function WithPos<T>(r: Result<T>, pos: nat): Result<(T, nat)>
  {
    match r
    case Success(v) => Success((v, pos))
    case Failure(e) => Failure(e)
  }

  function Min(a: int, b: int): int
  {
    if a <= b then a else b
  }
}
