/**
 * Vocabulary shared by every part of the model: bytes and the fixed-width
 * integers Go declares, an optional value standing for a Go pointer or a
 * nil-able slice, a result for calls that can fail, and the errors the RPC
 * transport can report.
 */
module Base {

  /** One octet on the wire. */
  type byte = x: int | 0 <= x < 0x100

  /** Go `int32`. */
  type int32 = x: int | -0x8000_0000 <= x < 0x8000_0000

  /** Go `int64`, and Go `int` on the 64-bit platforms the system runs on. */
  type int64 = x: int | -0x8000_0000_0000_0000 <= x < 0x8000_0000_0000_0000

  /** Go `uint64`. */
  type uint64 = x: int | 0 <= x < 0x1_0000_0000_0000_0000

  /** Go `float64`, kept as its bit pattern: the conversions only copy it. */
  type float64 = bv64

  /** Go `time.Duration`: nanoseconds in an int64. */
  type Duration = int64

  /** Go `time.Time` as the conversions see it: a value that is only copied.
      The zero value is what `time.Time{}` holds. */
  datatype Time = Time(wall: uint64, ext: int64)

  /** `time.Time{}`. */
  const ZeroTime: Time := Time(0, 0)

  /** A Go `[]byte`: its length is a non-negative Go int. */
  type Bytes = s: seq<byte> | |s| < 0x8000_0000_0000_0000

  /** A Go pointer or nil-able slice: `None` is nil. */
  datatype Option<+T> = None | Some(value: T)

  /** The outcome of a call that returns a value or an error. */
  datatype Result<+T, +E> = Ok(value: T) | Err(error: E)

  /** How a failed `Write` of the connection is classified (`net.Error.Temporary()`). */
  datatype WriteErr = Temporary | Fatal

  /** The Go runtime's allocation limit on 64-bit Linux (`maxAlloc`, 2^48
      bytes): asking make or bytes.Buffer.Grow for a longer byte slice
      panics. */
  const MaxAlloc: nat := 0x1_0000_0000_0000

  /** The errors the RPC transport can return. The last two stand for Go
      run-time panics: the model reports them where an error would go and
      the caller stops there, as the panic unwinds the goroutine. */
  datatype Error =
    | EOF                     // io.EOF: the stream ended before the first byte of an item
    | UnexpectedEOF           // io.ErrUnexpectedEOF: the stream ended inside an item
    | ConnReset               // any other read error of the connection
    | VarintOverflow          // encoding/binary: the length prefix does not fit 64 bits
    | NegativeCount           // bufio.ErrNegativeCount: Peek of a negative count
    | WriteFailed(kind: WriteErr)
    | MarshalFailed           // the message encoder reported an error
    | Malformed               // proto.Unmarshal rejected the payload
    | NilTarget               // a non-empty payload was decoded into a nil message
    | NotProtoMessage         // an argument does not implement proto.Message
    | SliceBounds             // panic: MarshalTo wrote more than the Size() it announced
    | AllocTooLarge           // panic: a byte slice longer than MaxAlloc was asked for

  function Min(a: int, b: int): (m: int)
    ensures m <= a && m <= b
    ensures m == a || m == b
  {
    if a <= b then a else b
  }
}
