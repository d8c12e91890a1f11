/**
 * Java's fixed-width integers, object identities and the small result types shared by
 * every module of the model.
 */
module JavaTypes {

  /** An octet on the wire or in a buffer, as an unsigned value (Java's `byte & 0xff`). */
  type byte = b: int | 0 <= b < 0x100

  const Two7: int := 0x80
  const Two15: int := 0x8000
  const Two16: int := 0x1_0000
  const Two31: int := 0x8000_0000
  const Two32: int := 0x1_0000_0000
  const Two63: int := 0x8000_0000_0000_0000
  const Two64: int := 0x1_0000_0000_0000_0000

  /** Java `byte`, `short`, `int` and `long` values. */
  type int8 = x: int | -Two7 <= x < Two7
  type int16 = x: int | -Two15 <= x < Two15
  type int32 = x: int | -Two31 <= x < Two31
  type int64 = x: int | -Two63 <= x < Two63
  /** Java `char`: an unsigned 16-bit code unit. */
  type char16 = x: int | 0 <= x < Two16

  const Int32Max: int32 := 0x7fff_ffff
  const Int32Min: int32 := -0x8000_0000

  /** Narrowing of an `int` expression: Java keeps the low 32 bits, as two's complement. */
  function Wrap32(x: int): (r: int32)
    ensures (r - x) % Two32 == 0
    ensures -Two31 <= x < Two31 ==> r == x
  {
    var u := x % Two32;
    if u >= Two31 then u - Two32 else u
  }

  /** Narrowing of a `long` expression. */
  function Wrap64(x: int): (r: int64)
    ensures (r - x) % Two64 == 0
    ensures -Two63 <= x < Two63 ==> r == x
  {
    var u := x % Two64;
    if u >= Two63 then u - Two64 else u
  }

  /** The cast `(byte) x`, read back as a signed value. */
  function Signed8(b: byte): (r: int8)
    ensures r % 0x100 == b
  {
    if b >= Two7 then b - 0x100 else b
  }

  /** Java's `/` on integers truncates toward zero, unlike Dafny's Euclidean `/`. */
  function JavaDiv(x: int, d: int): (q: int)
    requires d > 0
    ensures x >= 0 ==> q == x / d
    ensures x < 0 ==> q == -((-x) / d)
  {
    if x >= 0 then x / d else -((-x) / d)
  }

  /** An object identity: two references are the same object iff they are equal. */
  type Ref = nat

  datatype Option<T> = None | Some(value: T)

  /** The exceptions the modelled code raises, one constructor per distinct cause. */
  datatype Error =
    | EndOfStream           // the channel ended before a read was satisfied ("EOS on read")
    | Stall                 // a read larger than the 8192-byte buffer: the source never returns
    | BufferUnderflow       // a payload longer than the buffer, which is never refilled
    | HeaderMismatch        // the first five bytes are not the Steak header
    | NegativeArraySize     // a decoded length below zero used as an array size
    | ZeroLengthBigInteger  // a BigInteger built from zero bytes
    | Unsupported           // the time, date and zoned date-time tags
    | UnusedTag             // the reserved tag 0x2f
    | InvalidCodePoint      // writeChar with a value that is no Unicode code point
    | NotPrimitive          // writeStartPrimitiveArray with a reference type
    | ByteArrayAsPrimitive  // writeStartPrimitiveArray(byte.class): write(byte[]) is the way
    | EmptyTypeName         // writeCustomType("")
    | ClassCast             // a cast the value does not satisfy
    | NullPointer           // a method called on null
    | NoMoreValue           // nextValue with no token left
    | NotAValue             // NotAvailable or EndOfStructure read as a value
    | CannotReadCustomType  // no reader and no loadable class for a custom type name
    | CloseFailed           // AutoCloseable.close threw
    | IllegalArgument       // a collection constructed with a negative initial capacity

  datatype Result<T> = Ok(value: T) | Err(error: Error)
  {
    predicate IsFailure() { Err? }

    function PropagateFailure<U>(): Result<U>
      requires Err?
    {
      Err(error)
    }

    function Extract(): T
      requires Ok?
    {
      value
    }
  }

  /** The outcome of an operation that returns nothing but may throw. */
  datatype Outcome = Pass | Fail(error: Error)
  {
    predicate IsFailure() { Fail? }

    function PropagateFailure(): Outcome
      requires Fail?
    {
      this
    }
  }
}
