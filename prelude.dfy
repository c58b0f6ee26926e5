/** Types shared by the model: failure-carrying wrappers, bytes as the wire
    sees them, and Java's 32-bit `int` arithmetic. */
module Prelude {

  datatype Option<+T> = None | Some(value: T)

  /** The result of a step that either completes or throws. */
  datatype Outcome<+E> = Pass | Fail(error: E)

  datatype Result<+T, +E> = Ok(value: T) | Err(error: E)

  /** An octet on the wire, read as unsigned (Java's `b & 0xFF`). */
  type Byte = b: int | 0 <= b < 0x100

  /** A UTF-16 code unit, which is what Java's `String.charAt` returns. */
  type CodeUnit = c: int | 0 <= c < 0x1_0000

  const JavaIntMin: int := -0x8000_0000
  const JavaIntMax: int := 0x7fff_ffff

  predicate IsJavaInt(x: int) {
    JavaIntMin <= x <= JavaIntMax
  }

  /** Java's `a + b` on two `int`s: the sum taken modulo 2^32 into the signed range. */
  function JavaAdd(a: int, b: int): (r: int)
    requires IsJavaInt(a) && IsJavaInt(b)
    ensures IsJavaInt(r)
    ensures (r - (a + b)) % 0x1_0000_0000 == 0
    ensures IsJavaInt(a + b) ==> r == a + b
    ensures a + b > JavaIntMax ==> r < 0
  {
    var s := a + b;
    if s > JavaIntMax then s - 0x1_0000_0000
    else if s < JavaIntMin then s + 0x1_0000_0000
    else s
  }

  /** The value Java prints for a `byte`: bytes are signed, so 0x80..0xFF read as -128..-1. */
  function SignedByte(b: Byte): (r: int)
    ensures -0x80 <= r < 0x80
    ensures (r - b) % 0x100 == 0
  {
    if b < 0x80 then b else b - 0x100
  }

  /** Java's `(byte) x`, read back as unsigned: only the low eight bits survive. */
  function LowByte(x: int): (r: Byte)
    ensures 0 <= x < 0x100 ==> r == x
    ensures (r - x) % 0x100 == 0
  {
    x % 0x100
  }
}
