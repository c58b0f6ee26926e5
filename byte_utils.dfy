/** The big-endian 16-bit encoder that the CONNECT request uses for the port. */
module ByteUtils {
  import opened Prelude

  /** The largest value an unsigned 16-bit integer holds (2^16 - 1). */
  const MaxUint16: int := 65535

  /** The exceptions `writeUint16` can end in. */
  datatype WriteError =
    | IllegalArgument   // value out of range, or the guard on the buffer length fails
    | IndexOutOfBounds  // an array store outside the buffer

  /** The two bytes that represent `v`, most significant first. */
  function EncodeUint16(v: int): (r: seq<Byte>)
    requires 0 <= v <= MaxUint16
    ensures |r| == 2
    ensures DecodeUint16(r[0], r[1]) == v
  {
    [v / 0x100, v % 0x100]
  }

  /** The value of two bytes read big-endian. */
  function DecodeUint16(hi: Byte, lo: Byte): (v: int)
    ensures 0 <= v <= MaxUint16
  {
    hi * 0x100 + lo
  }

  /** Decoding loses nothing: every pair of bytes is the encoding of its value. */
  lemma EncodeDecodeUint16(hi: Byte, lo: Byte)
    ensures EncodeUint16(DecodeUint16(hi, lo)) == [hi, lo]
  {
    var v := DecodeUint16(hi, lo);
    assert v / 0x100 == hi && v % 0x100 == lo;
  }

  /** Stores `src` big-endian at `dest[offset]` and `dest[offset + 1]`. The three
      guards come first; the stores themselves are bounds-checked as Java's are,
      and `offset + 2` in the last guard is a Java `int` sum. */
  method WriteUint16(src: int, dest: array<Byte>, offset: int) returns (r: Outcome<WriteError>)
    requires IsJavaInt(src) && IsJavaInt(offset)
    requires dest.Length <= JavaIntMax
    modifies dest
    ensures r.Pass? <==> 0 <= src <= MaxUint16 && 0 <= offset && offset + 2 <= dest.Length
    ensures r == Fail(IllegalArgument) <==>
              src < 0 || src > MaxUint16 || dest.Length < JavaAdd(offset, 2)
    ensures r.Pass? ==>
              dest[..] == old(dest[..])[offset := src / 0x100][offset + 1 := src % 0x100]
    ensures r.Pass? ==> dest[offset..offset + 2] == EncodeUint16(src)
    ensures r.Fail? ==> forall i :: 0 <= i < dest.Length && i != offset ==> dest[i] == old(dest[i])
    ensures r == Fail(IllegalArgument) ==> dest[..] == old(dest[..])
    ensures r.Fail? && (offset + 2 <= JavaIntMax || dest.Length < JavaIntMax) ==> dest[..] == old(dest[..])
  {
    if src < 0 {
      return Fail(IllegalArgument);
    }
    if src > MaxUint16 {
      return Fail(IllegalArgument);
    }
    if dest.Length < JavaAdd(offset, 2) {
      return Fail(IllegalArgument);
    }
    if !(0 <= offset < dest.Length) {
      return Fail(IndexOutOfBounds);
    }
    dest[offset] := src / 0x100;
    if !(0 <= offset + 1 < dest.Length) {
      return Fail(IndexOutOfBounds);
    }
    dest[offset + 1] := src % 0x100;
    r := Pass;
  }
}
