/** Little-endian unsigned words, as `struct.unpack("<H")` and `"<I"` read them,
    with the encoders that write them back. */
module LittleEndian {
  import opened Common

  function U16(b: seq<byte>): (x: nat)
    requires |b| == 2
    ensures x < 0x1_0000
  {
    b[0] as int + 0x100 * (b[1] as int)
  }

  function U32(b: seq<byte>): (x: nat)
    requires |b| == 4
    ensures x < 0x1_0000_0000
  {
    b[0] as int + 0x100 * (b[1] as int) + 0x1_0000 * (b[2] as int) + 0x100_0000 * (b[3] as int)
  }

  function EncodeU16(x: nat): (b: seq<byte>)
    requires x < 0x1_0000
    ensures |b| == 2 && U16(b) == x
  {
    [x % 0x100, x / 0x100]
  }

  function EncodeU32(x: nat): (b: seq<byte>)
    requires x < 0x1_0000_0000
    ensures |b| == 4 && U32(b) == x
  {
    var q1 := x / 0x100;
    var q2 := q1 / 0x100;
    var q3 := q2 / 0x100;
    assert x == x % 0x100 + 0x100 * q1 && q1 == q1 % 0x100 + 0x100 * q2 && q2 == q2 % 0x100 + 0x100 * q3;
    assert q1 < 0x100_0000 && q2 < 0x1_0000 && q3 < 0x100;
    [x % 0x100, q1 % 0x100, q2 % 0x100, q3]
  }

  lemma SplitLowByte(lo: int, q: nat)
    requires 0 <= lo < 0x100
    ensures (lo + 0x100 * q) % 0x100 == lo && (lo + 0x100 * q) / 0x100 == q
  {
  }

  /** Decoding loses nothing: every two bytes are the encoding of the half-word they decode to. */
  lemma U16Injective(b: seq<byte>)
    requires |b| == 2
    ensures EncodeU16(U16(b)) == b
  {
    SplitLowByte(b[0], b[1]);
  }

  /** Decoding loses nothing: every four bytes are the encoding of the word they decode to. */
  lemma U32Injective(b: seq<byte>)
    requires |b| == 4
    ensures EncodeU32(U32(b)) == b
  {
    var q2: nat := b[2] as int + 0x100 * (b[3] as int);
    var q1: nat := b[1] as int + 0x100 * q2;
    var x := U32(b);
    assert x == b[0] as int + 0x100 * q1;
    SplitLowByte(b[0], q1);
    SplitLowByte(b[1], q2);
    SplitLowByte(b[2], b[3]);
  }
}
