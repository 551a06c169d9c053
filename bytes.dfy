/** Bytes, Go's fixed-width unsigned integers, and the big-endian byte layout
    of encoding/binary's BigEndian.PutUintNN / BigEndian.UintNN. */
module Bytes {

  type Byte = x: int | 0 <= x < 0x100
  type U16 = x: int | 0 <= x < 0x1_0000
  type U32 = x: int | 0 <= x < 0x1_0000_0000
  type U64 = x: int | 0 <= x < 0x1_0000_0000_0000_0000
  type I64 = x: int | -0x8000_0000_0000_0000 <= x < 0x8000_0000_0000_0000

  /** 256^n: the number of values that fit in n bytes. */
  function Pow256(n: nat): (r: nat)
    ensures r >= 1
  {
    if n == 0 then 1 else 256 * Pow256(n - 1)
  }

  lemma Pow256Values()
    ensures Pow256(1) == 0x100
    ensures Pow256(2) == 0x1_0000
    ensures Pow256(3) == 0x100_0000
    ensures Pow256(4) == 0x1_0000_0000
    ensures Pow256(8) == 0x1_0000_0000_0000_0000
  {
    assert Pow256(1) == 256 * Pow256(0);
    assert Pow256(2) == 256 * Pow256(1);
    assert Pow256(3) == 256 * Pow256(2);
    assert Pow256(4) == 256 * Pow256(3);
    assert Pow256(5) == 256 * Pow256(4);
    assert Pow256(6) == 256 * Pow256(5);
    assert Pow256(7) == 256 * Pow256(6);
    assert Pow256(8) == 256 * Pow256(7);
  }

  /** Go's uint16(n) conversion: keeps the low 16 bits. */
  function Uint16Of(n: int): U16 { n % 0x1_0000 }

  /** Go's uint64(n) conversion of an int64: its two's-complement bit pattern. */
  function Uint64Of(n: I64): U64 { n % 0x1_0000_0000_0000_0000 }

  /** Go's int64(u) conversion of a uint64. */
  function Int64Of(u: U64): I64 {
    if u < 0x8000_0000_0000_0000 then u else u - 0x1_0000_0000_0000_0000
  }

  /** The low `width` bytes of v, most significant first (binary.BigEndian.PutUintNN). */
  function BigEndian(width: nat, v: nat): (b: seq<Byte>)
    ensures |b| == width
  {
    if width == 0 then [] else BigEndian(width - 1, v / 256) + [v % 256]
  }

  /** The unsigned value of a big-endian byte string (binary.BigEndian.UintNN). */
  function FromBigEndian(b: seq<Byte>): (v: nat)
    ensures v < Pow256(|b|)
  {
    if b == [] then 0 else FromBigEndian(b[..|b| - 1]) * 256 + b[|b| - 1]
  }

  /** The unsigned value of a little-endian byte string (the wire.ReadVarInt payloads). */
  function FromLittleEndian(b: seq<Byte>): (v: nat)
    ensures v < Pow256(|b|)
  {
    if b == [] then 0 else b[0] + 256 * FromLittleEndian(b[1..])
  }

  /** Decoding undoes encoding for every value that fits the width. */
  lemma {:induction false} BigEndianRoundTrip(width: nat, v: nat)
    requires v < Pow256(width)
    ensures FromBigEndian(BigEndian(width, v)) == v
  {
    if width > 0 {
      BigEndianRoundTrip(width - 1, v / 256);
      var b := BigEndian(width, v);
      assert b[..|b| - 1] == BigEndian(width - 1, v / 256);
    }
  }

  /** Encoding undoes decoding: every byte string is the encoding of its value. */
  lemma {:induction false} FromBigEndianRoundTrip(b: seq<Byte>)
    ensures BigEndian(|b|, FromBigEndian(b)) == b
  {
    if b != [] {
      var init := b[..|b| - 1];
      FromBigEndianRoundTrip(init);
      var v := FromBigEndian(b);
      assert v / 256 == FromBigEndian(init) && v % 256 == b[|b| - 1];
      assert b == init + [b[|b| - 1]];
    }
  }

  /** A value that fits in `width` bytes has a zero top byte when written in width + 1 bytes. */
  lemma {:induction false} BigEndianLeadingZero(width: nat, v: nat)
    requires v < Pow256(width)
    ensures BigEndian(width + 1, v) == [0] + BigEndian(width, v)
  {
    if width > 0 {
      BigEndianLeadingZero(width - 1, v / 256);
    }
  }

  /** A zero byte in front does not change a big-endian value. */
  lemma {:induction false} FromBigEndianLeadingZero(b: seq<Byte>)
    ensures FromBigEndian([0] + b) == FromBigEndian(b)
  {
    if b != [] {
      var init := b[..|b| - 1];
      FromBigEndianLeadingZero(init);
      assert ([0] + b)[..|b|] == [0] + init;
    }
  }

  /** The uint64 bit pattern of an int64 converts back to the same int64. */
  lemma Int64RoundTrip(n: I64)
    ensures Int64Of(Uint64Of(n)) == n
  {
  }
}
