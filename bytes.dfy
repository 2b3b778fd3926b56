/** Bytes, fixed-width integers on the wire, and 24-bit RGB colours. */
module Bytes {

  type byte = x: int | 0 <= x < 256

  const Two16: nat := 0x1_0000
  const Two32: nat := 0x1_0000_0000

  /** The value of a byte string read most-significant byte first. */
  function FromBigEndian(bs: seq<byte>): nat
  {
    if |bs| == 0 then 0 else FromBigEndian(bs[..|bs| - 1]) * 256 + bs[|bs| - 1]
  }

  /** The value of a byte string read least-significant byte first. */
  function FromLittleEndian(bs: seq<byte>): nat
  {
    if |bs| == 0 then 0 else bs[0] + 256 * FromLittleEndian(bs[1..])
  }

  /** The 4-byte network-order (big-endian) encoding of a 32-bit value. */
  function BigEndian32(v: nat): (r: seq<byte>)
    requires v < Two32
    ensures |r| == 4
  {
    var q1 := v / 256;
    var q2 := q1 / 256;
    [q2 / 256, q2 % 256, q1 % 256, v % 256]
  }

  lemma BigEndian32Decodes(v: nat)
    requires v < Two32
    ensures FromBigEndian(BigEndian32(v)) == v
  {
    var r := BigEndian32(v);
    var q1 := v / 256;
    var q2 := q1 / 256;
    assert FromBigEndian(r[..1]) == q2 / 256;
    assert FromBigEndian(r[..2]) == q2 by { assert r[..2][..1] == r[..1]; }
    assert FromBigEndian(r[..3]) == q1 by { assert r[..3][..2] == r[..2]; }
    assert r[..4] == r;
  }

  /** The 2-byte network-order (big-endian) encoding of a 16-bit value. */
  function BigEndian16(v: nat): (r: seq<byte>)
    requires v < Two16
    ensures |r| == 2
  {
    [v / 256, v % 256]
  }

  lemma BigEndian16Decodes(v: nat)
    requires v < Two16
    ensures FromBigEndian(BigEndian16(v)) == v
  {
    var r := BigEndian16(v);
    assert FromBigEndian(r[..1]) == v / 256;
    assert r[..2] == r;
  }

  /** The 4-byte little-endian encoding of a 32-bit value (the in-memory order on x86 and ARM hosts). */
  function LittleEndian32(v: nat): (r: seq<byte>)
    requires v < Two32
    ensures |r| == 4
  {
    var q1 := v / 256;
    var q2 := q1 / 256;
    [v % 256, q1 % 256, q2 % 256, q2 / 256]
  }

  lemma LittleEndian32Decodes(v: nat)
    requires v < Two32
    ensures FromLittleEndian(LittleEndian32(v)) == v
  {
    var r := LittleEndian32(v);
    var q1 := v / 256;
    var q2 := q1 / 256;
    assert FromLittleEndian(r[3..]) == q2 / 256;
    assert FromLittleEndian(r[2..]) == q2 by { assert r[2..][1..] == r[3..]; }
    assert FromLittleEndian(r[1..]) == q1 by { assert r[1..][1..] == r[2..]; }
  }

  /** The 2-byte little-endian encoding of a 16-bit value. */
  function LittleEndian16(v: nat): (r: seq<byte>)
    requires v < Two16
    ensures |r| == 2
  {
    [v % 256, v / 256]
  }

  lemma LittleEndian16Decodes(v: nat)
    requires v < Two16
    ensures FromLittleEndian(LittleEndian16(v)) == v
  {
    var r := LittleEndian16(v);
    assert FromLittleEndian(r[1..]) == v / 256;
  }

  /** A colour value 0xRRGGBB: the red byte is bits 16..23 (`byte(c >> 16)`), anything above is dropped. */
  function Red(color: int): byte { (color / 0x1_0000) % 256 }
  function Green(color: int): byte { (color / 256) % 256 }
  function Blue(color: int): byte { color % 256 }

  /** The three channel bytes of a colour, in wire order. */
  function Rgb(color: int): (r: seq<byte>)
    ensures |r| == 3
  {
    [Red(color), Green(color), Blue(color)]
  }

  /** The channel bytes of a 24-bit colour, read back most significant first, are the colour. */
  lemma RgbDecodes(color: int)
    requires 0 <= color < 0x100_0000
    ensures FromBigEndian(Rgb(color)) == color
  {
    var r := Rgb(color);
    assert FromBigEndian(r[..1]) == Red(color);
    assert FromBigEndian(r[..2]) == Red(color) * 256 + Green(color) by { assert r[..2][..1] == r[..1]; }
    assert r[..3] == r;
    assert Red(color) * 256 + Green(color) == color / 256;
  }

  // ---------------------------------------------------------------------
  // Buffers of RGB triples

  /** The three bytes of pixel p in a buffer of triples. */
  function Triple(s: seq<byte>, p: nat): seq<byte>
    requires 3 * p + 3 <= |s|
  {
    s[3 * p..3 * p + 3]
  }

  /**
   * Write the colour's three bytes at pixel num of a buffer of triples, or
   * change nothing when num is outside [0, len/3 - 1].
   */
  function Paint(data: seq<byte>, num: int, color: nat): (r: seq<byte>)
    ensures |r| == |data|
  {
    if num < 0 || num > |data| / 3 - 1 then data
    else data[..3 * num] + Rgb(color) + data[3 * num + 3..]
  }

  /** Paint changes exactly the triple it targets. */
  lemma PaintAt(data: seq<byte>, num: int, color: nat, p: nat)
    requires 3 * p + 3 <= |data|
    ensures Triple(Paint(data, num, color), p) == if p == num then Rgb(color) else Triple(data, p)
  {
    if 0 <= num <= |data| / 3 - 1 {
      var r := Paint(data, num, color);
      forall i | 0 <= i < |data|
        ensures r[i] == if 3 * num <= i < 3 * num + 3 then Rgb(color)[i - 3 * num] else data[i]
      {
      }
      if p == num {
        assert Triple(r, p) == Rgb(color);
      } else {
        assert Triple(r, p) == Triple(data, p);
      }
    }
  }

  /** Paint leaves the bytes after the last whole triple alone. */
  lemma PaintTail(data: seq<byte>, num: int, color: nat)
    ensures Paint(data, num, color)[3 * (|data| / 3)..] == data[3 * (|data| / 3)..]
  {
    if 0 <= num <= |data| / 3 - 1 {
      var r := Paint(data, num, color);
      assert r[3 * num + 3..] == data[3 * num + 3..];
    }
  }

  /** Write the colour's three bytes at pixel num of a buffer of triples, in place. */
  method WriteTriple(a: array<byte>, num: nat, color: nat)
    requires 3 * num + 3 <= a.Length
    modifies a
    ensures a[..] == Paint(old(a[..]), num, color)
  {
    a[num * 3 + 0] := Red(color);
    a[num * 3 + 1] := Green(color);
    a[num * 3 + 2] := Blue(color);
    assert a[..] == old(a[..])[..3 * num] + Rgb(color) + old(a[..])[3 * num + 3..];
  }
}
