/** Integers on the wire: big-endian, two's complement. */
module Endian {

  type Byte = x: int | 0 <= x < 256 witness 0
  type Bytes = seq<Byte>

  /** 256 to the power `w`. */
  function Base(w: nat): (r: nat)
    ensures r > 0
  {
    if w == 0 then 1 else 256 * Base(w - 1)
  }

  /** The `w` low bytes of `u`, most significant first. */
  function BigEndian(w: nat, u: nat): (r: Bytes)
    ensures |r| == w
  {
    if w == 0 then [] else BigEndian(w - 1, u / 256) + [u % 256]
  }

  /** The `w` low bytes of `u`, least significant first: how a little-endian machine stores `u`. */
  function LittleEndian(w: nat, u: nat): (r: Bytes)
    ensures |r| == w
  {
    if w == 0 then [] else [u % 256] + LittleEndian(w - 1, u / 256)
  }

  /** The number whose big-endian bytes are `bs`. */
  function Value(bs: Bytes): (r: nat)
    ensures r < Base(|bs|)
  {
    if bs == [] then 0 else Value(bs[..|bs| - 1]) * 256 + bs[|bs| - 1]
  }

  /** `byte_order_swap`: byte `n` of the `w` bytes of `u` becomes byte `w - 1 - n`. */
  function Swap(w: nat, u: nat): (r: nat)
    ensures r < Base(w)
  {
    if w == 0 then 0
    else
      var high := u % 256 * Base(w - 1);
      assert high <= 255 * Base(w - 1);
      high + Swap(w - 1, u / 256)
  }

  lemma {:induction false} LittleEndianOfHighByte(w: nat, high: Byte, low: nat)
    requires low < Base(w)
    ensures LittleEndian(w + 1, high * Base(w) + low) == LittleEndian(w, low) + [high]
  {
    var u := high * Base(w) + low;
    if w == 0 {
      assert LittleEndian(1, u) == [u % 256] + LittleEndian(0, u / 256);
    } else {
      var q := high * Base(w - 1) + low / 256;
      assert u == 256 * q + low % 256 by {
        assert high * Base(w) == 256 * (high * Base(w - 1));
      }
      assert u / 256 == q && u % 256 == low % 256;
      LittleEndianOfHighByte(w - 1, high, low / 256);
    }
  }

  /** A swapped integer, stored by a little-endian machine, is the integer in big-endian order. */
  lemma {:induction false} SwapGivesBigEndian(w: nat, u: nat)
    ensures LittleEndian(w, Swap(w, u)) == BigEndian(w, u)
  {
    if w == 0 {
    } else {
      SwapGivesBigEndian(w - 1, u / 256);
      LittleEndianOfHighByte(w - 1, u % 256, Swap(w - 1, u / 256));
    }
  }

  /** The number a little-endian machine sees in `bs`. */
  function LittleValue(bs: Bytes): nat {
    if bs == [] then 0 else bs[0] + 256 * LittleValue(bs[1..])
  }

  lemma {:induction false} ValueFromTheTop(bs: Bytes)
    requires bs != []
    ensures Value(bs) == bs[0] * Base(|bs| - 1) + Value(bs[1..])
  {
    var n := |bs|;
    if n > 1 {
      var middle := bs[1..n - 1];
      ValueFromTheTop(bs[..n - 1]);
      assert bs[..n - 1][1..] == middle && bs[1..][..n - 2] == middle;
      Shifted(bs[0], Base(n - 2), Value(middle));
    }
  }

  lemma Shifted(high: nat, b: nat, low: nat)
    ensures (high * b + low) * 256 == high * (256 * b) + low * 256
  {
  }

  /** Bytes loaded by a little-endian machine and swapped are the big-endian number. */
  lemma {:induction false} SwapReadsBigEndian(bs: Bytes)
    ensures Swap(|bs|, LittleValue(bs)) == Value(bs)
  {
    if bs == [] {
    } else {
      SwapReadsBigEndian(bs[1..]);
      ValueFromTheTop(bs);
      LowByte(bs[0], LittleValue(bs[1..]));
    }
  }

  lemma LowByte(b: Byte, rest: nat)
    ensures (b + 256 * rest) % 256 == b && (b + 256 * rest) / 256 == rest
  {
  }

  lemma {:induction false} ValueOfBigEndian(w: nat, u: nat)
    requires u < Base(w)
    ensures Value(BigEndian(w, u)) == u
  {
    if w == 0 {
    } else {
      ValueOfBigEndian(w - 1, u / 256);
      assert BigEndian(w, u)[..w - 1] == BigEndian(w - 1, u / 256);
    }
  }

  // ---------------------------------------------------------------------------------------
  // Signed integers of `w` bytes.

  predicate Fits(w: nat, x: int) {
    w > 0 && -128 * Base(w - 1) <= x < 128 * Base(w - 1)
  }

  /** `write` of an integer. A value that does not fit is cut to its low bytes. */
  function Encode(w: nat, x: int): (r: Bytes)
    ensures |r| == w
  {
    BigEndian(w, x % Base(w))
  }

  /** `read` of a signed integer. */
  function Decode(bs: Bytes): int
    requires bs != []
  {
    var u := Value(bs);
    if u < 128 * Base(|bs| - 1) then u else u - Base(|bs|)
  }

  lemma SmallResidue(x: int, b: int)
    requires 0 < b && -b <= x < b
    ensures x % b == if x >= 0 then x else if x == -b then 0 else x + b
  {
  }

  lemma DecodeOfBigEndian(w: nat, u: nat)
    requires w > 0 && u < Base(w)
    ensures Decode(BigEndian(w, u)) == if u < 128 * Base(w - 1) then u else u - Base(w)
  {
    ValueOfBigEndian(w, u);
  }

  lemma DecodeEncode(w: nat, x: int)
    requires Fits(w, x)
    ensures Decode(Encode(w, x)) == x
  {
    var b, half := Base(w), 128 * Base(w - 1);
    assert b == 2 * half;
    var u := x % b;
    assert u == if x >= 0 then x else x + b by { SmallResidue(x, b); }
    DecodeOfBigEndian(w, u);
  }

  lemma ValueEncode(w: nat, x: nat)
    requires x < Base(w)
    ensures Value(Encode(w, x)) == x
  {
    var u := x % Base(w);
    assert u == x by { SmallResidue(x, Base(w)); }
    ValueOfBigEndian(w, u);
  }
}
