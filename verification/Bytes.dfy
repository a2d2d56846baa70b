/** Bytes, little-endian numbers and the fixed-width arithmetic of the source. */
module Bytes {

  type byte = x: int | 0 <= x < 256

  const U16_MAX: nat := 0xFFFF
  const U32_MAX: nat := 0xFFFF_FFFF
  const U64_MAX: nat := 0xFFFF_FFFF_FFFF_FFFF

  /** `saturating_add` at the given ceiling. */
  function SatAdd(x: nat, y: nat, max: nat): nat
  {
    if x + y <= max then x + y else max
  }

  /** `wrapping_add` of 64-bit counters. */
  function WrapAdd64(x: nat, y: nat): (r: nat)
    ensures r <= U64_MAX
  {
    (x + y) % (U64_MAX + 1)
  }

  /** `saturating_sub`. */
  function SatSub(x: nat, y: nat): nat
  {
    if y <= x then x - y else 0
  }

  function Max(x: nat, y: nat): nat
  {
    if x < y then y else x
  }

  /** The number a little-endian byte string denotes. */
  function LeNat(bs: seq<byte>): nat
  {
    if bs == [] then 0 else bs[0] + 256 * LeNat(bs[1..])
  }

  function LeEncode(n: nat, width: nat): (bs: seq<byte>)
    ensures |bs| == width
  {
    if width == 0 then [] else [n % 256] + LeEncode(n / 256, width - 1)
  }

  function Pow256(k: nat): (p: nat)
    ensures p > 0
  {
    if k == 0 then 1 else 256 * Pow256(k - 1)
  }

  lemma {:induction false} LeNatBound(bs: seq<byte>)
    ensures LeNat(bs) < Pow256(|bs|)
  {
    if bs != [] {
      LeNatBound(bs[1..]);
    }
  }

  lemma {:induction false} LeRoundTrip(n: nat, width: nat)
    requires n < Pow256(width)
    ensures LeNat(LeEncode(n, width)) == n
  {
    if width != 0 {
      var bs := LeEncode(n, width);
      assert bs[1..] == LeEncode(n / 256, width - 1);
      LeRoundTrip(n / 256, width - 1);
    }
  }

  lemma {:induction false} LeNatRoundTrip(bs: seq<byte>)
    ensures LeNat(bs) < Pow256(|bs|) && LeEncode(LeNat(bs), |bs|) == bs
  {
    LeNatBound(bs);
    if bs != [] {
      LeNatRoundTrip(bs[1..]);
      assert LeNat(bs) / 256 == LeNat(bs[1..]) && LeNat(bs) % 256 == bs[0];
    }
  }

  /** A number whose high bytes are all zero. */
  lemma {:induction false} SmallNumber(bs: seq<byte>)
    requires bs != [] && forall i :: 0 < i < |bs| ==> bs[i] == 0
    ensures LeNat(bs) == bs[0]
    decreases |bs|
  {
    if |bs| > 1 {
      SmallNumber(bs[1..]);
    } else {
      assert bs[1..] == [];
    }
  }

  lemma Widths()
    ensures Pow256(2) == U16_MAX + 1 && Pow256(4) == U32_MAX + 1 && Pow256(8) == U64_MAX + 1
  {
    assert Pow256(2) == 256 * 256;
    assert Pow256(4) == 256 * (256 * Pow256(2));
    assert Pow256(6) == 256 * (256 * Pow256(4));
    assert Pow256(8) == 256 * (256 * Pow256(6));
  }

  datatype Option<+T> = None | Some(value: T)
  {
    function GetOr(default: T): T
    {
      if None? then default else value
    }
  }
}
