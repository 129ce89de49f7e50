/** Bytes and big-endian numerals. */
module Bytes {

  type byte = b: int | 0 <= b < 256

  // 256 to the power `n`.
  function Pow256(n: nat): (r: nat)
    ensures r > 0
  {
    if n == 0 then 1 else 256 * Pow256(n - 1)
  }

  const U64_LIMIT := 0x1_0000_0000_0000_0000
  const U256_LIMIT := 0x1_0000000000000000_0000000000000000_0000000000000000_0000000000000000

  lemma Limits()
    ensures Pow256(8) == U64_LIMIT && Pow256(32) == U256_LIMIT
  {
    assert Pow256(8) == U64_LIMIT;
    assert Pow256(16) == 0x1_0000000000000000_0000000000000000;
    assert Pow256(24) == 0x1_0000000000000000_0000000000000000_0000000000000000;
  }

  // Value of a big-endian numeral; the empty one is 0.
  function FromBigEndian(bs: seq<byte>): nat {
    if bs == [] then 0 else 256 * FromBigEndian(bs[..|bs| - 1]) + bs[|bs| - 1]
  }

  // The `width` low-order bytes of `n`, most significant first.
  function ToBigEndian(n: nat, width: nat): (r: seq<byte>)
    ensures |r| == width
  {
    if width == 0 then [] else ToBigEndian(n / 256, width - 1) + [n % 256]
  }

  lemma {:induction false} FromBigEndianBound(bs: seq<byte>)
    ensures FromBigEndian(bs) < Pow256(|bs|)
  {
    if bs != [] {
      FromBigEndianBound(bs[..|bs| - 1]);
    }
  }

  /** Fixed-width numerals: the two directions of the round trip. */
  lemma {:induction false} FixedWidthValue(n: nat, width: nat)
    requires n < Pow256(width)
    ensures FromBigEndian(ToBigEndian(n, width)) == n
  {
    if width > 0 {
      var r := ToBigEndian(n, width);
      assert r[..|r| - 1] == ToBigEndian(n / 256, width - 1);
      FixedWidthValue(n / 256, width - 1);
    }
  }

  lemma {:induction false} FixedWidthNumeral(bs: seq<byte>)
    ensures ToBigEndian(FromBigEndian(bs), |bs|) == bs
  {
    if bs != [] {
      FixedWidthNumeral(bs[..|bs| - 1]);
      assert bs == bs[..|bs| - 1] + [bs[|bs| - 1]];
    }
  }

  lemma {:induction false} Pow256Monotone(a: nat, b: nat)
    requires a <= b
    ensures Pow256(a) <= Pow256(b)
  {
    if a < b {
      Pow256Monotone(a, b - 1);
    }
  }

  lemma LastDigit(front: seq<byte>, last: byte)
    ensures FromBigEndian(front + [last]) == 256 * FromBigEndian(front) + last
  {
    assert (front + [last])[..|front|] == front;
  }

  lemma TimesBase(b: int, p: int)
    ensures 256 * (b * p) == b * (256 * p)
  {
  }

  // Splitting off the leading byte instead of the last one.
  lemma {:induction false} LeadingByte(bs: seq<byte>)
    requires bs != []
    ensures FromBigEndian(bs) == bs[0] * Pow256(|bs| - 1) + FromBigEndian(bs[1..])
  {
    if |bs| == 1 {
      assert bs[1..] == [] && bs[..0] == [];
    } else {
      var front, last := bs[..|bs| - 1], bs[|bs| - 1];
      LeadingByte(front);
      LastDigit(front[1..], last);
      assert bs[1..] == front[1..] + [last];
      TimesBase(bs[0], Pow256(|front| - 1));
    }
  }

  // ---- minimal numerals, as length prefixes use them ------------------------

  // BE(n) of the Yellow Paper, Appendix B: no leading zero; BE(0) is empty.
  function MinimalBigEndian(n: nat): (r: seq<byte>)
    ensures n > 0 ==> r != [] && r[0] != 0
    ensures n == 0 ==> r == []
  {
    if n == 0 then [] else MinimalBigEndian(n / 256) + [n % 256]
  }

  predicate IsMinimal(bs: seq<byte>) {
    bs != [] ==> bs[0] != 0
  }

  lemma {:induction false} MinimalValue(n: nat)
    ensures FromBigEndian(MinimalBigEndian(n)) == n
  {
    if n > 0 {
      MinimalValue(n / 256);
      var r := MinimalBigEndian(n);
      assert r[..|r| - 1] == MinimalBigEndian(n / 256);
    }
  }

  lemma {:induction false} MinimalNumeral(bs: seq<byte>)
    requires IsMinimal(bs)
    ensures MinimalBigEndian(FromBigEndian(bs)) == bs
    ensures bs != [] ==> FromBigEndian(bs) > 0
  {
    if bs != [] {
      var front := bs[..|bs| - 1];
      MinimalNumeral(front);
      assert bs == front + [bs[|bs| - 1]];
      if front == [] {
        assert MinimalBigEndian(bs[0]) == MinimalBigEndian(0) + [bs[0]];
      }
    }
  }

  lemma {:induction false} MinimalLength(n: nat, width: nat)
    ensures n < Pow256(width) <==> |MinimalBigEndian(n)| <= width
  {
    if n > 0 {
      if width > 0 {
        MinimalLength(n / 256, width - 1);
      }
    }
  }

  lemma {:induction false} MinimalLengthMonotone(a: nat, b: nat)
    requires a <= b
    ensures |MinimalBigEndian(a)| <= |MinimalBigEndian(b)|
  {
    MinimalLength(a, |MinimalBigEndian(b)|);
    MinimalLength(b, |MinimalBigEndian(b)|);
  }
}
