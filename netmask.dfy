/**
 * `cidrToMask` of the renderer (renderer.js:444-452): the dotted-decimal
 * subnet mask of a prefix length, built one octet at a time.
 */
module Netmask {
  import opened Text

  /** `Math.pow(2, k)`. */
  function Pow2(k: nat): (p: nat)
    ensures p >= 1
  {
    if k == 0 then 1 else 2 * Pow2(k - 1)
  }

  /** How many prefix bits fall in octet `i`: `Math.min(8, Math.max(0, cidr - i * 8))`. */
  function OctetBits(cidr: int, i: nat): (b: nat)
    ensures b <= 8
  {
    var left := cidr - 8 * i;
    if left <= 0 then 0 else if left >= 8 then 8 else left
  }

  /** The byte whose `b` high-order bits are set and whose other bits are clear. */
  function OnesByte(b: nat): nat
    requires b <= 8
  {
    if b == 0 then 0 else OnesByte(b - 1) + Pow2(8 - b)
  }

  /** The code's formula `256 - 2^(8 - b)` is exactly the byte with `b` leading one bits. */
  lemma {:induction false} OctetFormula(b: nat)
    requires b <= 8
    ensures 256 - Pow2(8 - b) == OnesByte(b)
  {
    if b > 0 {
      OctetFormula(b - 1);
      assert Pow2(8 - (b - 1)) == 2 * Pow2(8 - b);
    }
  }

  /** A byte with more leading ones is at least as large. */
  lemma {:induction false} OnesByteMonotone(a: nat, b: nat)
    requires a <= b <= 8
    ensures OnesByte(a) <= OnesByte(b)
    decreases b - a
  {
    if a < b {
      OnesByteMonotone(a, b - 1);
    }
  }

  /** The four octets of a `/cidr` mask: octet `i` carries the prefix bits that fall in it. */
  function PrefixOctets(cidr: int): (o: seq<nat>)
    ensures |o| == 4
  {
    seq(4, i requires 0 <= i < 4 => OnesByte(OctetBits(cidr, i)))
  }

  /** Numbers joined with dots (`mask.join('.')`). */
  function DottedQuad(octets: seq<nat>): string
    requires |octets| >= 1
  {
    Join(seq(|octets|, i requires 0 <= i < |octets| => NatToString(octets[i])), ".")
  }

  /** A four-octet mask reads `a.b.c.d`. */
  lemma DottedQuadFour(o: seq<nat>)
    requires |o| == 4
    ensures DottedQuad(o)
         == NatToString(o[0]) + "." + NatToString(o[1]) + "." + NatToString(o[2]) + "." + NatToString(o[3])
  {
    var p := seq(4, i requires 0 <= i < 4 => NatToString(o[i]));
    assert Join(p[3..], ".") == p[3];
    assert Join(p[2..], ".") == p[2] + "." + Join(p[3..], ".") by { assert p[2..][1..] == p[3..]; }
    assert Join(p[1..], ".") == p[1] + "." + Join(p[2..], ".") by { assert p[1..][1..] == p[2..]; }
    assert Join(p, ".") == p[0] + "." + Join(p[1..], ".");
  }

  /** What `cidrToMask` returns: a falsy prefix length (0) gives the /24 mask. */
  function MaskText(cidr: int): string {
    if cidr == 0 then "255.255.255.0" else DottedQuad(PrefixOctets(cidr))
  }

  /** `cidrToMask(cidr)`: returns early on 0, otherwise pushes four octets in a loop and joins them. */
  method CidrToMask(cidr: int) returns (mask: string)
    ensures cidr == 0 ==> mask == "255.255.255.0"
    ensures cidr != 0 ==> mask == DottedQuad(PrefixOctets(cidr))
  {
    if cidr == 0 {
      return "255.255.255.0";
    }
    var octets: seq<nat> := [];
    for i := 0 to 4
      invariant |octets| == i
      invariant forall j :: 0 <= j < i ==> octets[j] == OnesByte(OctetBits(cidr, j))
    {
      var bits := if cidr - i * 8 <= 0 then 0 else if cidr - i * 8 >= 8 then 8 else cidr - i * 8;
      OctetFormula(bits);
      octets := octets + [256 - Pow2(8 - bits)];
    }
    assert octets == PrefixOctets(cidr);
    mask := DottedQuad(octets);
  }

  /** The prefix bits are shared out over the octets: together they hold `cidr` bits, clamped to 0..32. */
  lemma PrefixBitsTotal(cidr: int)
    ensures OctetBits(cidr, 0) + OctetBits(cidr, 1) + OctetBits(cidr, 2) + OctetBits(cidr, 3)
         == if cidr <= 0 then 0 else if cidr >= 32 then 32 else cidr
  {
  }

  /** Octets never increase from left to right. */
  lemma PrefixOctetsNonIncreasing(cidr: int, i: nat, j: nat)
    requires i <= j < 4
    ensures PrefixOctets(cidr)[i] >= PrefixOctets(cidr)[j]
  {
    OnesByteMonotone(OctetBits(cidr, j), OctetBits(cidr, i));
  }

  /** Octet `i` is 255 exactly when the prefix covers it, and 0 exactly when the prefix stops before it. */
  lemma PrefixOctetExtremes(cidr: int, i: nat)
    requires i < 4
    ensures PrefixOctets(cidr)[i] == 255 <==> cidr >= 8 * (i + 1)
    ensures PrefixOctets(cidr)[i] == 0 <==> cidr <= 8 * i
  {
    var b := OctetBits(cidr, i);
    OctetFormula(b);
    if b < 8 {
      assert Pow2(8 - b) >= 2 by { assert Pow2(8 - b) == 2 * Pow2(8 - b - 1); }
    }
    if b > 0 {
      assert Pow2(8 - b) <= 128 by { Pow2Bound(8 - b); }
    }
  }

  lemma {:induction false} Pow2Bound(k: nat)
    requires k <= 7
    ensures Pow2(k) <= 128
    decreases 7 - k
  {
    if k < 7 { Pow2Bound(k + 1); }
  }

  /** The decimal texts of the octet values that occur below. */
  lemma OctetTexts()
    ensures NatToString(255) == "255" && NatToString(252) == "252" && NatToString(0) == "0"
  {
    assert NatToString(25) == "25";
  }

  /** /24 gives 255.255.255.0, and so does the falsy prefix length 0. */
  lemma MaskOf24()
    ensures MaskText(24) == "255.255.255.0"
    ensures MaskText(0) == MaskText(24)
  {
    OctetTexts();
    OctetFormula(8);
    OctetFormula(0);
    assert PrefixOctets(24) == [255, 255, 255, 0];
    DottedQuadFour(PrefixOctets(24));
  }

  /** /16 gives 255.255.0.0. */
  lemma MaskOf16()
    ensures MaskText(16) == "255.255.0.0"
  {
    OctetTexts();
    OctetFormula(8);
    OctetFormula(0);
    assert PrefixOctets(16) == [255, 255, 0, 0];
    DottedQuadFour(PrefixOctets(16));
  }

  /** /30 gives 255.255.255.252. */
  lemma MaskOf30()
    ensures MaskText(30) == "255.255.255.252"
  {
    OctetTexts();
    OctetFormula(8);
    OctetFormula(6);
    assert PrefixOctets(30) == [255, 255, 255, 252];
    DottedQuadFour(PrefixOctets(30));
  }
}
