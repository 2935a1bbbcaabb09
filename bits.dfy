/** Bits and bit sequences: the values the S-DES lists hold. */
module Bits {

  /** One list element: the cipher only ever stores the integers 0 and 1. */
  type bit = b: int | 0 <= b <= 1

  /** Python's `^` restricted to 0 and 1. */
  function Xor(a: bit, b: bit): (r: bit)
    ensures r == 1 <==> a != b
  {
    if a == b then 0 else 1
  }

  /** Position-wise XOR over the first |a| positions of b,
      the comprehension `[x ^ b[i] for i, x in enumerate(a)]`. */
  function XorSeq(a: seq<bit>, b: seq<bit>): (r: seq<bit>)
    requires |a| <= |b|
    ensures |r| == |a|
    ensures forall i :: 0 <= i < |a| ==> (r[i] == 1 <==> a[i] != b[i])
  {
    seq(|a|, i requires 0 <= i < |a| => Xor(a[i], b[i]))
  }

  /** XOR with the same mask twice gives back the original half: (L ⊕ F) ⊕ F = L. */
  lemma XorSeqCancel(a: seq<bit>, b: seq<bit>)
    requires |a| <= |b|
    ensures XorSeq(XorSeq(a, b), b) == a
  {
    var once := XorSeq(a, b);
    var twice := XorSeq(once, b);
    forall i | 0 <= i < |a|
      ensures twice[i] == a[i]
    {
      assert once[i] == 1 <==> a[i] != b[i];
      assert twice[i] == 1 <==> once[i] != b[i];
    }
  }

  /** The value of a two-bit list read most-significant bit first. */
  function FromBits2(s: seq<bit>): (v: int)
    requires |s| == 2
    ensures 0 <= v <= 3
  {
    2 * (s[0] as int) + (s[1] as int)
  }

  /** The two-character binary rendering `f"{v:02b}"` read back as integers,
      most-significant bit first. */
  function ToBits2(v: int): (s: seq<bit>)
    requires 0 <= v <= 3
    ensures |s| == 2
    ensures FromBits2(s) == v
  {
    [v / 2, v % 2]
  }

  /** Two-bit encoding is a bijection between 0..3 and the two-bit lists. */
  lemma ToBitsFromBits2(s: seq<bit>)
    requires |s| == 2
    ensures ToBits2(FromBits2(s)) == s
  {
    var v := FromBits2(s);
    assert v / 2 == s[0] && v % 2 == s[1];
  }
}
