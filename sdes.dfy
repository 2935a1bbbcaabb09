/** Simplified DES: an 8-bit block cipher under a 10-bit key, built from
    table permutations, circular shifts, two 4x4 S-boxes and two Feistel rounds.
    Every operation is a pure function over lists of bits. */
module SDes {
  import opened Bits

  // ---------------------------------------------------------------------------
  // Bit permutation / selection
  // ---------------------------------------------------------------------------

  /** Every entry of `table` names a position of an n-element list. */
  predicate ValidTable(table: seq<int>, n: int) {
    forall i :: 0 <= i < |table| ==> 0 <= table[i] < n
  }

  /** Output position i takes input position table[i]; entries may repeat
      (a selection or expansion) and the output is as long as the table. */
  function Permute(bits: seq<bit>, table: seq<int>): (r: seq<bit>)
    requires ValidTable(table, |bits|)
    ensures |r| == |table|
    ensures forall i :: 0 <= i < |table| ==> r[i] == bits[table[i]]
  {
    seq(|table|, i requires 0 <= i < |table| => bits[table[i]])
  }

  /** The table that selects `inner` first and then `outer`. */
  function ComposeTables(inner: seq<int>, outer: seq<int>): (t: seq<int>)
    requires ValidTable(outer, |inner|)
    ensures |t| == |outer|
  {
    seq(|outer|, i requires 0 <= i < |outer| => inner[outer[i]])
  }

  /** The identity table [0, 1, ..., n-1]. */
  function IdentityTable(n: nat): (t: seq<int>)
    ensures |t| == n && ValidTable(t, n)
  {
    seq(n, i requires 0 <= i < n => i)
  }

  /** Two permutations applied one after the other are the permutation by the
      composed table. */
  lemma PermuteCompose(bits: seq<bit>, inner: seq<int>, outer: seq<int>)
    requires ValidTable(inner, |bits|) && ValidTable(outer, |inner|)
    ensures ValidTable(ComposeTables(inner, outer), |bits|)
    ensures Permute(Permute(bits, inner), outer) == Permute(bits, ComposeTables(inner, outer))
  {
    var t := ComposeTables(inner, outer);
    forall i | 0 <= i < |t|
      ensures 0 <= t[i] < |bits|
    {
      assert t[i] == inner[outer[i]];
    }
    var lhs := Permute(Permute(bits, inner), outer);
    var rhs := Permute(bits, t);
    forall i | 0 <= i < |outer|
      ensures lhs[i] == rhs[i]
    {
      assert t[i] == inner[outer[i]];
    }
  }

  /** Permuting by the identity table changes nothing. */
  lemma PermuteIdentity(bits: seq<bit>)
    ensures Permute(bits, IdentityTable(|bits|)) == bits
  {
    var r := Permute(bits, IdentityTable(|bits|));
    forall i | 0 <= i < |bits|
      ensures r[i] == bits[i]
    {
      assert IdentityTable(|bits|)[i] == i;
    }
  }

  // ---------------------------------------------------------------------------
  // Circular left shift
  // ---------------------------------------------------------------------------

  /** `bits[d:] + bits[:d]` with Python's slicing: a left rotation by d when
      d is at most the length, and the list unchanged when d is larger. */
  function RotateLeft(bits: seq<bit>, d: nat): (r: seq<bit>)
    ensures |r| == |bits|
    ensures d >= |bits| ==> r == bits
  {
    if d <= |bits| then bits[d..] + bits[..d] else bits
  }

  /** For a shift of at most the length, output position i holds input
      position (i + d) mod n: a circular left shift by d. */
  lemma RotateLeftIndex(bits: seq<bit>, d: nat)
    requires d <= |bits|
    ensures forall i :: 0 <= i < |bits| ==> RotateLeft(bits, d)[i] == bits[(i + d) % |bits|]
  {
    forall i | 0 <= i < |bits|
      ensures RotateLeft(bits, d)[i] == bits[(i + d) % |bits|]
    {
      RotatedIndex(bits, d, i);
    }
  }

  /** Position i of `bits[d..] + bits[..d]` holds input position (i + d) mod n. */
  lemma RotatedIndex(bits: seq<bit>, d: nat, i: nat)
    requires d <= |bits| && i < |bits|
    ensures (bits[d..] + bits[..d])[i] == bits[(i + d) % |bits|]
  {
    var n := |bits|;
    if i + d < n {
      ModOfSmall(i + d, n);
    } else {
      ModOfSmall(i + d - n, n);
      assert (i + d) % n == (i + d - n) % n;
    }
  }

  /** A remainder below the modulus is the number itself. */
  lemma ModOfSmall(x: int, n: int)
    requires 0 <= x < n
    ensures x % n == x
  {
  }

  /** Rotating by a and then by b is rotating by a + b, as long as the total
      does not exceed the length. */
  lemma RotateLeftTwice(bits: seq<bit>, a: nat, b: nat)
    requires a + b <= |bits|
    ensures RotateLeft(RotateLeft(bits, a), b) == RotateLeft(bits, a + b)
  {
    var once := bits[a..] + bits[..a];
    assert RotateLeft(bits, a) == once;
    assert once[b..] == bits[a + b..] + bits[..a];
    assert once[..b] == bits[a..a + b];
    assert bits[..a] + bits[a..a + b] == bits[..a + b];
  }

  // ---------------------------------------------------------------------------
  // Key schedule
  // ---------------------------------------------------------------------------

  const P10: seq<int> := [2, 5, 7, 6, 3, 9, 0, 8, 1, 4]
  const P8: seq<int> := [5, 8, 6, 3, 7, 9, 4, 2]

  /** Where each bit of K1 comes from in the master key (P10, both halves
      rotated by 1, then P8, folded into one table). */
  const K1FromKey: seq<int> := [0, 4, 8, 3, 1, 9, 2, 6]
  /** Where each bit of K2 comes from in the master key (P10, both halves
      rotated by 3 in all, then P8, folded into one table). */
  const K2FromKey: seq<int> := [1, 0, 4, 5, 9, 8, 7, 2]

  /** The two round subkeys (K1, K2) of a 10-bit key. */
  function GenerateSubkeys(key: seq<bit>): (ks: (seq<bit>, seq<bit>))
    requires |key| == 10
    ensures |ks.0| == 8 && |ks.1| == 8
    ensures ks.0 == Permute(key, K1FromKey)
    ensures ks.1 == Permute(key, K2FromKey)
  {
    var p := Permute(key, P10);
    var left1, right1 := RotateLeft(p[..5], 1), RotateLeft(p[5..], 1);
    var k1 := Permute(left1 + right1, P8);
    var left2, right2 := RotateLeft(left1, 2), RotateLeft(right1, 2);
    var k2 := Permute(left2 + right2, P8);
    SubkeyBits(key);
    (k1, k2)
  }

  /** The bit-for-bit wiring behind GenerateSubkeys. */
  lemma SubkeyBits(key: seq<bit>)
    requires |key| == 10
    ensures var p := Permute(key, P10);
            var left1, right1 := RotateLeft(p[..5], 1), RotateLeft(p[5..], 1);
            var left2, right2 := RotateLeft(left1, 2), RotateLeft(right1, 2);
            && Permute(left1 + right1, P8) == Permute(key, K1FromKey)
            && Permute(left2 + right2, P8) == Permute(key, K2FromKey)
  {
    P10Bits(key);
    var p := Permute(key, P10);
    var h1, h2 := p[..5], p[5..];
    assert h1 == [key[2], key[5], key[7], key[6], key[3]];
    assert h2 == [key[9], key[0], key[8], key[1], key[4]];
    RotateFiveByOne(h1);
    RotateFiveByOne(h2);
    var left1, right1 := RotateLeft(h1, 1), RotateLeft(h2, 1);
    var c1 := left1 + right1;
    assert c1 == [key[5], key[7], key[6], key[3], key[2], key[0], key[8], key[1], key[4], key[9]];
    RotateFiveByTwo(left1);
    RotateFiveByTwo(right1);
    var left2, right2 := RotateLeft(left1, 2), RotateLeft(right1, 2);
    var c2 := left2 + right2;
    assert c2 == [key[6], key[3], key[2], key[5], key[7], key[1], key[4], key[9], key[0], key[8]];
    P8Bits(c1);
    P8Bits(c2);
    FoldedBits(key);
  }

  /** P10 spelled out on a symbolic key. */
  lemma P10Bits(key: seq<bit>)
    requires |key| == 10
    ensures Permute(key, P10) == [key[2], key[5], key[7], key[6], key[3], key[9], key[0], key[8], key[1], key[4]]
  {
  }

  /** P8 spelled out on a symbolic 10-bit list. */
  lemma P8Bits(c: seq<bit>)
    requires |c| == 10
    ensures Permute(c, P8) == [c[5], c[8], c[6], c[3], c[7], c[9], c[4], c[2]]
  {
  }

  /** The folded subkey tables spelled out on a symbolic key. */
  lemma FoldedBits(key: seq<bit>)
    requires |key| == 10
    ensures Permute(key, K1FromKey) == [key[0], key[4], key[8], key[3], key[1], key[9], key[2], key[6]]
    ensures Permute(key, K2FromKey) == [key[1], key[0], key[4], key[5], key[9], key[8], key[7], key[2]]
  {
  }

  /** A 5-bit half rotated left by one, element by element. */
  lemma RotateFiveByOne(h: seq<bit>)
    requires |h| == 5
    ensures RotateLeft(h, 1) == [h[1], h[2], h[3], h[4], h[0]]
  {
    assert RotateLeft(h, 1) == h[1..] + h[..1];
  }

  /** A 5-bit half rotated left by two, element by element. */
  lemma RotateFiveByTwo(h: seq<bit>)
    requires |h| == 5
    ensures RotateLeft(h, 2) == [h[2], h[3], h[4], h[0], h[1]]
  {
    assert RotateLeft(h, 2) == h[2..] + h[..2];
  }

  /** Both subkeys come from the same P10 output; K2's halves are rotated by
      3 in total (1 for K1, then 2 more), not by 2 from scratch. */
  lemma SubkeysFromSharedP10(key: seq<bit>)
    requires |key| == 10
    ensures var p := Permute(key, P10);
            && GenerateSubkeys(key).0 == Permute(RotateLeft(p[..5], 1) + RotateLeft(p[5..], 1), P8)
            && GenerateSubkeys(key).1 == Permute(RotateLeft(p[..5], 3) + RotateLeft(p[5..], 3), P8)
  {
    var p := Permute(key, P10);
    RotateLeftTwice(p[..5], 1, 2);
    RotateLeftTwice(p[5..], 1, 2);
  }

  // ---------------------------------------------------------------------------
  // S-boxes
  // ---------------------------------------------------------------------------

  const S0: seq<seq<int>> := [[1, 0, 3, 2],
                              [3, 2, 1, 0],
                              [0, 2, 1, 3],
                              [3, 1, 3, 2]]

  const S1: seq<seq<int>> := [[0, 1, 2, 3],
                              [2, 0, 1, 3],
                              [3, 0, 1, 0],
                              [2, 1, 0, 3]]

  /** A 4x4 table of two-bit values. */
  predicate ValidSBox(box: seq<seq<int>>) {
    && |box| == 4
    && (forall row :: 0 <= row < 4 ==> |box[row]| == 4)
    && (forall row, col :: 0 <= row < 4 && 0 <= col < 4 ==> 0 <= box[row][col] <= 3)
  }

  /** Both hard-coded S-boxes are 4x4 with every entry in 0..3. */
  lemma SBoxesValid()
    ensures ValidSBox(S0) && ValidSBox(S1)
  {
  }

  /** Row (b0, b3) and column (b1, b2) of the S-box address; for bits,
      `(x << 1) | y` is 2x + y. */
  function SBoxRow(b: seq<bit>): (row: int)
    requires |b| == 4
    ensures 0 <= row <= 3
  {
    2 * (b[0] as int) + (b[3] as int)
  }

  function SBoxColumn(b: seq<bit>): (col: int)
    requires |b| == 4
    ensures 0 <= col <= 3
  {
    2 * (b[1] as int) + (b[2] as int)
  }

  /** Looks up four input bits in an S-box and returns the entry as two bits,
      most-significant first. */
  function ApplySBox(input: seq<bit>, box: seq<seq<int>>): (r: seq<bit>)
    requires |input| == 4 && ValidSBox(box)
    ensures |r| == 2
    ensures FromBits2(r) == box[2 * (input[0] as int) + (input[3] as int)][2 * (input[1] as int) + (input[2] as int)]
  {
    ToBits2(box[SBoxRow(input)][SBoxColumn(input)])
  }

  // ---------------------------------------------------------------------------
  // Feistel round function
  // ---------------------------------------------------------------------------

  const EP: seq<int> := [3, 0, 1, 2, 1, 2, 3, 0]
  const P4: seq<int> := [1, 3, 2, 0]

  /** EP spelled out on a symbolic 4-bit half: every input bit appears twice. */
  lemma EPBits(right: seq<bit>)
    requires |right| == 4
    ensures Permute(right, EP) == [right[3], right[0], right[1], right[2], right[1], right[2], right[3], right[0]]
  {
  }

  /** P4 spelled out on a symbolic 4-bit list. */
  lemma P4Bits(s: seq<bit>)
    requires |s| == 4
    ensures Permute(s, P4) == [s[1], s[3], s[2], s[0]]
  {
  }

  /** The round function F of a 4-bit half under an 8-bit subkey:
      expand, XOR with the subkey, S0 on the left nibble and S1 on the right,
      then P4. */
  function Feistel(right: seq<bit>, subkey: seq<bit>): (r: seq<bit>)
    requires |right| == 4 && |subkey| == 8
    ensures |r| == 4
    ensures r == FeistelByBits(right, subkey)
  {
    var expanded := Permute(right, EP);
    var mixed := XorSeq(expanded, subkey);
    var leftOut := ApplySBox(mixed[..4], S0);
    var rightOut := ApplySBox(mixed[4..], S1);
    FeistelWiring(right, subkey);
    Permute(leftOut + rightOut, P4)
  }

  /** The steps of F, one table at a time, agree with the bit-level form. */
  lemma FeistelWiring(right: seq<bit>, subkey: seq<bit>)
    requires |right| == 4 && |subkey| == 8
    ensures var mixed := XorSeq(Permute(right, EP), subkey);
            Permute(ApplySBox(mixed[..4], S0) + ApplySBox(mixed[4..], S1), P4) == FeistelByBits(right, subkey)
  {
    var mixed := XorSeq(Permute(right, EP), subkey);
    ExpandedBits(right, subkey);
    var lo, hi := ApplySBox(mixed[..4], S0), ApplySBox(mixed[4..], S1);
    P4Bits(lo + hi);
    assert lo == ToBits2(S0[SBoxRow(mixed[..4])][SBoxColumn(mixed[..4])]);
    assert hi == ToBits2(S1[SBoxRow(mixed[4..])][SBoxColumn(mixed[4..])]);
  }

  /** EP followed by the XOR with the subkey, bit by bit. */
  lemma ExpandedBits(right: seq<bit>, k: seq<bit>)
    requires |right| == 4 && |k| == 8
    ensures XorSeq(Permute(right, EP), k)
              == [Xor(right[3], k[0]), Xor(right[0], k[1]), Xor(right[1], k[2]), Xor(right[2], k[3]),
                  Xor(right[1], k[4]), Xor(right[2], k[5]), Xor(right[3], k[6]), Xor(right[0], k[7])]
  {
    EPBits(right);
  }

  /** F written out bit by bit: which input and subkey bits address each
      S-box, and where each output bit of the S-boxes lands. */
  function FeistelByBits(right: seq<bit>, k: seq<bit>): (r: seq<bit>)
    requires |right| == 4 && |k| == 8
    ensures |r| == 4
  {
    var x0, x1, x2, x3 := Xor(right[3], k[0]), Xor(right[0], k[1]), Xor(right[1], k[2]), Xor(right[2], k[3]);
    var x4, x5, x6, x7 := Xor(right[1], k[4]), Xor(right[2], k[5]), Xor(right[3], k[6]), Xor(right[0], k[7]);
    var v0 := S0[2 * (x0 as int) + (x3 as int)][2 * (x1 as int) + (x2 as int)];
    var v1 := S1[2 * (x4 as int) + (x7 as int)][2 * (x5 as int) + (x6 as int)];
    [v0 % 2, v1 % 2, v1 / 2, v0 / 2]
  }

  // ---------------------------------------------------------------------------
  // Block cipher driver
  // ---------------------------------------------------------------------------

  const IP: seq<int> := [1, 5, 2, 0, 3, 7, 4, 6]
  const IPInv: seq<int> := [3, 0, 2, 4, 6, 1, 7, 5]

  /** The subkeys used in round 1 and in round 2: K1 then K2 unless the mode
      is exactly "D". */
  function RoundKeys(key: seq<bit>, mode: string): (p: (seq<bit>, seq<bit>))
    requires |key| == 10
    ensures |p.0| == 8 && |p.1| == 8
    ensures mode == "D" ==> p == (Permute(key, K2FromKey), Permute(key, K1FromKey))
    ensures mode != "D" ==> p == (Permute(key, K1FromKey), Permute(key, K2FromKey))
  {
    var ks := GenerateSubkeys(key);
    if mode == "D" then (ks.1, ks.0) else ks
  }

  /** Encrypts (mode other than "D") or decrypts (mode "D") one 8-bit block. */
  function EncryptDecrypt(data: seq<bit>, key: seq<bit>, mode: string := "E"): (r: seq<bit>)
    requires |data| == 8 && |key| == 10
    ensures |r| == 8
  {
    var (first, second) := RoundKeys(key, mode);
    var d := Permute(data, IP);
    var left0, right0 := d[..4], d[4..];
    // round 1, then the halves swap
    var left1 := XorSeq(left0, Feistel(right0, first));
    var left2, right2 := right0, left1;
    // round 2, no swap afterwards
    var left3 := XorSeq(left2, Feistel(right2, second));
    Permute(left3 + right2, IPInv)
  }

  /** IP and IP⁻¹ spelled out on a symbolic 8-bit block. */
  lemma IPBits(x: seq<bit>)
    requires |x| == 8
    ensures Permute(x, IP) == [x[1], x[5], x[2], x[0], x[3], x[7], x[4], x[6]]
    ensures Permute(x, IPInv) == [x[3], x[0], x[2], x[4], x[6], x[1], x[7], x[5]]
  {
  }

  /** IP⁻¹ undoes IP and IP undoes IP⁻¹ on every 8-bit list. */
  lemma InitialPermutationInverse(x: seq<bit>)
    requires |x| == 8
    ensures Permute(Permute(x, IP), IPInv) == x
    ensures Permute(Permute(x, IPInv), IP) == x
  {
    PermuteCompose(x, IP, IPInv);
    assert ComposeTables(IP, IPInv) == IdentityTable(8);
    PermuteCompose(x, IPInv, IP);
    assert ComposeTables(IPInv, IP) == IdentityTable(8);
    PermuteIdentity(x);
  }

  /** The mixing step f_K of one round: the left half absorbs F of the right
      half, the right half passes through. */
  function MixRound(block: seq<bit>, k: seq<bit>): (r: seq<bit>)
    requires |block| == 8 && |k| == 8
    ensures |r| == 8 && r[4..] == block[4..]
    ensures r[..4] == XorSeq(block[..4], Feistel(block[4..], k))
  {
    XorSeq(block[..4], Feistel(block[4..], k)) + block[4..]
  }

  /** Exchanging the two 4-bit halves. */
  function SwapHalves(block: seq<bit>): (r: seq<bit>)
    requires |block| == 8
    ensures |r| == 8 && r[..4] == block[4..] && r[4..] == block[..4]
  {
    block[4..] + block[..4]
  }

  /** The mixing step undoes itself under the same subkey. */
  lemma MixRoundInvolution(block: seq<bit>, k: seq<bit>)
    requires |block| == 8 && |k| == 8
    ensures MixRound(MixRound(block, k), k) == block
  {
    var once := MixRound(block, k);
    assert once[..4] == XorSeq(block[..4], Feistel(block[4..], k));
    XorSeqCancel(block[..4], Feistel(block[4..], k));
    assert block[..4] + block[4..] == block;
  }

  /** Swapping the halves twice changes nothing. */
  lemma SwapHalvesInvolution(block: seq<bit>)
    requires |block| == 8
    ensures SwapHalves(SwapHalves(block)) == block
  {
    assert block[..4] + block[4..] == block;
  }

  /** The textbook form of the cipher, IP⁻¹ ∘ f_second ∘ SW ∘ f_first ∘ IP:
      exactly one swap, between the two rounds. */
  function Composition(block: seq<bit>, first: seq<bit>, second: seq<bit>): (r: seq<bit>)
    requires |block| == 8 && |first| == 8 && |second| == 8
    ensures |r| == 8
  {
    Permute(MixRound(SwapHalves(MixRound(Permute(block, IP), first)), second), IPInv)
  }

  /** The driver is the textbook composition under the round keys its mode
      selects: no extra swap after round 2. */
  lemma EncryptDecryptStructure(data: seq<bit>, key: seq<bit>, mode: string)
    requires |data| == 8 && |key| == 10
    ensures EncryptDecrypt(data, key, mode)
              == Composition(data, RoundKeys(key, mode).0, RoundKeys(key, mode).1)
  {
    var (first, second) := RoundKeys(key, mode);
    var d := Permute(data, IP);
    var left1 := XorSeq(d[..4], Feistel(d[4..], first));
    MixRoundOfHalves(d[..4], d[4..], first);
    assert d[..4] + d[4..] == d;
    SwapHalvesOfHalves(left1, d[4..]);
    MixRoundOfHalves(d[4..], left1, second);
  }

  /** MixRound on a block given as its two halves. */
  lemma MixRoundOfHalves(left: seq<bit>, right: seq<bit>, k: seq<bit>)
    requires |left| == 4 && |right| == 4 && |k| == 8
    ensures MixRound(left + right, k) == XorSeq(left, Feistel(right, k)) + right
  {
    assert (left + right)[..4] == left && (left + right)[4..] == right;
  }

  /** SwapHalves on a block given as its two halves. */
  lemma SwapHalvesOfHalves(left: seq<bit>, right: seq<bit>)
    requires |left| == 4 && |right| == 4
    ensures SwapHalves(left + right) == right + left
  {
    assert (left + right)[..4] == left && (left + right)[4..] == right;
  }

  /** Only the exact mode "D" decrypts; every other mode value encrypts. */
  lemma OtherModesEncrypt(data: seq<bit>, key: seq<bit>, mode: string)
    requires |data| == 8 && |key| == 10 && mode != "D"
    ensures EncryptDecrypt(data, key, mode) == EncryptDecrypt(data, key, "E")
  {
  }

  /** Running the composition with the subkeys in the opposite order undoes it. */
  lemma {:induction false} CompositionInverse(block: seq<bit>, first: seq<bit>, second: seq<bit>)
    requires |block| == 8 && |first| == 8 && |second| == 8
    ensures Composition(Composition(block, first, second), second, first) == block
  {
    var p := Permute(block, IP);
    var m1 := MixRound(p, first);
    var s := SwapHalves(m1);
    var m2 := MixRound(s, second);
    InitialPermutationInverse(m2);
    MixRoundInvolution(s, second);
    SwapHalvesInvolution(m1);
    MixRoundInvolution(p, first);
    InitialPermutationInverse(block);
  }

  /** Decrypting under the key undoes encrypting under it, for every 8-bit
      block and every 10-bit key. */
  lemma {:induction false} DecryptEncrypt(block: seq<bit>, key: seq<bit>)
    requires |block| == 8 && |key| == 10
    ensures EncryptDecrypt(EncryptDecrypt(block, key, "E"), key, "D") == block
  {
    var c := EncryptDecrypt(block, key, "E");
    EncryptDecryptStructure(block, key, "E");
    EncryptDecryptStructure(c, key, "D");
    CompositionInverse(block, GenerateSubkeys(key).0, GenerateSubkeys(key).1);
  }

  /** Encrypting under the key also undoes decrypting under it. */
  lemma {:induction false} EncryptDecryptInverse(block: seq<bit>, key: seq<bit>)
    requires |block| == 8 && |key| == 10
    ensures EncryptDecrypt(EncryptDecrypt(block, key, "D"), key, "E") == block
  {
    var p := EncryptDecrypt(block, key, "D");
    EncryptDecryptStructure(block, key, "D");
    EncryptDecryptStructure(p, key, "E");
    CompositionInverse(block, GenerateSubkeys(key).1, GenerateSubkeys(key).0);
  }

  // ---------------------------------------------------------------------------
  // Fixed vectors
  // ---------------------------------------------------------------------------

  /** The demonstration key and block: the ciphertext, and its decryption
      back to the block. */
  lemma DemonstrationVector(block: seq<bit>, key: seq<bit>)
    requires block == [1, 0, 0, 1, 0, 1, 1, 1] && key == [1, 0, 1, 0, 0, 0, 0, 0, 1, 0]
    ensures EncryptDecrypt(block, key, "E") == [0, 1, 1, 1, 1, 0, 0, 1]
    ensures EncryptDecrypt(EncryptDecrypt(block, key, "E"), key, "D") == block
    ensures EncryptDecrypt(block, key) == EncryptDecrypt(block, key, "E")
    ensures GenerateSubkeys(key).0 != GenerateSubkeys(key).1
  {
    var k1: seq<bit>, k2: seq<bit> := [1, 0, 1, 0, 0, 0, 1, 0], [0, 1, 0, 0, 0, 1, 0, 1];
    var p: seq<bit> := [0, 1, 0, 1, 1, 1, 0, 1];
    var f1: seq<bit>, l1: seq<bit> := [1, 0, 1, 1], [1, 1, 1, 0];
    var f2: seq<bit>, l2: seq<bit> := [0, 1, 1, 1], [1, 0, 1, 0];
    DemonstrationSubkeys(key);
    assert RoundKeys(key, "E") == (k1, k2);
    EncryptDecryptStructure(block, key, "E");
    DemonstrationRound1(block, k1, p, f1, l1);
    DemonstrationRound2(p, l1, k2, f2, l2);
    DemonstrationOutput(l2, l1);
    CompositionVector(block, k1, k2, p, f1, l1, f2, l2);
    DecryptEncrypt(block, key);
  }

  /** The demonstration key's subkeys, which differ from each other. */
  lemma DemonstrationSubkeys(key: seq<bit>)
    requires key == [1, 0, 1, 0, 0, 0, 0, 0, 1, 0]
    ensures GenerateSubkeys(key) == ([1, 0, 1, 0, 0, 0, 1, 0], [0, 1, 0, 0, 0, 1, 0, 1])
    ensures GenerateSubkeys(key).0 != GenerateSubkeys(key).1
  {
    FoldedBits(key);
    assert GenerateSubkeys(key).0[0] != GenerateSubkeys(key).1[0];
  }

  // The demonstration lemmas below take the vector's values as parameters fixed by
  // `requires x == [...]` rather than as inline literals, which keeps the solver from
  // unfolding every function applied to a literal argument.

  /** Round 1 of the demonstration vector: IP, F under K1, the new half. */
  lemma DemonstrationRound1(block: seq<bit>, k1: seq<bit>, p: seq<bit>, f1: seq<bit>, l1: seq<bit>)
    requires block == [1, 0, 0, 1, 0, 1, 1, 1] && k1 == [1, 0, 1, 0, 0, 0, 1, 0]
    requires p == [0, 1, 0, 1, 1, 1, 0, 1] && f1 == [1, 0, 1, 1] && l1 == [1, 1, 1, 0]
    ensures Permute(block, IP) == p && Feistel(p[4..], k1) == f1 && XorSeq(p[..4], f1) == l1
  {
    assert Permute(block, IP) == p;
    assert FeistelByBits(p[4..], k1) == f1;
  }

  /** Round 2 of the demonstration vector: F under K2 and the new half. */
  lemma DemonstrationRound2(p: seq<bit>, l1: seq<bit>, k2: seq<bit>, f2: seq<bit>, l2: seq<bit>)
    requires p == [0, 1, 0, 1, 1, 1, 0, 1] && l1 == [1, 1, 1, 0] && k2 == [0, 1, 0, 0, 0, 1, 0, 1]
    requires f2 == [0, 1, 1, 1] && l2 == [1, 0, 1, 0]
    ensures Feistel(l1, k2) == f2 && XorSeq(p[4..], f2) == l2
  {
    assert FeistelByBits(l1, k2) == f2;
  }

  /** IP⁻¹ on the demonstration vector's final halves gives the ciphertext. */
  lemma DemonstrationOutput(l2: seq<bit>, l1: seq<bit>)
    requires l2 == [1, 0, 1, 0] && l1 == [1, 1, 1, 0]
    ensures Permute(l2 + l1, IPInv) == [0, 1, 1, 1, 1, 0, 0, 1]
  {
  }

  /** One evaluation of the composition, given the permuted block, the two
      round-function outputs and the two new halves. */
  lemma CompositionVector(block: seq<bit>, k1: seq<bit>, k2: seq<bit>,
                          p: seq<bit>, f1: seq<bit>, l1: seq<bit>, f2: seq<bit>, l2: seq<bit>)
    requires |block| == 8 && |k1| == 8 && |k2| == 8
    requires Permute(block, IP) == p
    requires |p| == 8 && Feistel(p[4..], k1) == f1 && XorSeq(p[..4], f1) == l1
    requires Feistel(l1, k2) == f2 && XorSeq(p[4..], f2) == l2
    ensures Composition(block, k1, k2) == Permute(l2 + l1, IPInv)
  {
    MixRoundOfHalves(p[..4], p[4..], k1);
    assert p[..4] + p[4..] == p;
    SwapHalvesOfHalves(l1, p[4..]);
    MixRoundOfHalves(p[4..], l1, k2);
  }
}
