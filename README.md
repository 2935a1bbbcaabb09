# S-DES in Dafny

A Dafny model of `DES.py`, a Simplified DES (S-DES) teaching cipher. It encrypts an
8-bit block under a 10-bit key. It is built from table permutations (`permutar`),
circular left shifts of the 5-bit key halves (`deslocamento_esquerda`), a key
schedule that produces two 8-bit subkeys K1 and K2 (`gerar_subchaves`), two 4x4
S-boxes (`aplicar_sbox`), the Feistel round function F (`funcao_feistel`) and a
two-round driver (`sdes_encriptar_decriptar`). The driver applies IP, round 1,
one half-swap, round 2 and IP⁻¹. It uses K1 then K2, or K2 then K1 when the mode is `'D'`.

Every function of the cipher (all but `main`) is pure: it only builds new lists by
comprehensions, slicing, concatenation and, in `aplicar_sbox`, a binary rendering read back
with `int`. So each one is a Dafny `function` over `seq<bit>`, where
`bit` is the integers 0 and 1. The lemmas are about those functions.

- `bits.dfy`, module `Bits`: the `bit` type, XOR on bits and bit lists, and the two-bit
  encoding of S-box entries.
- `sdes.dfy`, module `SDes`: the tables of DES.py and the six operations.
  It also holds a textbook reference form of the cipher (`MixRound`, `SwapHalves`,
  `Composition`) and the lemmas.

Modelling choices:

- The tables are those of the code. P10 and P8 are 0-based index lists and are not the
  usual textbook tables shifted by one. `K1FromKey` and `K2FromKey` fold P10, the
  rotations and P8 into one table per subkey. `GenerateSubkeys` is proved equal to them.
- `(b << 1) | c` on bits is written `2*b + c`. The string round trip `f"{v:02b}"` is
  written arithmetically as `[v / 2, v % 2]`.
- The mode is a `string` whose default is `"E"`, as with `modo='E'` in the code. It is
  compared with `"D"`, as the code tests `modo == 'D'`.
- The shift follows Python slicing for every non-negative `d`. For `d <= len` it is a left
  rotation by `d`. For `d > len`, `bits[d:] + bits[:d]` is the list unchanged, not a
  rotation by `d mod n`; the model follows the code. The code only shifts 5-bit halves
  by 1 and by 2.
- Python would raise, or compute an unintended result, for wrong lengths or for elements other than 0/1.
  The model makes those preconditions instead, through the `bit` type and fixed lengths.

## Model

| member | source | states |
|---|---|---|
| SDes.Permute | DES.py:1-3 | output has one element per table entry, and position i holds input position table[i], for every table whose entries index the input |
| SDes.PermuteCompose | DES.py:1-3 | permuting by one table and then another equals permuting once by the composed table |
| SDes.PermuteIdentity | DES.py:1-3 | permuting by the identity table returns the list unchanged |
| SDes.RotateLeft | DES.py:5-7 | slicing-and-concatenating keeps the length, and a shift of at least the length leaves the list unchanged |
| SDes.RotateLeftIndex | DES.py:5-7 | for 0 <= d <= n, output position i holds input position (i + d) mod n: a circular left shift |
| SDes.RotatedIndex | DES.py:7 | position i of bits[d:] + bits[:d] is input position (i + d) mod n |
| SDes.RotateLeftTwice | DES.py:5-7 | rotating by a and then by b equals rotating by a + b when a + b <= n, so shifting by 1 and then by 2 is a shift by 3 |
| SDes.RotateFiveByOne | DES.py:19 | a 5-bit half shifted left by 1 is its elements 1,2,3,4,0, as each half is shifted after P10 |
| SDes.RotateFiveByTwo | DES.py:23 | a 5-bit half shifted left by 2 is its elements 2,3,4,0,1, as each half is shifted again before K2 |
| SDes.GenerateSubkeys | DES.py:9-26 | a 10-bit key yields two 8-bit subkeys; K1 is key bits 0,4,8,3,1,9,2,6 and K2 is key bits 1,0,4,5,9,8,7,2 |
| SDes.SubkeyBits | DES.py:14-24 | P10, the one-step and two-step half rotations and P8 wire the key bits to the subkey bits as the folded tables say |
| SDes.SubkeysFromSharedP10 | DES.py:15-24 | both subkeys come from the same P10 output; K2 uses halves rotated by 3 in total, not by 2 from scratch |
| SDes.SBoxRow | DES.py:30 | the S-box row built from bits 0 and 3 is in 0..3 |
| SDes.SBoxColumn | DES.py:31 | the S-box column built from bits 1 and 2 is in 0..3 |
| SDes.SBoxesValid | DES.py:46-54 | S0 and S1 are 4x4 and every entry is in 0..3 |
| SDes.ApplySBox | DES.py:28-32 | four input bits give exactly two bits, whose MSB-first value is the entry at row 2*b0+b3 and column 2*b1+b2 |
| Bits.ToBits2 | DES.py:32 | an entry 0..3 becomes two bits whose MSB-first value is the entry |
| Bits.ToBitsFromBits2 | DES.py:32 | the two-bit encoding is a bijection: reading two bits as a number and encoding it again gives the same bits |
| Bits.Xor | DES.py:43 | XOR of two bits is 1 exactly when they differ |
| Bits.XorSeq | DES.py:43 | position-wise XOR over the first list's length, each output bit 1 exactly when the two inputs differ |
| Bits.XorSeqCancel | DES.py:82-89 | XORing a half with the same F output twice restores it: (L xor F) xor F = L |
| SDes.Feistel | DES.py:34-60 | a 4-bit half and an 8-bit subkey give exactly 4 bits, equal bit for bit to the S0 lookup on EP bits 0-3 xor key bits 0-3 and the S1 lookup on EP bits 4-7 xor key bits 4-7, both rearranged by P4 |
| SDes.RoundKeys | DES.py:68-72 | mode "D" uses K2 then K1; every other mode uses K1 then K2 |
| SDes.EncryptDecrypt | DES.py:62-93 | an 8-bit block and a 10-bit key always give an 8-bit block |
| SDes.InitialPermutationInverse | DES.py:64-65 | IP⁻¹ after IP is the identity on 8-bit lists, and so is IP after IP⁻¹ |
| SDes.MixRound | DES.py:80-82 | one round replaces the left half by its XOR with F of the right half and leaves the right half as it was |
| SDes.SwapHalves | DES.py:84-85 | the swap exchanges the two 4-bit halves |
| SDes.MixRoundInvolution | DES.py:80-89 | a round applied twice under the same subkey is the identity |
| SDes.SwapHalvesInvolution | DES.py:84-85 | swapping the halves twice is the identity |
| SDes.MixRoundOfHalves | DES.py:78-82 | a round on a block given as two halves XORs F of the right half into the left half |
| SDes.SwapHalvesOfHalves | DES.py:85 | the swap of a block given as two halves puts the right half first |
| SDes.Composition | DES.py:74-93 | the textbook form IP⁻¹ ∘ f_second ∘ SW ∘ f_first ∘ IP yields an 8-bit block |
| SDes.EncryptDecryptStructure | DES.py:62-93 | the driver equals the textbook composition under the subkeys its mode selects: one swap between the rounds and none after round 2 |
| SDes.OtherModesEncrypt | DES.py:71-72 | every mode value other than "D" behaves exactly like "E" |
| SDes.CompositionInverse | DES.py:74-93 | the composition under the subkeys in reverse order undoes the composition |
| SDes.DecryptEncrypt | DES.py:62-93 | for every 8-bit block and 10-bit key, decrypting the encryption gives the block back |
| SDes.EncryptDecryptInverse | DES.py:62-93 | for every 8-bit block and 10-bit key, encrypting the decryption gives the block back |
| SDes.DemonstrationVector | DES.py:97-106 | key 1010000010 and block 10010111 encrypt to 01111001, decrypting that gives 10010111 again, the default mode encrypts, and the two subkeys differ |
| SDes.P10Bits | DES.py:11 | P10 sends key bits 2,5,7,6,3,9,0,8,1,4 to positions 0..9 |
| SDes.P8Bits | DES.py:12 | P8 selects bits 5,8,6,3,7,9,4,2 of the 10-bit halves |
| SDes.FoldedBits | DES.py:9-26 | the folded tables K1FromKey and K2FromKey pick key bits 0,4,8,3,1,9,2,6 and 1,0,4,5,9,8,7,2 |
| SDes.EPBits | DES.py:36 | the expansion EP copies each of the 4 input bits to two of the 8 output positions |
| SDes.P4Bits | DES.py:37 | P4 takes bits 1,3,2,0 of the S-box outputs |
| SDes.ExpandedBits | DES.py:40-43 | after EP and the XOR, position i holds the selected input bit XOR subkey bit i |
| SDes.FeistelByBits | DES.py:36-60 | the reference bit-level form of F returns 4 bits |
| SDes.FeistelWiring | DES.py:39-60 | EP, XOR, S0 on bits 0-3, S1 on bits 4-7 and P4 together equal the bit-level reference form |
| SDes.IPBits | DES.py:64-65 | IP takes bits 1,5,2,0,3,7,4,6 and IP⁻¹ takes bits 3,0,2,4,6,1,7,5 |
| SDes.DemonstrationSubkeys | DES.py:97 | the demonstration key gives K1 = 10100010 and K2 = 01000101, which differ |
| SDes.CompositionVector | DES.py:74-93 | the composition on given intermediate values equals IP⁻¹ of the last two halves |

## Left out

- `main` (DES.py:95-109) and its `print` calls are left out. They only drive the demonstration
  vector, whose values `DemonstrationVector` states.
- Negative shift amounts are left out, because the code never uses one. For -len <= d < 0,
  Python's `bits[d:] + bits[:d]` rotates right by -d. For d < -len, both slices are clamped and
  the list comes back unchanged.
- Elements other than 0 and 1, and lists of the wrong length, are excluded by preconditions.
  Python raises `IndexError` on them or computes an unintended result.
- The mode is a string, not an arbitrary Python object. Any other object compares unequal to `'D'`
  and so encrypts, as `OtherModesEncrypt` states for strings.
- Negative table entries are left out. `permutar` would read `bits[-1]` and so on from the end of
  the list, but every table in DES.py has entries from 0 up, so `ValidTable` requires `0 <= table[i]`.
