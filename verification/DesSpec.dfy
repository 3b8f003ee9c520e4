// The DES cipher as a Feistel network: what encrypt0 and discrypt0 compute, and that
// each undoes the other.

module DesSpec {
  import opened DesTables
  import opened Hex

  type Bit = b: int | 0 <= b < 2
  type Half = s: seq<Bit> | |s| == 32 witness ZERO_BITS[..32]
  type Subkey = s: seq<Bit> | |s| == 48 witness ZERO_BITS[..48]
  type Block = s: seq<byte> | |s| == 8 witness [0, 0, 0, 0, 0, 0, 0, 0]
  type Bits64 = s: seq<Bit> | |s| == 64 witness ZERO_BITS

  const ZERO_BITS: seq<Bit> := seq(64, _ => 0)

  // ----- bytes and bits -----

  /** The weight of the j-th bit of a byte, most significant first. */
  function Weight(j: nat): byte
  {
    if j == 0 then 0x80 else Weight(j - 1) / 2
  }

  function BitAt(b: byte, j: nat): Bit
  {
    BitOf(b, Weight(j))
  }

  /** (b / weight) & 1 */
  function BitOf(b: byte, weight: byte): Bit
  {
    if weight != 0 && (b / weight) & 1 == 1 then 1 else 0
  }

  function Expand(x: Block): (bits: Bits64)
    ensures forall k :: 0 <= k < 64 ==> bits[k] == BitAt(x[k / 8], k % 8)
  {
    seq(64, k requires 0 <= k < 64 => BitAt(x[k / 8], k % 8))
  }

  /** bit * weight */
  function Scaled(bit: Bit, weight: byte): byte
  {
    if bit == 1 then weight else 0
  }

  function Add(a: byte, b: byte): byte
  {
    a + b
  }

  /** The sum of the first j weighted bits from `bits[from]` on. */
  function Gather(bits: seq<Bit>, from: nat, j: nat): byte
    requires from + j <= |bits|
  {
    if j == 0 then 0 else Add(Gather(bits, from, j - 1), Scaled(bits[from + j - 1], Weight(j - 1)))
  }

  function Compress(bits: Bits64): (x: Block)
    ensures forall i :: 0 <= i < 8 ==> x[i] == Gather(bits, 8 * i, 8)
  {
    seq(8, i requires 0 <= i < 8 => Gather(bits, 8 * i, 8))
  }

  lemma Weights()
    ensures Weight(0) == 0x80 && Weight(1) == 0x40 && Weight(2) == 0x20 && Weight(3) == 0x10
    ensures Weight(4) == 8 && Weight(5) == 4 && Weight(6) == 2 && Weight(7) == 1
  {
    assert Weight(2) == 0x20;
    assert Weight(4) == 8;
    assert Weight(6) == 2;
  }

  function Byte8(b0: Bit, b1: Bit, b2: Bit, b3: Bit, b4: Bit, b5: Bit, b6: Bit, b7: Bit): byte
  {
    Add(Add(Add(Add(Add(Add(Add(Scaled(b0, 0x80), Scaled(b1, 0x40)), Scaled(b2, 0x20)), Scaled(b3, 0x10)),
                        Scaled(b4, 8)), Scaled(b5, 4)), Scaled(b6, 2)), Scaled(b7, 1))
  }

  lemma GatherStep(bits: seq<Bit>, from: nat, j: nat)
    requires from + j < |bits|
    ensures Gather(bits, from, j + 1) == Add(Gather(bits, from, j), Scaled(bits[from + j], Weight(j)))
  {
  }

  lemma GatherIs(bits: seq<Bit>, from: nat)
    requires from + 8 <= |bits|
    ensures Gather(bits, from, 8) == Byte8(bits[from], bits[from + 1], bits[from + 2], bits[from + 3],
                                           bits[from + 4], bits[from + 5], bits[from + 6], bits[from + 7])
  {
    Weights();
    assert Gather(bits, from, 1) == Scaled(bits[from], 0x80);
    hide Weight, Scaled, Gather, Add;
    GatherStep(bits, from, 1);
    GatherStep(bits, from, 2);
    GatherStep(bits, from, 3);
    GatherStep(bits, from, 4);
    GatherStep(bits, from, 5);
    GatherStep(bits, from, 6);
    GatherStep(bits, from, 7);
  }

  /** Dividing by a power of two and keeping the last bit reads the bit under its mask. */
  lemma Masks(b: byte)
    ensures BitOf(b, 0x80) == Masked(b, 0x80) && BitOf(b, 0x40) == Masked(b, 0x40)
    ensures BitOf(b, 0x20) == Masked(b, 0x20) && BitOf(b, 0x10) == Masked(b, 0x10)
    ensures BitOf(b, 8) == Masked(b, 8) && BitOf(b, 4) == Masked(b, 4)
    ensures BitOf(b, 2) == Masked(b, 2) && BitOf(b, 1) == Masked(b, 1)
  {
  }

  function Masked(b: byte, mask: byte): Bit
  {
    if b & mask != 0 then 1 else 0
  }

  lemma BitsOfByte(b0: Bit, b1: Bit, b2: Bit, b3: Bit, b4: Bit, b5: Bit, b6: Bit, b7: Bit)
    ensures var b := Byte8(b0, b1, b2, b3, b4, b5, b6, b7);
            && BitOf(b, 0x80) == b0 && BitOf(b, 0x40) == b1 && BitOf(b, 0x20) == b2 && BitOf(b, 0x10) == b3
            && BitOf(b, 8) == b4 && BitOf(b, 4) == b5 && BitOf(b, 2) == b6 && BitOf(b, 1) == b7
  {
    hide BitOf;
    Masks(Byte8(b0, b1, b2, b3, b4, b5, b6, b7));
  }

  lemma ByteOfBits(b: byte)
    ensures Byte8(BitOf(b, 0x80), BitOf(b, 0x40), BitOf(b, 0x20), BitOf(b, 0x10),
                  BitOf(b, 8), BitOf(b, 4), BitOf(b, 2), BitOf(b, 1)) == b
  {
    hide BitOf;
    Masks(b);
  }

  lemma ExpandOfCompress(bits: Bits64)
    ensures Expand(Compress(bits)) == bits
  {
    hide Weight, BitOf, Scaled, Byte8;
    forall k | 0 <= k < 64
      ensures Expand(Compress(bits))[k] == bits[k]
    {
      var i := k / 8;
      var f := 8 * i;
      GatherIs(bits, f);
      BitsOfByte(bits[f], bits[f + 1], bits[f + 2], bits[f + 3], bits[f + 4], bits[f + 5], bits[f + 6], bits[f + 7]);
      Weights();
      assert k == f + k % 8;
    }
  }

  lemma BitOfExpand(x: Block, i: nat, j: nat)
    requires i < 8 && j < 8
    ensures Expand(x)[8 * i + j] == BitOf(x[i], Weight(j))
  {
    hide Weight, BitOf;
    assert (8 * i + j) / 8 == i && (8 * i + j) % 8 == j;
  }

  lemma ByteBack(x: Block, i: nat)
    requires i < 8
    ensures Gather(Expand(x), 8 * i, 8) == x[i]
  {
    hide Weight, BitOf, Byte8, Gather, Expand;
    GatherIs(Expand(x), 8 * i);
    Weights();
    BitOfExpand(x, i, 0);
    BitOfExpand(x, i, 1);
    BitOfExpand(x, i, 2);
    BitOfExpand(x, i, 3);
    BitOfExpand(x, i, 4);
    BitOfExpand(x, i, 5);
    BitOfExpand(x, i, 6);
    BitOfExpand(x, i, 7);
    ByteOfBits(x[i]);
  }

  lemma CompressOfExpand(x: Block)
    ensures Compress(Expand(x)) == x
  {
    hide Gather, Expand;
    forall i | 0 <= i < 8
      ensures Compress(Expand(x))[i] == x[i]
    {
      ByteBack(x, i);
    }
  }

  // ----- permutations -----

  /** The bits of `x` that a table names. */
  function Permute(x: seq<Bit>, table: seq<int>): (y: seq<Bit>)
    requires forall k :: 0 <= k < |table| ==> 1 <= table[k] <= |x|
    ensures |y| == |table| && forall k :: 0 <= k < |table| ==> y[k] == x[table[k] - 1]
  {
    seq(|table|, k requires 0 <= k < |table| => x[table[k] - 1])
  }

  lemma PermuteBack(x: Bits64)
    ensures |IP_TAB| == |IP_INV| == 64
    ensures Permute(Permute(x, IP_TAB), IP_INV) == x && Permute(Permute(x, IP_INV), IP_TAB) == x
  {
    InitialPermutations();
    hide IP_TAB, IP_INV;
  }

  // ----- the key schedule -----

  function Rotate(x: seq<Bit>, count: nat): (y: seq<Bit>)
    requires |x| == 28
    ensures |y| == 28 && forall i :: 0 <= i < 28 ==> y[i] == x[(i + count) % 28]
  {
    seq(28, i requires 0 <= i < 28 => x[(i + count) % 28])
  }

  /** C[n] and D[n]: one half of the chosen key bits, rotated n times. */
  function KeyHalf(bits: Bits64, choice: seq<KeyPos>, n: nat): (c: seq<Bit>)
    requires |choice| == 28 && n <= 16
    ensures |c| == 28
  {
    TableSizes();
    if n == 0 then Permute(bits, choice) else Rotate(KeyHalf(bits, choice, n - 1), LS_COUNT[n - 1])
  }

  /** K[n], for n from 1 to 16. */
  function RoundKey(bits: Bits64, n: nat): Subkey
    requires 1 <= n <= 16
  {
    TableSizes();
    Permute(KeyHalf(bits, PC_1_C, n) + KeyHalf(bits, PC_1_D, n), PC_2)
  }

  function Keys(key: Block): (ks: seq<Subkey>)
    ensures |ks| == 16 && forall n :: 1 <= n <= 16 ==> ks[n - 1] == RoundKey(Expand(key), n)
  {
    seq(16, n requires 0 <= n < 16 => RoundKey(Expand(key), n + 1))
  }

  // ----- the rounds -----

  /** (a + b) & 1 */
  function XorBit(a: Bit, b: Bit): Bit
  {
    (a as int + b as int) % 2
  }

  function XorBits(a: seq<Bit>, b: seq<Bit>): (r: seq<Bit>)
    requires |a| == |b|
    ensures |r| == |a| && forall i :: 0 <= i < |a| ==> r[i] == XorBit(a[i], b[i])
  {
    seq(|a|, i requires 0 <= i < |a| => XorBit(a[i], b[i]))
  }

  /** The i-th S-box applied to its six bits: a row from the outer two, a column from the inner four. */
  function Substitute(x: Subkey, i: nat): Nibble
    requires i < 8
  {
    SubstituteAt(x, i)
  }

  function SubstituteAt(x: seq<Bit>, i: nat): Nibble
    requires i < 8 && 6 * i + 6 <= |x|
  {
    var j := 6 * i;
    var y := x[j] as int * 2 + x[j + 5] as int;
    var z := x[j + 1] as int * 8 + x[j + 2] as int * 4 + x[j + 3] as int * 2 + x[j + 4] as int;
    SSS[i][y][z]
  }

  function NibbleBit(n: Nibble, k: nat): Bit
    requires k < 4
  {
    if k == 0 then n / 8 % 2 else if k == 1 then n / 4 % 2 else if k == 2 then n / 2 % 2 else n % 2
  }

  function SBoxes(x: Subkey): (y: Half)
    ensures forall m :: 0 <= m < 32 ==> y[m] == NibbleBit(Substitute(x, m / 4), m % 4)
  {
    seq(32, m requires 0 <= m < 32 => NibbleBit(Substitute(x, m / 4), m % 4))
  }

  /** What a round adds to the left half. */
  function Mix(r: Half, k: Subkey): Half
  {
    TableSizes();
    Permute(SBoxes(XorBits(Permute(r, E_R), k)), P)
  }

  /** Rounds 1 to n. */
  function Forward(ks: seq<Subkey>, n: nat, l: Half, r: Half): (Half, Half)
    requires n <= |ks|
  {
    if n == 0 then (l, r)
    else
      var (l1, r1) := Forward(ks, n - 1, l, r);
      (r1, XorBits(Mix(r1, ks[n - 1]), l1))
  }

  /** Rounds n down to 1. */
  function Backward(ks: seq<Subkey>, n: nat, l: Half, r: Half): (Half, Half)
    requires n <= |ks|
  {
    if n == 0 then (l, r) else Backward(ks, n - 1, r, XorBits(Mix(r, ks[n - 1]), l))
  }

  lemma XorBitsTwice(m: Half, x: Half)
    ensures XorBits(m, XorBits(m, x)) == x
  {
  }

  /** Running the rounds backwards on the swapped halves undoes them, whatever the round function. */
  lemma {:induction false} BackwardUndoesForward(ks: seq<Subkey>, n: nat, l: Half, r: Half)
    requires n <= |ks|
    ensures var (l', r') := Forward(ks, n, l, r); Backward(ks, n, r', l') == (r, l)
  {
    if n == 0 {
    } else {
      hide Mix, XorBits;
      var (l1, r1) := Forward(ks, n - 1, l, r);
      BackwardUndoesForward(ks, n - 1, l, r);
      XorBitsTwice(Mix(r1, ks[n - 1]), l1);
    }
  }

  lemma {:induction false} ForwardUndoesBackward(ks: seq<Subkey>, n: nat, l: Half, r: Half)
    requires n <= |ks|
    ensures var (l', r') := Backward(ks, n, l, r); Forward(ks, n, r', l') == (r, l)
  {
    if n == 0 {
    } else {
      hide Mix, XorBits;
      var m := Mix(r, ks[n - 1]);
      ForwardUndoesBackward(ks, n - 1, r, XorBits(m, l));
      XorBitsTwice(m, l);
    }
  }

  // ----- the cipher -----

  function Halves(x: Block): (Half, Half)
  {
    TableSizes();
    var bits := Permute(Expand(x), IP_TAB);
    (bits[..32], bits[32..])
  }

  /** The two halves go into the last permutation swapped. */
  function Joined(l: Half, r: Half): Block
  {
    TableSizes();
    Compress(Permute(r + l, IP_INV))
  }

  function Encrypt(x: Block, key: Block): Block
  {
    var (l, r) := Halves(x);
    var (l', r') := Forward(Keys(key), 16, l, r);
    Joined(l', r')
  }

  function Decrypt(x: Block, key: Block): Block
  {
    var (l, r) := Halves(x);
    var (l', r') := Backward(Keys(key), 16, l, r);
    Joined(l', r')
  }

  lemma HalvesOfJoined(l: Half, r: Half)
    ensures Halves(Joined(l, r)) == (r, l)
  {
    TableSizes();
    hide Expand, Compress, Permute, IP_TAB, IP_INV;
    var bits := Permute(r + l, IP_INV);
    ExpandOfCompress(bits);
    PermuteBack(r + l);
    assert (r + l)[..32] == r && (r + l)[32..] == l;
  }

  lemma JoinedOfHalves(x: Block)
    ensures var (l, r) := Halves(x); Joined(r, l) == x
  {
    TableSizes();
    hide Expand, Compress, Permute, IP_TAB, IP_INV;
    var bits := Permute(Expand(x), IP_TAB);
    assert bits[..32] + bits[32..] == bits;
    PermuteBack(Expand(x));
    CompressOfExpand(x);
  }

  /** Decryption undoes encryption and encryption decryption, for every block and key. */
  lemma CipherRoundTrip(x: Block, key: Block)
    ensures Decrypt(Encrypt(x, key), key) == x && Encrypt(Decrypt(x, key), key) == x
  {
    hide Halves, Joined, Forward, Backward, Keys;
    var (l, r) := Halves(x);
    var (l1, r1) := Forward(Keys(key), 16, l, r);
    HalvesOfJoined(l1, r1);
    BackwardUndoesForward(Keys(key), 16, l, r);
    var (l2, r2) := Backward(Keys(key), 16, l, r);
    HalvesOfJoined(l2, r2);
    ForwardUndoesBackward(Keys(key), 16, l, r);
    JoinedOfHalves(x);
  }

  /** The last bit of every key byte is a parity bit: it never reaches the cipher. */
  lemma ParityBitsAreIgnored(x: Block, key: Block, other: Block)
    requires forall i :: 0 <= i < 8 ==> key[i] / 2 == other[i] / 2
    ensures Encrypt(x, key) == Encrypt(x, other) && Decrypt(x, key) == Decrypt(x, other)
  {
    var a, b := Expand(key), Expand(other);
    forall k: nat | k < 64 && k % 8 != 7
      ensures a[k] == b[k]
    {
      hide Weight, BitOf;
      UpperBits(key[k / 8], other[k / 8], k % 8);
    }
    hide Expand, Weight, BitOf, Encrypt, Decrypt;
    forall n | 1 <= n <= 16
      ensures RoundKey(a, n) == RoundKey(b, n)
    {
      TableSizes();
      SameKeyHalf(a, b, PC_1_C, n);
      SameKeyHalf(a, b, PC_1_D, n);
    }
    assert Keys(key) == Keys(other);
    SameKeys(x, key, other);
  }

  lemma SameKeys(x: Block, key: Block, other: Block)
    requires Keys(key) == Keys(other)
    ensures Encrypt(x, key) == Encrypt(x, other) && Decrypt(x, key) == Decrypt(x, other)
  {
    hide Halves, Joined, Forward, Backward, Keys;
  }

  lemma {:induction false} SameKeyHalf(a: Bits64, b: Bits64, choice: seq<KeyPos>, n: nat)
    requires |choice| == 28 && n <= 16
    requires forall k :: 0 <= k < 64 && k % 8 != 7 ==> a[k] == b[k]
    ensures KeyHalf(a, choice, n) == KeyHalf(b, choice, n)
  {
    if n > 0 {
      SameKeyHalf(a, b, choice, n - 1);
    } else {
      forall i | 0 <= i < 28
        ensures Permute(a, choice)[i] == Permute(b, choice)[i]
      {
        assert (choice[i] as int - 1) % 8 != 7;
      }
    }
  }

  lemma UpperBits(b: byte, c: byte, j: nat)
    requires b / 2 == c / 2 && j < 7
    ensures BitAt(b, j) == BitAt(c, j)
  {
    Weights();
    hide BitOf;
    Masks(b);
    Masks(c);
    UpperMasks(b, c);
    assert j == 0 || j == 1 || j == 2 || j == 3 || j == 4 || j == 5 || j == 6;
  }

  lemma UpperMasks(b: byte, c: byte)
    requires b / 2 == c / 2
    ensures Masked(b, 0x80) == Masked(c, 0x80) && Masked(b, 0x40) == Masked(c, 0x40)
    ensures Masked(b, 0x20) == Masked(c, 0x20) && Masked(b, 0x10) == Masked(c, 0x10)
    ensures Masked(b, 8) == Masked(c, 8) && Masked(b, 4) == Masked(c, 4) && Masked(b, 2) == Masked(c, 2)
  {
  }

  // ----- complements -----

  function Not(b: byte): byte
  {
    b ^ 0xff
  }

  function NotBlock(x: Block): (y: Block)
    ensures forall i :: 0 <= i < 8 ==> y[i] == Not(x[i])
  {
    seq(8, i requires 0 <= i < 8 => Not(x[i]))
  }

  function Flip(x: seq<Bit>): (y: seq<Bit>)
    ensures |y| == |x| && forall i :: 0 <= i < |x| ==> y[i] == 1 - x[i]
  {
    seq(|x|, i requires 0 <= i < |x| => 1 - x[i])
  }

  lemma NotMasks(b: byte)
    ensures Masked(Not(b), 0x80) == 1 - Masked(b, 0x80) && Masked(Not(b), 0x40) == 1 - Masked(b, 0x40)
    ensures Masked(Not(b), 0x20) == 1 - Masked(b, 0x20) && Masked(Not(b), 0x10) == 1 - Masked(b, 0x10)
    ensures Masked(Not(b), 8) == 1 - Masked(b, 8) && Masked(Not(b), 4) == 1 - Masked(b, 4)
    ensures Masked(Not(b), 2) == 1 - Masked(b, 2) && Masked(Not(b), 1) == 1 - Masked(b, 1)
  {
  }

  lemma NotBit(b: byte, j: nat)
    requires j < 8
    ensures BitAt(Not(b), j) == 1 - BitAt(b, j)
  {
    Weights();
    hide BitOf, Masked, Not, Weight;
    Masks(b);
    Masks(Not(b));
    NotMasks(b);
    assert j == 0 || j == 1 || j == 2 || j == 3 || j == 4 || j == 5 || j == 6 || j == 7;
  }

  lemma ExpandOfNot(x: Block)
    ensures Expand(NotBlock(x)) == Flip(Expand(x))
  {
    hide BitAt, Not;
    forall k: nat | k < 64
      ensures Expand(NotBlock(x))[k] == 1 - Expand(x)[k]
    {
      NotBit(x[k / 8], k % 8);
    }
  }

  lemma CompressOfFlip(bits: Bits64)
    ensures Compress(Flip(bits)) == NotBlock(Compress(bits))
  {
    hide Expand, Compress, NotBlock;
    ExpandOfCompress(bits);
    ExpandOfNot(Compress(bits));
    CompressOfExpand(NotBlock(Compress(bits)));
  }

  lemma PermuteOfFlip(x: seq<Bit>, table: seq<int>)
    requires forall k :: 0 <= k < |table| ==> 1 <= table[k] <= |x|
    ensures Permute(Flip(x), table) == Flip(Permute(x, table))
  {
  }

  lemma {:induction false} KeyHalfOfFlip(bits: Bits64, choice: seq<KeyPos>, n: nat)
    requires |choice| == 28 && n <= 16
    ensures KeyHalf(Flip(bits), choice, n) == Flip(KeyHalf(bits, choice, n))
  {
    TableSizes();
    if n == 0 {
      PermuteOfFlip(bits, choice);
    } else {
      KeyHalfOfFlip(bits, choice, n - 1);
      RotateOfFlip(KeyHalf(bits, choice, n - 1), LS_COUNT[n - 1]);
    }
  }

  lemma RotateOfFlip(x: seq<Bit>, count: nat)
    requires |x| == 28
    ensures Rotate(Flip(x), count) == Flip(Rotate(x, count))
  {
  }

  lemma RoundKeyOfFlip(bits: Bits64, n: nat)
    requires 1 <= n <= 16
    ensures RoundKey(Flip(bits), n) == Flip(RoundKey(bits, n))
  {
    TableSizes();
    hide KeyHalf, PC_1_C, PC_1_D, PC_2;
    KeyHalfOfFlip(bits, PC_1_C, n);
    KeyHalfOfFlip(bits, PC_1_D, n);
    var c, d := KeyHalf(bits, PC_1_C, n), KeyHalf(bits, PC_1_D, n);
    FlipOfJoin(c, d);
    PermuteOfFlip(c + d, PC_2);
  }

  lemma FlipOfJoin(a: seq<Bit>, b: seq<Bit>)
    ensures Flip(a + b) == Flip(a) + Flip(b)
  {
  }

  lemma XorBitsOfFlip(a: seq<Bit>, b: seq<Bit>)
    requires |a| == |b|
    ensures XorBits(Flip(a), Flip(b)) == XorBits(a, b)
    ensures XorBits(a, Flip(b)) == Flip(XorBits(a, b))
  {
  }

  /** The expanded half and the round key are flipped together, so a round adds the same bits. */
  lemma MixOfFlip(r: Half, k: Subkey)
    ensures Mix(Flip(r), Flip(k)) == Mix(r, k)
  {
    TableSizes();
    hide SBoxes, Flip, XorBits, E_R, P;
    PermuteOfFlip(r, E_R);
    XorBitsOfFlip(Permute(r, E_R), k);
  }

  lemma {:induction false} ForwardOfFlip(ks: seq<Subkey>, nks: seq<Subkey>, n: nat, l: Half, r: Half)
    requires n <= |ks| == |nks| && forall i :: 0 <= i < |ks| ==> nks[i] == Flip(ks[i])
    ensures var (l', r') := Forward(ks, n, l, r);
            Forward(nks, n, Flip(l), Flip(r)) == (Flip(l'), Flip(r'))
  {
    if n == 0 {
    } else {
      hide Mix, XorBits, Flip;
      ForwardOfFlip(ks, nks, n - 1, l, r);
      var (l1, r1) := Forward(ks, n - 1, l, r);
      MixOfFlip(r1, ks[n - 1]);
      XorBitsOfFlip(Mix(r1, ks[n - 1]), l1);
    }
  }

  lemma HalvesOfNot(x: Block)
    ensures var (l, r) := Halves(x); Halves(NotBlock(x)) == (Flip(l), Flip(r))
  {
    TableSizes();
    hide Expand, IP_TAB, NotBlock;
    ExpandOfNot(x);
    PermuteOfFlip(Expand(x), IP_TAB);
    var bits := Permute(Expand(x), IP_TAB);
    assert Flip(bits)[..32] == Flip(bits[..32]) && Flip(bits)[32..] == Flip(bits[32..]);
  }

  lemma JoinedOfFlip(l: Half, r: Half)
    ensures Joined(Flip(l), Flip(r)) == NotBlock(Joined(l, r))
  {
    TableSizes();
    hide Compress, Flip, IP_INV, NotBlock;
    FlipOfJoin(r, l);
    PermuteOfFlip(r + l, IP_INV);
    CompressOfFlip(Permute(r + l, IP_INV));
  }

  lemma KeysOfNot(key: Block)
    ensures forall i :: 0 <= i < 16 ==> Keys(NotBlock(key))[i] == Flip(Keys(key)[i])
  {
    hide RoundKey, Expand, NotBlock, Flip;
    ExpandOfNot(key);
    forall i | 0 <= i < 16
      ensures Keys(NotBlock(key))[i] == Flip(Keys(key)[i])
    {
      RoundKeyOfFlip(Expand(key), i + 1);
    }
  }

  /** The complemented key enciphers the complemented block to the complement, and deciphers likewise. */
  lemma Complementation(x: Block, key: Block)
    ensures Encrypt(NotBlock(x), NotBlock(key)) == NotBlock(Encrypt(x, key))
    ensures Decrypt(NotBlock(x), NotBlock(key)) == NotBlock(Decrypt(x, key))
  {
    EncryptOfNot(x, key);
    hide Encrypt, Decrypt, NotBlock;
    var y := Decrypt(x, key);
    EncryptOfNot(y, key);
    CipherRoundTrip(x, key);
    CipherRoundTrip(NotBlock(y), NotBlock(key));
  }

  lemma EncryptOfNot(x: Block, key: Block)
    ensures Encrypt(NotBlock(x), NotBlock(key)) == NotBlock(Encrypt(x, key))
  {
    hide Halves, Joined, Forward, Keys, NotBlock, Flip;
    var (l, r) := Halves(x);
    HalvesOfNot(x);
    KeysOfNot(key);
    ForwardOfFlip(Keys(key), Keys(NotBlock(key)), 16, l, r);
    var (l', r') := Forward(Keys(key), 16, l, r);
    JoinedOfFlip(l', r');
  }
}
