// DES on machine words: the cipher once more, with its permutations as shifts and masks. It
// computes what the cipher on bits computes, for every block and key, and on words the
// published example can be followed round by round.

module DesWords {
  import opened DesTables
  import opened DesSpec
  import opened Hex

  // ----- bits and words, most significant bit first -----

  predicate Nib(x: seq<Bit>, k: nat, b: bv4)
    requires k + 4 <= |x|
  {
    && x[k] == (if b & 8 != 0 then 1 else 0) && x[k + 1] == (if b & 4 != 0 then 1 else 0)
    && x[k + 2] == (if b & 2 != 0 then 1 else 0) && x[k + 3] == (if b & 1 != 0 then 1 else 0)
  }

  predicate Is16(x: seq<Bit>, k: nat, w: bv16)
    requires k + 16 <= |x|
  {
    && Nib(x, k, (w >> 12) as bv4) && Nib(x, k + 4, ((w >> 8) & 0xf) as bv4)
    && Nib(x, k + 8, ((w >> 4) & 0xf) as bv4) && Nib(x, k + 12, (w & 0xf) as bv4)
  }

  predicate Is12(x: seq<Bit>, k: nat, w: bv12)
    requires k + 12 <= |x|
  {
    && Nib(x, k, (w >> 8) as bv4) && Nib(x, k + 4, ((w >> 4) & 0xf) as bv4) && Nib(x, k + 8, (w & 0xf) as bv4)
  }

  predicate Is28(x: seq<Bit>, w: bv28)
  {
    |x| == 28 && Is16(x, 0, (w >> 12) as bv16) && Is12(x, 16, (w & 0xfff) as bv12)
  }

  predicate Is32At(x: seq<Bit>, k: nat, w: bv32)
    requires k + 32 <= |x|
  {
    Is16(x, k, (w >> 16) as bv16) && Is16(x, k + 16, (w & 0xffff) as bv16)
  }

  predicate Is32(x: seq<Bit>, w: bv32)
  {
    |x| == 32 && Is32At(x, 0, w)
  }

  predicate Is48(x: seq<Bit>, w: bv48)
  {
    && |x| == 48 && Is16(x, 0, (w >> 32) as bv16)
    && Is16(x, 16, ((w >> 16) & 0xffff) as bv16) && Is16(x, 32, (w & 0xffff) as bv16)
  }

  predicate Is64(x: seq<Bit>, w: bv64)
  {
    |x| == 64 && Is32At(x, 0, (w >> 32) as bv32) && Is32At(x, 32, (w & 0xffff_ffff) as bv32)
  }

  /** The eight bytes of a word. */
  function BlockOf(w: bv64): Block
  {
    [(w >> 56) as byte, ((w >> 48) & 0xff) as byte, ((w >> 40) & 0xff) as byte, ((w >> 32) & 0xff) as byte,
     ((w >> 24) & 0xff) as byte, ((w >> 16) & 0xff) as byte, ((w >> 8) & 0xff) as byte, (w & 0xff) as byte]
  }

  lemma ExpandedByte(x: Block, i: nat)
    requires i < 8
    ensures Nib(Expand(x), 8 * i, (x[i] >> 4) as bv4) && Nib(Expand(x), 8 * i + 4, (x[i] & 0xf) as bv4)
  {
    Weights();
    Masks(x[i]);
    hide Weight, BitOf, Expand;
    forall j: nat | j < 8
      ensures Expand(x)[8 * i + j] == BitOf(x[i], Weight(j))
    {
      BitOfExpand(x, i, j);
    }
  }

  lemma BytesOf(w: bv64)
    ensures var x := BlockOf(w);
            && x[0] == (w >> 56) as byte && x[1] == ((w >> 48) & 0xff) as byte
            && x[2] == ((w >> 40) & 0xff) as byte && x[3] == ((w >> 32) & 0xff) as byte
            && x[4] == ((w >> 24) & 0xff) as byte && x[5] == ((w >> 16) & 0xff) as byte
            && x[6] == ((w >> 8) & 0xff) as byte && x[7] == (w & 0xff) as byte
  {
  }

  lemma ExpandedBlock(w: bv64)
    ensures Is64(Expand(BlockOf(w)), w)
  {
    var x := BlockOf(w);
    BytesOf(w);
    hide Expand, BlockOf, Nib;
    ExpandedByte(x, 0);
    ExpandedByte(x, 1);
    ExpandedByte(x, 2);
    ExpandedByte(x, 3);
    ExpandedByte(x, 4);
    ExpandedByte(x, 5);
    ExpandedByte(x, 6);
    ExpandedByte(x, 7);
  }

  lemma OneWord(x: Bits64, y: Bits64, w: bv64)
    requires Is64(x, w) && Is64(y, w)
    ensures x == y
  {
  }

  // ----- permutations -----

  /** The p-th bit from the left of a word of `size` bits. */
  function Pick(w: bv64, size: bv7, p: bv7): bv4
    requires p <= size <= 64
  {
    ((w >> (size - p)) & 1) as bv4
  }

  function Four(w: bv64, size: bv7, a: bv7, b: bv7, c: bv7, d: bv7): bv4
    requires a <= size && b <= size && c <= size && d <= size <= 64
  {
    (Pick(w, size, a) << 3) | (Pick(w, size, b) << 2) | (Pick(w, size, c) << 1) | Pick(w, size, d)
  }

  function FirstLeft(w: bv64): bv32
  {
    ((Four(w, 64, 58, 50, 42, 34) as bv32) << 28) | ((Four(w, 64, 26, 18, 10, 2) as bv32) << 24)
    | ((Four(w, 64, 60, 52, 44, 36) as bv32) << 20) | ((Four(w, 64, 28, 20, 12, 4) as bv32) << 16)
    | ((Four(w, 64, 62, 54, 46, 38) as bv32) << 12) | ((Four(w, 64, 30, 22, 14, 6) as bv32) << 8)
    | ((Four(w, 64, 64, 56, 48, 40) as bv32) << 4) | (Four(w, 64, 32, 24, 16, 8) as bv32)
  }

  function FirstRight(w: bv64): bv32
  {
    ((Four(w, 64, 57, 49, 41, 33) as bv32) << 28) | ((Four(w, 64, 25, 17, 9, 1) as bv32) << 24)
    | ((Four(w, 64, 59, 51, 43, 35) as bv32) << 20) | ((Four(w, 64, 27, 19, 11, 3) as bv32) << 16)
    | ((Four(w, 64, 61, 53, 45, 37) as bv32) << 12) | ((Four(w, 64, 29, 21, 13, 5) as bv32) << 8)
    | ((Four(w, 64, 63, 55, 47, 39) as bv32) << 4) | (Four(w, 64, 31, 23, 15, 7) as bv32)
  }

  lemma FirstLeftHigh(x: Bits64, w: bv64)
    requires Is64(x, w)
    ensures |IP_TAB| == 64 && Is16(Permute(x, IP_TAB), 0, (FirstLeft(w) >> 16) as bv16)
  {
  }

  lemma FirstLeftLow(x: Bits64, w: bv64)
    requires Is64(x, w)
    ensures |IP_TAB| == 64 && Is16(Permute(x, IP_TAB), 16, (FirstLeft(w) & 0xffff) as bv16)
  {
  }

  lemma FirstRightHigh(x: Bits64, w: bv64)
    requires Is64(x, w)
    ensures |IP_TAB| == 64 && Is16(Permute(x, IP_TAB), 32, (FirstRight(w) >> 16) as bv16)
  {
  }

  lemma FirstRightLow(x: Bits64, w: bv64)
    requires Is64(x, w)
    ensures |IP_TAB| == 64 && Is16(Permute(x, IP_TAB), 48, (FirstRight(w) & 0xffff) as bv16)
  {
  }

  function LastLeft(w: bv64): bv32
  {
    ((Four(w, 64, 40, 8, 48, 16) as bv32) << 28) | ((Four(w, 64, 56, 24, 64, 32) as bv32) << 24)
    | ((Four(w, 64, 39, 7, 47, 15) as bv32) << 20) | ((Four(w, 64, 55, 23, 63, 31) as bv32) << 16)
    | ((Four(w, 64, 38, 6, 46, 14) as bv32) << 12) | ((Four(w, 64, 54, 22, 62, 30) as bv32) << 8)
    | ((Four(w, 64, 37, 5, 45, 13) as bv32) << 4) | (Four(w, 64, 53, 21, 61, 29) as bv32)
  }

  function LastRight(w: bv64): bv32
  {
    ((Four(w, 64, 36, 4, 44, 12) as bv32) << 28) | ((Four(w, 64, 52, 20, 60, 28) as bv32) << 24)
    | ((Four(w, 64, 35, 3, 43, 11) as bv32) << 20) | ((Four(w, 64, 51, 19, 59, 27) as bv32) << 16)
    | ((Four(w, 64, 34, 2, 42, 10) as bv32) << 12) | ((Four(w, 64, 50, 18, 58, 26) as bv32) << 8)
    | ((Four(w, 64, 33, 1, 41, 9) as bv32) << 4) | (Four(w, 64, 49, 17, 57, 25) as bv32)
  }

  lemma LastLeftHigh(x: Bits64, w: bv64)
    requires Is64(x, w)
    ensures |IP_INV| == 64 && Is16(Permute(x, IP_INV), 0, (LastLeft(w) >> 16) as bv16)
  {
  }

  lemma LastLeftLow(x: Bits64, w: bv64)
    requires Is64(x, w)
    ensures |IP_INV| == 64 && Is16(Permute(x, IP_INV), 16, (LastLeft(w) & 0xffff) as bv16)
  {
  }

  lemma LastRightHigh(x: Bits64, w: bv64)
    requires Is64(x, w)
    ensures |IP_INV| == 64 && Is16(Permute(x, IP_INV), 32, (LastRight(w) >> 16) as bv16)
  {
  }

  lemma LastRightLow(x: Bits64, w: bv64)
    requires Is64(x, w)
    ensures |IP_INV| == 64 && Is16(Permute(x, IP_INV), 48, (LastRight(w) & 0xffff) as bv16)
  {
  }

  function Join(l: bv32, r: bv32): bv64
  {
    (l as bv64 << 32) | (r as bv64)
  }

  lemma Parts(l: bv32, r: bv32)
    ensures (Join(l, r) >> 32) as bv32 == l && (Join(l, r) & 0xffff_ffff) as bv32 == r
  {
  }

  lemma LastIs(x: Bits64, w: bv64)
    requires Is64(x, w)
    ensures |IP_INV| == 64 && Is64(Permute(x, IP_INV), Join(LastLeft(w), LastRight(w)))
  {
    TableSizes();
    Parts(LastLeft(w), LastRight(w));
    hide IP_INV, Permute, Join, LastLeft, LastRight, Is16;
    LastLeftHigh(x, w);
    LastLeftLow(x, w);
    LastRightHigh(x, w);
    LastRightLow(x, w);
  }

  /** Eight groups of six bits, each with the last bit before it and the first one behind it. */
  function Widened(r: bv32): bv48
  {
    var w := r as bv48;
    ((w & 1) << 47) | ((w & 0xF8000000) << 15) | ((w & 0x1F800000) << 13) | ((w & 0x1F80000) << 11)
    | ((w & 0x1F8000) << 9) | ((w & 0x1F800) << 7) | ((w & 0x1F80) << 5) | ((w & 0x1F8) << 3)
    | ((w & 0x1F) << 1) | (w >> 31)
  }

  lemma WidenedHigh(x: Half, r: bv32)
    requires Is32(x, r)
    ensures |E_R| == 48 && Is16(Permute(x, E_R), 0, (Widened(r) >> 32) as bv16)
  {
  }

  lemma WidenedMiddle(x: Half, r: bv32)
    requires Is32(x, r)
    ensures |E_R| == 48 && Is16(Permute(x, E_R), 16, ((Widened(r) >> 16) & 0xffff) as bv16)
  {
  }

  lemma WidenedLow(x: Half, r: bv32)
    requires Is32(x, r)
    ensures |E_R| == 48 && Is16(Permute(x, E_R), 32, (Widened(r) & 0xffff) as bv16)
  {
  }

  lemma WidenedIs(x: Half, r: bv32)
    requires Is32(x, r)
    ensures |E_R| == 48 && Is48(Permute(x, E_R), Widened(r))
  {
    hide Is16, Is32, E_R, Permute, Widened;
    WidenedHigh(x, r);
    WidenedMiddle(x, r);
    WidenedLow(x, r);
  }

  function Placed(s: bv32): bv32
  {
    var w := s as bv64;
    ((Four(w, 32, 16, 7, 20, 21) as bv32) << 28) | ((Four(w, 32, 29, 12, 28, 17) as bv32) << 24)
    | ((Four(w, 32, 1, 15, 23, 26) as bv32) << 20) | ((Four(w, 32, 5, 18, 31, 10) as bv32) << 16)
    | ((Four(w, 32, 2, 8, 24, 14) as bv32) << 12) | ((Four(w, 32, 32, 27, 3, 9) as bv32) << 8)
    | ((Four(w, 32, 19, 13, 30, 6) as bv32) << 4) | (Four(w, 32, 22, 11, 4, 25) as bv32)
  }

  lemma PlacedHigh(x: Half, s: bv32)
    requires Is32(x, s)
    ensures |P| == 32 && Is16(Permute(x, P), 0, (Placed(s) >> 16) as bv16)
  {
  }

  lemma PlacedLow(x: Half, s: bv32)
    requires Is32(x, s)
    ensures |P| == 32 && Is16(Permute(x, P), 16, (Placed(s) & 0xffff) as bv16)
  {
  }

  lemma PlacedIs(x: Half, s: bv32)
    requires Is32(x, s)
    ensures |P| == 32 && Is32(Permute(x, P), Placed(s))
  {
    TableSizes();
    hide Is16, P, Permute, Placed;
    PlacedHigh(x, s);
    PlacedLow(x, s);
  }

  // ----- the key schedule -----

  function ChoiceC(w: bv64): bv28
  {
    ((Four(w, 64, 57, 49, 41, 33) as bv28) << 24) | ((Four(w, 64, 25, 17, 9, 1) as bv28) << 20)
    | ((Four(w, 64, 58, 50, 42, 34) as bv28) << 16) | ((Four(w, 64, 26, 18, 10, 2) as bv28) << 12)
    | ((Four(w, 64, 59, 51, 43, 35) as bv28) << 8) | ((Four(w, 64, 27, 19, 11, 3) as bv28) << 4)
    | (Four(w, 64, 60, 52, 44, 36) as bv28)
  }

  function ChoiceD(w: bv64): bv28
  {
    ((Four(w, 64, 63, 55, 47, 39) as bv28) << 24) | ((Four(w, 64, 31, 23, 15, 7) as bv28) << 20)
    | ((Four(w, 64, 62, 54, 46, 38) as bv28) << 16) | ((Four(w, 64, 30, 22, 14, 6) as bv28) << 12)
    | ((Four(w, 64, 61, 53, 45, 37) as bv28) << 8) | ((Four(w, 64, 29, 21, 13, 5) as bv28) << 4)
    | (Four(w, 64, 28, 20, 12, 4) as bv28)
  }

  lemma ChoiceCHigh(x: Bits64, w: bv64)
    requires Is64(x, w)
    ensures |PC_1_C| == 28 && Is16(Permute(x, PC_1_C), 0, (ChoiceC(w) >> 12) as bv16)
  {
  }

  lemma ChoiceCLow(x: Bits64, w: bv64)
    requires Is64(x, w)
    ensures |PC_1_C| == 28 && Is12(Permute(x, PC_1_C), 16, (ChoiceC(w) & 0xfff) as bv12)
  {
  }

  lemma ChoiceDHigh(x: Bits64, w: bv64)
    requires Is64(x, w)
    ensures |PC_1_D| == 28 && Is16(Permute(x, PC_1_D), 0, (ChoiceD(w) >> 12) as bv16)
  {
  }

  lemma ChoiceDLow(x: Bits64, w: bv64)
    requires Is64(x, w)
    ensures |PC_1_D| == 28 && Is12(Permute(x, PC_1_D), 16, (ChoiceD(w) & 0xfff) as bv12)
  {
  }

  function Subkey48(c: bv28, d: bv28): bv48
  {
    var w := (c as bv64 << 28) | (d as bv64);
    ((Four(w, 56, 14, 17, 11, 24) as bv48) << 44) | ((Four(w, 56, 1, 5, 3, 28) as bv48) << 40)
    | ((Four(w, 56, 15, 6, 21, 10) as bv48) << 36) | ((Four(w, 56, 23, 19, 12, 4) as bv48) << 32)
    | ((Four(w, 56, 26, 8, 16, 7) as bv48) << 28) | ((Four(w, 56, 27, 20, 13, 2) as bv48) << 24)
    | ((Four(w, 56, 41, 52, 31, 37) as bv48) << 20) | ((Four(w, 56, 47, 55, 30, 40) as bv48) << 16)
    | ((Four(w, 56, 51, 45, 33, 48) as bv48) << 12) | ((Four(w, 56, 44, 49, 39, 56) as bv48) << 8)
    | ((Four(w, 56, 34, 53, 46, 42) as bv48) << 4) | (Four(w, 56, 50, 36, 29, 32) as bv48)
  }

  lemma SubkeyHigh(x: seq<Bit>, y: seq<Bit>, c: bv28, d: bv28)
    requires Is28(x, c) && Is28(y, d)
    ensures |PC_2| == 48 && Is16(Permute(x + y, PC_2), 0, (Subkey48(c, d) >> 32) as bv16)
  {
  }

  lemma SubkeyMiddle(x: seq<Bit>, y: seq<Bit>, c: bv28, d: bv28)
    requires Is28(x, c) && Is28(y, d)
    ensures |PC_2| == 48 && Is16(Permute(x + y, PC_2), 16, ((Subkey48(c, d) >> 16) & 0xffff) as bv16)
  {
  }

  lemma SubkeyLow(x: seq<Bit>, y: seq<Bit>, c: bv28, d: bv28)
    requires Is28(x, c) && Is28(y, d)
    ensures |PC_2| == 48 && Is16(Permute(x + y, PC_2), 32, (Subkey48(c, d) & 0xffff) as bv16)
  {
  }

  lemma SubkeyIs(x: seq<Bit>, y: seq<Bit>, c: bv28, d: bv28)
    requires Is28(x, c) && Is28(y, d)
    ensures |PC_2| == 48 && Is48(Permute(x + y, PC_2), Subkey48(c, d))
  {
    TableSizes();
    hide Is16, Is12, PC_2, Permute, Subkey48;
    SubkeyHigh(x, y, c, d);
    SubkeyMiddle(x, y, c, d);
    SubkeyLow(x, y, c, d);
  }

  /** The halves move by one place in rounds 1, 2, 9 and 16, and by two in the others. */
  function Turned(c: bv28, n: nat): bv28
  {
    if n == 1 || n == 2 || n == 9 || n == 16 then (c << 1) | (c >> 27) else (c << 2) | (c >> 26)
  }

  lemma TurnedIs(x: seq<Bit>, c: bv28, n: nat)
    requires Is28(x, c) && 1 <= n <= 16
    ensures |LS_COUNT| == 16 && Is28(Rotate(x, LS_COUNT[n - 1]), Turned(c, n))
  {
    Counts();
    if n == 1 || n == 2 || n == 9 || n == 16 {
      TurnOne(x, c);
    } else {
      TurnTwo(x, c);
    }
  }

  lemma Counts()
    ensures |LS_COUNT| == 16
    ensures forall j :: 0 <= j < 16 ==> LS_COUNT[j] == if j == 0 || j == 1 || j == 8 || j == 15 then 1 else 2
  {
  }

  lemma TurnOne(x: seq<Bit>, w: bv28)
    requires Is28(x, w)
    ensures Is28(Rotate(x, 1), (w << 1) | (w >> 27))
  {
  }

  lemma TurnTwo(x: seq<Bit>, w: bv28)
    requires Is28(x, w)
    ensures Is28(Rotate(x, 2), (w << 2) | (w >> 26))
  {
  }

  function KeyWords(key: bv64, n: nat): (bv28, bv28)
  {
    if n == 0 then (ChoiceC(key), ChoiceD(key))
    else
      var (c, d) := KeyWords(key, n - 1);
      (Turned(c, n), Turned(d, n))
  }

  function RoundKeyWord(key: bv64, n: nat): bv48
  {
    Subkey48(KeyWords(key, n).0, KeyWords(key, n).1)
  }

  lemma ChosenAre(x: Bits64, key: bv64)
    requires Is64(x, key)
    ensures |PC_1_C| == |PC_1_D| == 28
    ensures Is28(Permute(x, PC_1_C), ChoiceC(key)) && Is28(Permute(x, PC_1_D), ChoiceD(key))
  {
    TableSizes();
    hide Is12, Is16, Is64, PC_1_C, PC_1_D, ChoiceC, ChoiceD, Permute;
    ChoiceCHigh(x, key);
    ChoiceCLow(x, key);
    ChoiceDHigh(x, key);
    ChoiceDLow(x, key);
  }

  lemma {:induction false} KeyWordsAre(x: Bits64, key: bv64, n: nat)
    requires Is64(x, key) && n <= 16
    ensures |PC_1_C| == |PC_1_D| == 28
    ensures Is28(KeyHalf(x, PC_1_C, n), KeyWords(key, n).0) && Is28(KeyHalf(x, PC_1_D, n), KeyWords(key, n).1)
  {
    TableSizes();
    hide Is28, Is64, PC_1_C, PC_1_D, LS_COUNT, ChoiceC, ChoiceD, Turned, Rotate, Permute;
    if n == 0 {
      ChosenAre(x, key);
    } else {
      KeyWordsAre(x, key, n - 1);
      TurnedIs(KeyHalf(x, PC_1_C, n - 1), KeyWords(key, n - 1).0, n);
      TurnedIs(KeyHalf(x, PC_1_D, n - 1), KeyWords(key, n - 1).1, n);
    }
  }

  lemma RoundKeyWordIs(x: Bits64, key: bv64, n: nat)
    requires Is64(x, key) && 1 <= n <= 16
    ensures Is48(RoundKey(x, n), RoundKeyWord(key, n))
  {
    TableSizes();
    hide Is28, Is48, Is64, PC_1_C, PC_1_D, PC_2, KeyHalf, KeyWords, Subkey48, Permute;
    KeyWordsAre(x, key, n);
    SubkeyIs(KeyHalf(x, PC_1_C, n), KeyHalf(x, PC_1_D, n), KeyWords(key, n).0, KeyWords(key, n).1);
  }

  // ----- the S-boxes -----

  predicate Six(x: seq<Bit>, k: nat, b: bv6)
    requires k + 6 <= |x|
  {
    && x[k] == (if b & 0x20 != 0 then 1 else 0) && x[k + 1] == (if b & 0x10 != 0 then 1 else 0)
    && x[k + 2] == (if b & 8 != 0 then 1 else 0) && x[k + 3] == (if b & 4 != 0 then 1 else 0)
    && x[k + 4] == (if b & 2 != 0 then 1 else 0) && x[k + 5] == (if b & 1 != 0 then 1 else 0)
  }

  function SixOf(a: bv48, i: bv6): bv6
    requires i <= 7
  {
    ((a >> (42 - 6 * i)) & 0x3f) as bv6
  }

  lemma SixesAre(x: seq<Bit>, a: bv48)
    requires Is48(x, a)
    ensures Six(x, 0, SixOf(a, 0)) && Six(x, 6, SixOf(a, 1)) && Six(x, 12, SixOf(a, 2)) && Six(x, 18, SixOf(a, 3))
    ensures Six(x, 24, SixOf(a, 4)) && Six(x, 30, SixOf(a, 5)) && Six(x, 36, SixOf(a, 6)) && Six(x, 42, SixOf(a, 7))
  {
  }

  /** The S-boxes, the sixteen entries of a row as the digits of a number. */
  function BoxRow(i: nat, row: bv2): bv64
    requires i < 8
  {
    match i
    case 0 =>
      if row == 0 then 0xE4D12FB83A6C5907 else if row == 1 then 0x0F74E2D1A6CB9538
      else if row == 2 then 0x41E8D62BFC973A50 else 0xFC8249175B3EA06D
    case 1 =>
      if row == 0 then 0xF18E6B34972DC05A else if row == 1 then 0x3D47F28EC01A69B5
      else if row == 2 then 0x0E7BA4D158C6932F else 0xD8A13F42B67C05E9
    case 2 =>
      if row == 0 then 0xA09E63F51DC7B428 else if row == 1 then 0xD709346A285ECBF1
      else if row == 2 then 0xD6498F30B12C5AE7 else 0x1AD069874FE3B52C
    case 3 =>
      if row == 0 then 0x7DE3069A1285BC4F else if row == 1 then 0xD8B56F03472C1AE9
      else if row == 2 then 0xA690CB7DF13E5284 else 0x3F06A1D8945BC72E
    case 4 =>
      if row == 0 then 0x2C417AB6853FD0E9 else if row == 1 then 0xEB2C47D150FA3986
      else if row == 2 then 0x421BAD78F9C5630E else 0xB8C71E2D6F09A453
    case 5 =>
      if row == 0 then 0xC1AF92680D34E75B else if row == 1 then 0xAF427C9561DE0B38
      else if row == 2 then 0x9EF528C3704A1DB6 else 0x432C95FABE17608D
    case 6 =>
      if row == 0 then 0x4B2EF08D3C975A61 else if row == 1 then 0xD0B7491AE35C2F86
      else if row == 2 then 0x14BDC37EAF680592 else 0x6BD814A7950FE23C
    case _ =>
      if row == 0 then 0xD2846FB1A93E50C7 else if row == 1 then 0x1FD8A374C56B0E92
      else if row == 2 then 0x7B419CE206ADF358 else 0x21E74A8DFC90356B
  }

  /** The outer two of six bits choose the row, the inner four the column. */
  function Look(i: nat, six: bv6): bv4
    requires i < 8
  {
    ((BoxRow(i, ((six >> 4) & 2) as bv2 | (six & 1) as bv2) >> (60 - 4 * ((six >> 1) & 0xf))) & 0xf) as bv4
  }

  /** The row of a table and the digits of a number are the same. */
  predicate SameRow(row: SRow, w: bv64)
  {
    && row[0] == ((w >> 60) & 0xf) as int && row[1] == ((w >> 56) & 0xf) as int
    && row[2] == ((w >> 52) & 0xf) as int && row[3] == ((w >> 48) & 0xf) as int
    && row[4] == ((w >> 44) & 0xf) as int && row[5] == ((w >> 40) & 0xf) as int
    && row[6] == ((w >> 36) & 0xf) as int && row[7] == ((w >> 32) & 0xf) as int
    && row[8] == ((w >> 28) & 0xf) as int && row[9] == ((w >> 24) & 0xf) as int
    && row[10] == ((w >> 20) & 0xf) as int && row[11] == ((w >> 16) & 0xf) as int
    && row[12] == ((w >> 12) & 0xf) as int && row[13] == ((w >> 8) & 0xf) as int
    && row[14] == ((w >> 4) & 0xf) as int && row[15] == (w & 0xf) as int
  }

  lemma Box1Rows()
    ensures SameRow(SSS[0][0], 0xE4D12FB83A6C5907) && SameRow(SSS[0][1], 0x0F74E2D1A6CB9538)
    ensures SameRow(SSS[0][2], 0x41E8D62BFC973A50) && SameRow(SSS[0][3], 0xFC8249175B3EA06D)
  {
  }

  lemma Box2Rows()
    ensures SameRow(SSS[1][0], 0xF18E6B34972DC05A) && SameRow(SSS[1][1], 0x3D47F28EC01A69B5)
    ensures SameRow(SSS[1][2], 0x0E7BA4D158C6932F) && SameRow(SSS[1][3], 0xD8A13F42B67C05E9)
  {
  }

  lemma Box3Rows()
    ensures SameRow(SSS[2][0], 0xA09E63F51DC7B428) && SameRow(SSS[2][1], 0xD709346A285ECBF1)
    ensures SameRow(SSS[2][2], 0xD6498F30B12C5AE7) && SameRow(SSS[2][3], 0x1AD069874FE3B52C)
  {
  }

  lemma Box4Rows()
    ensures SameRow(SSS[3][0], 0x7DE3069A1285BC4F) && SameRow(SSS[3][1], 0xD8B56F03472C1AE9)
    ensures SameRow(SSS[3][2], 0xA690CB7DF13E5284) && SameRow(SSS[3][3], 0x3F06A1D8945BC72E)
  {
  }

  lemma Box5Rows()
    ensures SameRow(SSS[4][0], 0x2C417AB6853FD0E9) && SameRow(SSS[4][1], 0xEB2C47D150FA3986)
    ensures SameRow(SSS[4][2], 0x421BAD78F9C5630E) && SameRow(SSS[4][3], 0xB8C71E2D6F09A453)
  {
  }

  lemma Box6Rows()
    ensures SameRow(SSS[5][0], 0xC1AF92680D34E75B) && SameRow(SSS[5][1], 0xAF427C9561DE0B38)
    ensures SameRow(SSS[5][2], 0x9EF528C3704A1DB6) && SameRow(SSS[5][3], 0x432C95FABE17608D)
  {
  }

  lemma Box7Rows()
    ensures SameRow(SSS[6][0], 0x4B2EF08D3C975A61) && SameRow(SSS[6][1], 0xD0B7491AE35C2F86)
    ensures SameRow(SSS[6][2], 0x14BDC37EAF680592) && SameRow(SSS[6][3], 0x6BD814A7950FE23C)
  {
  }

  lemma Box8Rows()
    ensures SameRow(SSS[7][0], 0xD2846FB1A93E50C7) && SameRow(SSS[7][1], 0x1FD8A374C56B0E92)
    ensures SameRow(SSS[7][2], 0x7B419CE206ADF358) && SameRow(SSS[7][3], 0x21E74A8DFC90356B)
  {
  }

  lemma BoxRows(i: nat, row: bv2)
    requires i < 8
    ensures SameRow(SSS[i][row as int], BoxRow(i, row))
  {
    Box1Rows();
    Box2Rows();
    Box3Rows();
    Box4Rows();
    Box5Rows();
    Box6Rows();
    Box7Rows();
    Box8Rows();
    hide SSS, SameRow;
    assert row == 0 || row == 1 || row == 2 || row == 3;
    assert i == 0 || i == 1 || i == 2 || i == 3 || i == 4 || i == 5 || i == 6 || i == 7;
  }

  lemma DigitAt(row: SRow, w: bv64, z: bv6)
    requires SameRow(row, w) && z < 16
    ensures row[z as int] == ((w >> (60 - 4 * z)) & 0xf) as int
  {
    assert z == 0 || z == 1 || z == 2 || z == 3 || z == 4 || z == 5 || z == 6 || z == 7
      || z == 8 || z == 9 || z == 10 || z == 11 || z == 12 || z == 13 || z == 14 || z == 15;
  }

  lemma SixNumbers(six: bv6)
    ensures (((six >> 4) & 2) as bv2 | (six & 1) as bv2) as int
         == (if six & 0x20 != 0 then 2 else 0) + (if six & 1 != 0 then 1 else 0)
    ensures ((six >> 1) & 0xf) as int
         == (if six & 0x10 != 0 then 8 else 0) + (if six & 8 != 0 then 4 else 0)
            + (if six & 4 != 0 then 2 else 0) + (if six & 2 != 0 then 1 else 0)
  {
  }

  lemma RowAndColumn(x: Subkey, j: nat, six: bv6)
    requires j + 6 <= 48 && Six(x, j, six)
    ensures x[j] as int * 2 + x[j + 5] as int == (((six >> 4) & 2) as bv2 | (six & 1) as bv2) as int
    ensures x[j + 1] as int * 8 + x[j + 2] as int * 4 + x[j + 3] as int * 2 + x[j + 4] as int
         == ((six >> 1) & 0xf) as int
  {
    SixNumbers(six);
  }

  lemma LookIs(x: Subkey, i: nat, six: bv6)
    requires i < 8 && Six(x, 6 * i, six)
    ensures SubstituteAt(x, i) == Look(i, six) as int
  {
    var y, z := ((six >> 4) & 2) as bv2 | (six & 1) as bv2, (six >> 1) & 0xf;
    RowAndColumn(x, 6 * i, six);
    hide SSS, BoxRow, SameRow, Six;
    BoxRows(i, y);
    DigitAt(SSS[i][y as int], BoxRow(i, y), z);
  }

  lemma DigitBits(b: bv4)
    ensures NibbleBit(b as int, 0) == (if b & 8 != 0 then 1 else 0)
    ensures NibbleBit(b as int, 1) == (if b & 4 != 0 then 1 else 0)
    ensures NibbleBit(b as int, 2) == (if b & 2 != 0 then 1 else 0)
    ensures NibbleBit(b as int, 3) == (if b & 1 != 0 then 1 else 0)
  {
  }

  function Eight(a: bv4, b: bv4, c: bv4, d: bv4, e: bv4, f: bv4, g: bv4, h: bv4): bv32
  {
    (a as bv32 << 28) | (b as bv32 << 24) | (c as bv32 << 20) | (d as bv32 << 16)
    | (e as bv32 << 12) | (f as bv32 << 8) | (g as bv32 << 4) | (h as bv32)
  }

  function Boxed(a: bv48): bv32
  {
    Eight(Look(0, SixOf(a, 0)), Look(1, SixOf(a, 1)),
          Look(2, SixOf(a, 2)), Look(3, SixOf(a, 3)),
          Look(4, SixOf(a, 4)), Look(5, SixOf(a, 5)),
          Look(6, SixOf(a, 6)), Look(7, SixOf(a, 7)))
  }

  lemma EightNibs(x: seq<Bit>, a: bv4, b: bv4, c: bv4, d: bv4, e: bv4, f: bv4, g: bv4, h: bv4)
    requires |x| == 32 && Nib(x, 0, a) && Nib(x, 4, b) && Nib(x, 8, c) && Nib(x, 12, d)
    requires Nib(x, 16, e) && Nib(x, 20, f) && Nib(x, 24, g) && Nib(x, 28, h)
    ensures Is32(x, Eight(a, b, c, d, e, f, g, h))
  {
  }

  lemma BoxNib(x: Subkey, i: nat, six: bv6)
    requires i < 8 && Six(x, 6 * i, six)
    ensures Nib(SBoxes(x), 4 * i, Look(i, six))
  {
    LookIs(x, i, six);
    DigitBits(Look(i, six));
    hide SubstituteAt, Look, NibbleBit, Six, SBoxes;
    BoxBit(x, i, 0);
    BoxBit(x, i, 1);
    BoxBit(x, i, 2);
    BoxBit(x, i, 3);
  }

  lemma BoxBit(x: Subkey, i: nat, j: nat)
    requires i < 8 && j < 4
    ensures SBoxes(x)[4 * i + j] == NibbleBit(SubstituteAt(x, i), j)
  {
    hide SubstituteAt, NibbleBit;
    assert (4 * i + j) / 4 == i && (4 * i + j) % 4 == j;
  }

  lemma BoxedIs(x: Subkey, a: bv48)
    requires Is48(x, a)
    ensures Is32(SBoxes(x), Boxed(a))
  {
    SixesAre(x, a);
    hide Is32, Is48, SBoxes, Six, SixOf, Look, Eight;
    BoxNib(x, 0, SixOf(a, 0));
    BoxNib(x, 1, SixOf(a, 1));
    BoxNib(x, 2, SixOf(a, 2));
    BoxNib(x, 3, SixOf(a, 3));
    BoxNib(x, 4, SixOf(a, 4));
    BoxNib(x, 5, SixOf(a, 5));
    BoxNib(x, 6, SixOf(a, 6));
    BoxNib(x, 7, SixOf(a, 7));
    EightNibs(SBoxes(x), Look(0, SixOf(a, 0)), Look(1, SixOf(a, 1)),
              Look(2, SixOf(a, 2)), Look(3, SixOf(a, 3)),
              Look(4, SixOf(a, 4)), Look(5, SixOf(a, 5)),
              Look(6, SixOf(a, 6)), Look(7, SixOf(a, 7)));
  }

  // ----- the cipher -----

  lemma XorCases()
    ensures forall a: Bit, b: Bit :: XorBit(a, b) == if a == b then 0 else 1
  {
  }

  lemma XorNib(x: seq<Bit>, y: seq<Bit>, k: nat, a: bv4, b: bv4)
    requires |x| == |y| && k + 4 <= |x| && Nib(x, k, a) && Nib(y, k, b)
    ensures Nib(XorBits(x, y), k, a ^ b)
  {
    XorCases();
    hide XorBit;
  }

  lemma XorIs16(x: seq<Bit>, y: seq<Bit>, k: nat, a: bv16, b: bv16)
    requires |x| == |y| && k + 16 <= |x| && Is16(x, k, a) && Is16(y, k, b)
    ensures Is16(XorBits(x, y), k, a ^ b)
  {
    hide Nib, XorBits;
    XorNib(x, y, k, (a >> 12) as bv4, (b >> 12) as bv4);
    XorNib(x, y, k + 4, ((a >> 8) & 0xf) as bv4, ((b >> 8) & 0xf) as bv4);
    XorNib(x, y, k + 8, ((a >> 4) & 0xf) as bv4, ((b >> 4) & 0xf) as bv4);
    XorNib(x, y, k + 12, (a & 0xf) as bv4, (b & 0xf) as bv4);
  }

  lemma XorIs32(x: seq<Bit>, y: seq<Bit>, a: bv32, b: bv32)
    requires Is32(x, a) && Is32(y, b)
    ensures Is32(XorBits(x, y), a ^ b)
  {
    hide Is16, XorBits;
    XorIs16(x, y, 0, (a >> 16) as bv16, (b >> 16) as bv16);
    XorIs16(x, y, 16, (a & 0xffff) as bv16, (b & 0xffff) as bv16);
  }

  lemma XorIs48(x: seq<Bit>, y: seq<Bit>, a: bv48, b: bv48)
    requires Is48(x, a) && Is48(y, b)
    ensures Is48(XorBits(x, y), a ^ b)
  {
    hide Is16, XorBits;
    XorIs16(x, y, 0, (a >> 32) as bv16, (b >> 32) as bv16);
    XorIs16(x, y, 16, ((a >> 16) & 0xffff) as bv16, ((b >> 16) & 0xffff) as bv16);
    XorIs16(x, y, 32, (a & 0xffff) as bv16, (b & 0xffff) as bv16);
  }

  function MixWord(r: bv32, k: bv48): bv32
  {
    Placed(Boxed(Widened(r) ^ k))
  }

  lemma MixWordIs(x: Half, y: Subkey, r: bv32, k: bv48)
    requires Is32(x, r) && Is48(y, k)
    ensures Is32(Mix(x, y), MixWord(r, k))
  {
    TableSizes();
    hide Is32, Is48, Permute, XorBits, SBoxes, E_R, P, Widened, Boxed, Placed;
    WidenedIs(x, r);
    var a: Subkey := XorBits(Permute(x, E_R), y);
    XorIs48(Permute(x, E_R), y, Widened(r), k);
    BoxedIs(a, Widened(r) ^ k);
    PlacedIs(SBoxes(a), Boxed(Widened(r) ^ k));
  }

  function Rounds(key: bv64, n: nat, l: bv32, r: bv32): (bv32, bv32)
    decreases n
  {
    if n == 0 then (l, r)
    else
      var (l1, r1) := Rounds(key, n - 1, l, r);
      (r1, MixWord(r1, RoundKeyWord(key, n)) ^ l1)
  }

  lemma {:induction false} RoundsAre(x: Half, y: Half, l: bv32, r: bv32, kb: Block, key: bv64, n: nat)
    requires Is32(x, l) && Is32(y, r) && Is64(Expand(kb), key) && n <= 16
    ensures var (a, b) := Forward(Keys(kb), n, x, y);
            Is32(a, Rounds(key, n, l, r).0) && Is32(b, Rounds(key, n, l, r).1)
    decreases n
  {
    hide Is32, Is48, Is64, Expand, Mix, MixWord, XorBits, RoundKey, RoundKeyWord;
    if n == 0 {
    } else {
      RoundsAre(x, y, l, r, kb, key, n - 1);
      var (a, b) := Forward(Keys(kb), n - 1, x, y);
      var (l1, r1) := Rounds(key, n - 1, l, r);
      RoundKeyWordIs(Expand(kb), key, n);
      MixWordIs(b, Keys(kb)[n - 1], r1, RoundKeyWord(key, n));
      XorIs32(Mix(b, Keys(kb)[n - 1]), a, MixWord(r1, RoundKeyWord(key, n)), l1);
    }
  }

  function EncryptWord(w: bv64, key: bv64): bv64
  {
    var (l, r) := Rounds(key, 16, FirstLeft(w), FirstRight(w));
    Join(LastLeft(Join(r, l)), LastRight(Join(r, l)))
  }

  lemma Cut(x: Bits64, a: bv16, b: bv16, c: bv16, d: bv16)
    requires Is16(x, 0, a) && Is16(x, 16, b) && Is16(x, 32, c) && Is16(x, 48, d)
    ensures Is16(x[..32], 0, a) && Is16(x[..32], 16, b) && Is16(x[32..], 0, c) && Is16(x[32..], 16, d)
  {
    var l, r := x[..32], x[32..];
    assert forall k :: 0 <= k < 32 ==> l[k] == x[k];
    assert forall k :: 32 <= k < 64 ==> x[k] == r[k - 32];
  }

  lemma HalvesAre(w: bv64)
    ensures var (x, y) := Halves(BlockOf(w)); Is32(x, FirstLeft(w)) && Is32(y, FirstRight(w))
  {
    TableSizes();
    hide Is16, Is64, Expand, BlockOf, IP_TAB, Permute, FirstLeft, FirstRight;
    ExpandedBlock(w);
    var x := Expand(BlockOf(w));
    FirstLeftHigh(x, w);
    FirstLeftLow(x, w);
    FirstRightHigh(x, w);
    FirstRightLow(x, w);
    Cut(Permute(x, IP_TAB), (FirstLeft(w) >> 16) as bv16, (FirstLeft(w) & 0xffff) as bv16,
        (FirstRight(w) >> 16) as bv16, (FirstRight(w) & 0xffff) as bv16);
  }

  lemma JoinIs(x: Half, y: Half, l: bv32, r: bv32)
    requires Is32(x, l) && Is32(y, r)
    ensures Is64(x + y, Join(l, r))
  {
    Parts(l, r);
    hide Join;
    Beside(x, y);
    hide Nib;
    SameBits(x, x + y, 0, (l >> 16) as bv16, (l & 0xffff) as bv16);
    SameBits(y, x + y, 32, (r >> 16) as bv16, (r & 0xffff) as bv16);
  }

  lemma Beside(x: Half, y: Half)
    ensures forall k :: 0 <= k < 32 ==> (x + y)[k] == x[k] && (x + y)[k + 32] == y[k]
  {
  }

  lemma SameBits(x: Half, z: seq<Bit>, at: nat, a: bv16, b: bv16)
    requires at + 32 <= |z| && forall k :: 0 <= k < 32 ==> z[at + k] == x[k]
    requires Is16(x, 0, a) && Is16(x, 16, b)
    ensures Is16(z, at, a) && Is16(z, at + 16, b)
  {
  }

  lemma JoinedIs(x: Half, y: Half, l: bv32, r: bv32)
    requires Is32(x, l) && Is32(y, r)
    ensures var w := Join(r, l); Joined(x, y) == BlockOf(Join(LastLeft(w), LastRight(w)))
  {
    TableSizes();
    var w := Join(r, l);
    var out := Join(LastLeft(w), LastRight(w));
    hide IP_INV, Permute, Join, LastLeft, LastRight, Is32, Is64, Expand, Compress, BlockOf;
    JoinIs(y, x, r, l);
    LastIs(y + x, w);
    ExpandedBlock(out);
    OneWord(Permute(y + x, IP_INV), Expand(BlockOf(out)), out);
    CompressOfExpand(BlockOf(out));
  }

  /** The cipher on bits and the cipher on words are one function. */
  lemma EncryptIsWords(w: bv64, key: bv64)
    ensures Encrypt(BlockOf(w), BlockOf(key)) == BlockOf(EncryptWord(w, key))
  {
    ExpandedBlock(key);
    HalvesAre(w);
    hide Is32, Is64, Expand, Keys, Halves, Forward, Joined, Rounds, BlockOf, Join;
    hide FirstLeft, FirstRight, LastLeft, LastRight;
    var (x, y) := Halves(BlockOf(w));
    RoundsAre(x, y, FirstLeft(w), FirstRight(w), BlockOf(key), key, 16);
    var (a, b) := Forward(Keys(BlockOf(key)), 16, x, y);
    var (l, r) := Rounds(key, 16, FirstLeft(w), FirstRight(w));
    JoinedIs(a, b, l, r);
  }
}
