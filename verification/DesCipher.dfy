// The DES routines as the program runs them: static key tables, local bit arrays and
// loops, with the result written over a buffer that may also be the source.

module DesCipher {
  import opened DesTables
  import opened DesSpec
  import opened Hex

  const ENCRYPT: byte := 0
  const DECRYPT: byte := 1

  predicate Encrypts(flag: byte)
  {
    flag == ENCRYPT || flag == 0x65 || flag == 0x45
  }

  lemma EncryptingFlags(flag: byte)
    ensures Encrypts(flag) <==> flag in {0, 0x45, 0x65}
  {
  }

  /** expand0 */
  method Expand0(x: array<byte>, out: array<Bit>)
    requires x.Length >= 8 && out.Length == 64 && x as object != out as object
    modifies out
    ensures out[..] == Expand(x[..8])
  {
    hide BitOf, Weight, BitAt, Expand;
    ghost var src: Block := x[..8];
    for i := 0 to 8
      invariant x[..8] == src
      invariant forall k :: 0 <= k < 8 * i ==> out[k] == Expand(src)[k]
    {
      assert x[i] == x[..8][i];
      ExpandByte(x[i], out, 8 * i, src, i);
    }
  }

  /** The inner loop of expand0, for the i-th byte. */
  method ExpandByte(b: byte, out: array<Bit>, from: nat, ghost x: Block, ghost i: nat)
    requires i < 8 && from == 8 * i && out.Length == 64 && b == x[i]
    modifies out
    ensures forall k :: from <= k < from + 8 ==> out[k] == Expand(x)[k]
    ensures forall k :: 0 <= k < from ==> out[k] == old(out[k])
  {
    hide BitOf, BitAt, Expand;
    var divide: byte := 0x80;
    for j := 0 to 8
      invariant divide == Weight(j)
      invariant forall k :: from <= k < from + j ==> out[k] == Expand(x)[k]
      invariant forall k :: 0 <= k < from ==> out[k] == old(out[k])
    {
      BitOfExpand(x, i, j);
      out[from + j] := BitOf(b, divide);
      divide := divide / 2;
      assert Weight(j + 1) == Weight(j) / 2;
    }
  }

  /** compress0 */
  method Compress0(bits: array<Bit>, x: array<byte>)
    requires bits.Length == 64 && x.Length >= 8 && bits as object != x as object
    modifies x
    ensures x[..8] == Compress(bits[..])
    ensures forall k :: 8 <= k < x.Length ==> x[k] == old(x[k])
  {
    hide Gather;
    ghost var src := bits[..];
    for i := 0 to 8
      invariant bits[..] == src
      invariant forall k :: 0 <= k < i ==> x[k] == Gather(src, 8 * k, 8)
      invariant forall k :: 8 <= k < x.Length ==> x[k] == old(x[k])
    {
      CompressByte(bits, x, i);
    }
  }

  /** The inner loop of compress0, for the i-th byte. */
  method CompressByte(bits: array<Bit>, x: array<byte>, i: nat)
    requires bits.Length == 64 && i < 8 <= x.Length && bits as object != x as object
    modifies x
    ensures x[i] == Gather(bits[..], 8 * i, 8)
    ensures forall k :: 0 <= k < x.Length && k != i ==> x[k] == old(x[k])
  {
    hide Scaled, Add;
    ghost var src := bits[..];
    var times: byte := 0x80;
    x[i] := 0;
    for j := 0 to 8
      invariant times == Weight(j) && bits[..] == src
      invariant x[i] == Gather(src, 8 * i, j)
      invariant forall k :: 0 <= k < x.Length && k != i ==> x[k] == old(x[k])
    {
      GatherStep(src, 8 * i, j);
      assert bits[8 * i + j] == src[8 * i + j];
      x[i] := Add(x[i], Scaled(bits[8 * i + j], times));
      times := times / 2;
      assert Weight(j + 1) == Weight(j) / 2;
    }
  }

  /** One loop that picks the entries of a table, as ip, _ip, F, setkeystar and son do. */
  method Pick(x: array<Bit>, table: seq<int>, out: array<Bit>)
    requires x != out && |table| <= out.Length
    requires forall k :: 0 <= k < |table| ==> 1 <= table[k] <= x.Length
    modifies out
    ensures out[..|table|] == Permute(x[..], table)
    ensures forall k :: |table| <= k < out.Length ==> out[k] == old(out[k])
  {
    for i := 0 to |table|
      invariant forall k :: 0 <= k < i ==> out[k] == x[table[k] - 1]
      invariant forall k :: |table| <= k < out.Length ==> out[k] == old(out[k])
    {
      out[i] := x[table[i] - 1];
    }
  }

  /** s_box */
  method SBoxLookup(aa: array<Bit>, bb: array<Bit>)
    requires aa.Length >= 48 && bb.Length >= 32 && aa != bb
    modifies bb
    ensures bb[..32] == SBoxes(aa[..48])
  {
    hide SubstituteAt, NibbleBit;
    ghost var y := SBoxes(aa[..48]);
    for i := 0 to 8
      invariant forall k :: 0 <= k < 4 * i ==> bb[k] == y[k]
    {
      NibbleOut(SubstituteAt(aa[..48], i), bb, 4 * i);
      assert forall k :: 4 * i <= k < 4 * i + 4 ==> k / 4 == i && k % 4 == k - 4 * i;
    }
  }

  /** The inner loop of s_box. */
  method NibbleOut(ss: Nibble, bb: array<Bit>, from: nat)
    requires from + 4 <= bb.Length
    modifies bb
    ensures forall k :: from <= k < from + 4 ==> bb[k] == NibbleBit(ss, k - from)
    ensures forall k :: 0 <= k < from ==> bb[k] == old(bb[k])
  {
    var y := 8;
    for k := 0 to 4
      invariant y == [8, 4, 2, 1, 0][k]
      invariant forall m :: from <= m < from + k ==> bb[m] == NibbleBit(ss, m - from)
      invariant forall m :: 0 <= m < from ==> bb[m] == old(bb[m])
    {
      bb[from + k] := ss as int / y % 2;
      y := y / 2;
    }
  }

  method XorInto(a: array<Bit>, b: array<Bit>, out: array<Bit>)
    requires a.Length == b.Length == out.Length == 64 && out != a && out != b
    modifies out
    ensures out[..32] == XorBits(a[..32], b[..32])
  {
    hide XorBit;
    for i := 0 to 32
      invariant forall j :: 0 <= j < i ==> out[j] == XorBit(a[j], b[j])
    {
      out[i] := XorBit(a[i], b[i]);
    }
  }

  method CopyBits(src: array<Bit>, dst: array<Bit>)
    requires src.Length == dst.Length == 64 && src != dst
    modifies dst
    ensures dst[..32] == src[..32]
  {
    for i := 0 to 32
      invariant forall j :: 0 <= j < i ==> dst[j] == src[j]
    {
      dst[i] := src[i];
    }
  }

  /** Row `row` of a table of bits. */
  ghost function Row(table: array2<Bit>, row: nat): (r: seq<Bit>)
    requires row < table.Length0
    reads table
    ensures |r| == table.Length1 && forall k :: 0 <= k < table.Length1 ==> r[k] == table[row, k]
  {
    seq(table.Length1, k requires 0 <= k < table.Length1 reads table => table[row, k])
  }

  /** The key tables, static in the program. */
  class KeyTables {
    const c: array2<Bit>
    const d: array2<Bit>
    const k: array2<Bit>

    ghost predicate Valid()
    {
      && c.Length0 == d.Length0 == k.Length0 == 17
      && c.Length1 == d.Length1 == 28 && k.Length1 == 48
      && c != d && c != k && d != k
    }

    constructor ()
      ensures Valid() && fresh(c) && fresh(d) && fresh(k)
    {
      c := new Bit[17, 28]((_, _) => 0);
      d := new Bit[17, 28]((_, _) => 0);
      k := new Bit[17, 48]((_, _) => 0);
    }

    /** The tables hold the schedule of a key. */
    ghost predicate Scheduled(bits: Bits64)
      requires Valid()
      reads k
    {
      forall n :: 1 <= n <= 16 ==> Row(k, n) == RoundKey(bits, n)
    }

    /** setkeystar */
    method SetKeyStar(bits: array<Bit>)
      requires Valid() && bits.Length == 64
      modifies c, d, k
      ensures Scheduled(bits[..])
    {
      TableSizes();
      hide RoundKey, KeyHalf;
      ghost var src: Bits64 := bits[..];
      Choose(bits, PC_1_C, c);
      Choose(bits, PC_1_D, d);
      for j := 0 to 16
        invariant Row(c, j) == KeyHalf(src, PC_1_C, j) && Row(d, j) == KeyHalf(src, PC_1_D, j)
        invariant forall n :: 1 <= n <= j ==> Row(k, n) == RoundKey(src, n)
      {
        label before:
        ShiftRow(c, j, LS_COUNT[j], src, PC_1_C);
        ShiftRow(d, j, LS_COUNT[j], src, PC_1_D);
        Son(j + 1, src);
      }
    }

    /** The first row of a table: the bits that a choice names. */
    method Choose(bits: array<Bit>, choice: seq<KeyPos>, table: array2<Bit>)
      requires |choice| == 28 && bits.Length == 64
      requires table.Length0 == 17 && table.Length1 == 28
      modifies table
      ensures Row(table, 0) == KeyHalf(bits[..], choice, 0)
    {
      for i := 0 to 28
        invariant forall m :: 0 <= m < i ==> table[0, m] == bits[choice[m] as int - 1]
      {
        table[0, i] := bits[choice[i] as int - 1];
      }
    }

    /** LS, from a row to the next. */
    method ShiftRow(table: array2<Bit>, j: nat, count: Shift, ghost bits: Bits64, ghost choice: seq<KeyPos>)
      requires table.Length0 == 17 && table.Length1 == 28 && j < 16 && |choice| == 28
      requires |LS_COUNT| == 16 && count == LS_COUNT[j] && Row(table, j) == KeyHalf(bits, choice, j)
      modifies table
      ensures Row(table, j + 1) == KeyHalf(bits, choice, j + 1)
    {
      ghost var row := Row(table, j);
      ghost var next := Rotate(row, count);
      var to := j + 1;
      for i := 0 to 28
        invariant Row(table, j) == row
        invariant forall m :: 0 <= m < i ==> table[to, m] == next[m]
      {
        table[to, i] := table[j, (i + count as int) % 28];
      }
      assert Row(table, to) == next;
    }

    /** son: the n-th round key out of the n-th rows. */
    method Son(n: nat, ghost bits: Bits64)
      requires Valid() && 1 <= n <= 16
      requires Row(c, n) == KeyHalf(bits, PC_1_C, n) && Row(d, n) == KeyHalf(bits, PC_1_D, n)
      modifies k
      ensures Row(k, n) == RoundKey(bits, n)
      ensures forall m :: 0 <= m < 17 && m != n ==> Row(k, m) == old(Row(k, m))
    {
      TableSizes();
      hide KeyHalf;
      var buffer := new Bit[56];
      for i := 0 to 28
        invariant forall m :: 0 <= m < i ==> buffer[m] == c[n, m]
        modifies buffer
      {
        buffer[i] := c[n, i];
      }
      for i := 28 to 56
        invariant forall m :: 0 <= m < 28 ==> buffer[m] == c[n, m]
        invariant forall m :: 28 <= m < i ==> buffer[m] == d[n, m - 28]
        modifies buffer
      {
        buffer[i] := d[n, i - 28];
      }
      ghost var all := buffer[..];
      assert all == Row(c, n) + Row(d, n);
      for i := 0 to 48
        invariant buffer[..] == all
        invariant forall m :: 0 <= m < i ==> k[n, m] == all[PC_2[m] as int - 1]
        invariant forall r, m :: 0 <= r < 17 && r != n && 0 <= m < 48 ==> k[r, m] == old(k[r, m])
      {
        k[n, i] := buffer[PC_2[i] as int - 1];
      }
    }

    /** F: one round, from (ll, rr) to (lo, ro). */
    method Round(n: nat, ll: array<Bit>, rr: array<Bit>, lo: array<Bit>, ro: array<Bit>)
      requires Valid() && 1 <= n <= 16
      requires ll.Length == rr.Length == lo.Length == ro.Length == 64
      requires ll != lo && ll != ro && rr != lo && rr != ro && lo != ro
      modifies lo, ro
      ensures lo[..32] == rr[..32]
      ensures ro[..32] == XorBits(Mix(rr[..32], Row(k, n)), ll[..32])
    {
      var buffer := new Bit[64];
      MixInto(n, rr, buffer);
      hide Mix;
      XorInto(buffer, ll, ro);
      CopyBits(rr, lo);
    }

    /** The loop of F that adds the round key. */
    method AddKey(n: nat, buffer: array<Bit>)
      requires Valid() && 1 <= n <= 16 && buffer.Length == 64
      modifies buffer
      ensures buffer[..48] == XorBits(old(buffer[..48]), Row(k, n))
    {
      hide XorBit;
      ghost var e, key := buffer[..48], Row(k, n);
      for i := 0 to 48
        invariant forall m :: 0 <= m < i ==> buffer[m] == XorBit(e[m], key[m])
        invariant forall m :: i <= m < 48 ==> buffer[m] == e[m]
      {
        buffer[i] := XorBit(buffer[i], k[n, i]);
      }
    }

    /** The first half of F: the bits it adds to the left half. */
    method MixInto(n: nat, rr: array<Bit>, buffer: array<Bit>)
      requires Valid() && 1 <= n <= 16
      requires rr.Length == buffer.Length == 64 && rr != buffer
      modifies buffer
      ensures buffer[..32] == Mix(rr[..32], Row(k, n))
    {
      TableSizes();
      hide SBoxes;
      var tmp := new Bit[64];
      ghost var key: Subkey := Row(k, n);
      Pick(rr, E_R, buffer);
      ghost var e := Permute(rr[..32], E_R);
      assert buffer[..48] == e;
      AddKey(n, buffer);
      assert buffer[..48] == XorBits(e, key);
      SBoxLookup(buffer, tmp);
      Pick(tmp, P, buffer);
      assert buffer[..32] == Permute(tmp[..32], P);
    }

    /** ip: the two halves of the permuted text. */
    method Ip(text: array<byte>, ll: array<Bit>, rr: array<Bit>)
      requires text.Length >= 8 && ll.Length == rr.Length == 64 && ll != rr
      requires text as object !in {ll as object, rr as object}
      modifies ll, rr
      ensures (ll[..32], rr[..32]) == Halves(text[..8])
    {
      TableSizes();
      hide IP_TAB, Expand;
      var buffer := new Bit[64];
      Expand0(text, buffer);
      ghost var bits := buffer[..];
      Pick(buffer, IP_TAB[..32], ll);
      ghost var l := ll[..32];
      assert l == Permute(bits, IP_TAB)[..32];
      Pick(buffer, IP_TAB[32..], rr);
      assert rr[..32] == Permute(bits, IP_TAB)[32..];
    }

    /** _ip(tmp, ll, rr), then compress0(tmp, text). */
    method IpInv(ll: array<Bit>, rr: array<Bit>, text: array<byte>)
      requires text.Length >= 8 && ll.Length == rr.Length == 64
      modifies text
      ensures text[..8] == Joined(old(rr[..32]), old(ll[..32]))
      ensures forall k :: 8 <= k < text.Length ==> text[k] == old(text[k])
    {
      TableSizes();
      hide IP_INV, Compress;
      var tmp, bits := new Bit[64], new Bit[64];
      for i := 0 to 32
        invariant forall k :: 0 <= k < i ==> tmp[k] == ll[k] && tmp[k + 32] == rr[k]
        modifies tmp
      {
        tmp[i] := ll[i];
        tmp[i + 32] := rr[i];
      }
      ghost var all: Bits64 := tmp[..];
      assert all == ll[..32] + rr[..32];
      Pick(tmp, IP_INV, bits);
      ghost var last: Bits64 := bits[..];
      assert last == bits[..64] == Permute(all, IP_INV);
      assert all == old(ll[..32]) + old(rr[..32]);
      assert Joined(old(rr[..32]), old(ll[..32])) == Compress(last);
      Compress0(bits, text);
      assert bits[..] == last;
      assert text[..8] == Compress(last);
    }

    /** encrypt0: the text is read before the result is written, so the two may be one buffer. */
    method Encrypt0(text: array<byte>, mtext: array<byte>, ghost key: Block)
      requires Valid() && Scheduled(Expand(key)) && text.Length >= 8 && mtext.Length >= 8
      modifies mtext
      ensures mtext[..8] == Encrypt(old(text[..8]), key)
      ensures forall k :: 8 <= k < mtext.Length ==> mtext[k] == old(mtext[k])
    {
      hide Halves, Joined, RoundKey, Mix, XorBits, Expand;
      var ll, rr, lo, ro := new Bit[64], new Bit[64], new Bit[64], new Bit[64];
      ghost var ks := Keys(key);
      Ip(text, ll, rr);
      ghost var l, r: Half := ll[..32], rr[..32];
      for i := 1 to 17
        invariant (ll[..32], rr[..32]) == Forward(ks, i - 1, l, r)
        modifies ll, rr, lo, ro
      {
        Round(i, ll, rr, lo, ro);
        CopyBits(lo, ll);
        CopyBits(ro, rr);
      }
      IpInv(rr, ll, mtext);
    }

    /** discrypt0 */
    method Discrypt0(mtext: array<byte>, text: array<byte>, ghost key: Block)
      requires Valid() && Scheduled(Expand(key)) && text.Length >= 8 && mtext.Length >= 8
      modifies text
      ensures text[..8] == Decrypt(old(mtext[..8]), key)
      ensures forall k :: 8 <= k < text.Length ==> text[k] == old(text[k])
    {
      hide Halves, Joined, RoundKey, Mix, XorBits, Expand;
      var ll, rr, lo, ro := new Bit[64], new Bit[64], new Bit[64], new Bit[64];
      ghost var ks := Keys(key);
      Ip(mtext, ll, rr);
      ghost var end := Backward(ks, 16, ll[..32], rr[..32]);
      for i := 16 downto 0
        invariant Backward(ks, i, ll[..32], rr[..32]) == end
        modifies ll, rr, lo, ro
      {
        Round(i + 1, ll, rr, lo, ro);
        CopyBits(lo, ll);
        CopyBits(ro, rr);
      }
      IpInv(rr, ll, text);
    }

    /** DES: any flag that does not ask for encryption decrypts. */
    method DES(source: array<byte>, dest: array<byte>, key: array<byte>, flag: byte)
      requires Valid() && source.Length >= 8 && dest.Length >= 8 && key.Length >= 8
      modifies c, d, k, dest
      ensures dest[..8] == if Encrypts(flag) then Encrypt(old(source[..8]), old(key[..8]))
                                             else Decrypt(old(source[..8]), old(key[..8]))
      ensures forall k :: 8 <= k < dest.Length ==> dest[k] == old(dest[k])
    {
      hide Encrypt, Decrypt, Expand, RoundKey;
      var tmp := new Bit[64];
      Expand0(key, tmp);
      ghost var bytes: Block := key[..8];
      SetKeyStar(tmp);
      if flag == ENCRYPT || flag == 0x65 || flag == 0x45 {
        Encrypt0(source, dest, bytes);
      } else {
        Discrypt0(source, dest, bytes);
      }
    }
  }
}
