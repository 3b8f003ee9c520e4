// Display text and packed bytes: DSP_2_HEX, HEX_2_DSP and Do_XOR.

module Hex {

  type byte = bv8

  /** A digit's value in the upper half of a byte. */
  function Upper(n: byte): byte
  {
    n << 4
  }

  function Plus(a: byte, b: byte): byte
  {
    a + b
  }

  /** One display character's contribution; characters that are no digits wrap around. */
  function Nibble(c: byte): byte
  {
    if c <= 0x39 then c - 0x30 else c - 0x41 + 10
  }

  function Pack(hi: byte, lo: byte): byte
  {
    Plus(Upper(Nibble(hi)), Nibble(lo))
  }

  function Display(n: byte): byte
  {
    if n > 9 then n + 0x41 - 10 else n + 0x30
  }

  predicate IsHexDigit(c: byte)
  {
    0x30 <= c <= 0x39 || 0x41 <= c <= 0x46
  }

  predicate IsHexText(dsp: seq<byte>)
  {
    forall j :: 0 <= j < |dsp| ==> IsHexDigit(dsp[j])
  }

  function PackText(dsp: seq<byte>, count: nat): (hex: seq<byte>)
    requires 2 * count <= |dsp|
    ensures |hex| == count && forall i :: 0 <= i < count ==> hex[i] == Pack(dsp[2 * i], dsp[2 * i + 1])
  {
    seq(count, i requires 0 <= 2 * i < 2 * count => Pack(dsp[2 * i], dsp[2 * i + 1]))
  }

  function DisplayBytes(hex: seq<byte>): (dsp: seq<byte>)
    ensures |dsp| == 2 * |hex|
    ensures forall j :: 0 <= j < |dsp| ==> dsp[j] == DisplayAt(hex, j)
  {
    seq(2 * |hex|, j requires 0 <= j < 2 * |hex| => DisplayAt(hex, j))
  }

  function DisplayAt(hex: seq<byte>, j: nat): byte
    requires j < 2 * |hex|
  {
    if j % 2 == 0 then Display(High(hex[j / 2])) else Display(Low(hex[j / 2]))
  }

  function High(b: byte): byte
  {
    (b & 0xf0) >> 4
  }

  function Low(b: byte): byte
  {
    b & 0xf
  }

  lemma PackOfDisplay(b: byte)
    ensures Pack(Display(High(b)), Display(Low(b))) == b
    ensures IsHexDigit(Display(High(b))) && IsHexDigit(Display(Low(b)))
  {
  }

  lemma DisplayOfPack(hi: byte, lo: byte)
    requires IsHexDigit(hi) && IsHexDigit(lo)
    ensures Display(High(Pack(hi, lo))) == hi && Display(Low(Pack(hi, lo))) == lo
  {
  }

  /** Packing undoes displaying, for every byte string. */
  lemma PackUndoesDisplay(hex: seq<byte>)
    ensures PackText(DisplayBytes(hex), |hex|) == hex
    ensures IsHexText(DisplayBytes(hex))
  {
    hide Nibble, Display, IsHexDigit, Pack, High, Low;
    var dsp := DisplayBytes(hex);
    forall i | 0 <= i < |hex|
      ensures PackText(dsp, |hex|)[i] == hex[i]
    {
      PackOfDisplay(hex[i]);
      assert (2 * i) / 2 == i && (2 * i + 1) / 2 == i && (2 * i) % 2 == 0 && (2 * i + 1) % 2 == 1;
    }
    forall j | 0 <= j < 2 * |hex|
      ensures IsHexDigit(dsp[j])
    {
      PackOfDisplay(hex[j / 2]);
    }
  }

  /** Displaying undoes packing exactly for upper-case hexadecimal text. */
  lemma DisplayUndoesPack(dsp: seq<byte>, count: nat)
    requires |dsp| == 2 * count
    ensures DisplayBytes(PackText(dsp, count)) == dsp <==> IsHexText(dsp)
  {
    hide Nibble, Display, IsHexDigit, Pack, High, Low;
    var hex := PackText(dsp, count);
    PackUndoesDisplay(hex);
    if IsHexText(dsp) {
      forall j | 0 <= j < |dsp|
        ensures DisplayBytes(hex)[j] == dsp[j]
      {
        DigitBack(dsp, count, j);
      }
    }
  }

  lemma DigitBack(dsp: seq<byte>, count: nat, j: nat)
    requires |dsp| == 2 * count && j < |dsp| && IsHexText(dsp)
    ensures DisplayAt(PackText(dsp, count), j) == dsp[j]
  {
    hide Nibble, Display, IsHexDigit, Pack, High, Low;
    var i := j / 2;
    DisplayOfPack(dsp[2 * i], dsp[2 * i + 1]);
    assert j % 2 == 0 ==> j == 2 * i;
    assert j % 2 == 1 ==> j == 2 * i + 1;
  }

  /** The two buffers may be the same: a packed byte never overtakes the text still to be read. */
  method Dsp2Hex(dsp: array<byte>, hex: array<byte>, count: nat)
    requires 2 * count <= dsp.Length && count <= hex.Length
    modifies hex
    ensures hex[..count] == PackText(old(dsp[..]), count)
    ensures forall k :: count <= k < hex.Length ==> hex[k] == old(hex[k])
  {
    hide Nibble, Upper, Plus;
    ghost var text := dsp[..];
    ghost var packed := PackText(text, count);
    for i := 0 to count
      invariant forall k :: 0 <= k < i ==> hex[k] == packed[k]
      invariant forall k :: i <= k < hex.Length ==> hex[k] == old(hex[k])
      invariant forall k :: i <= k < dsp.Length ==> dsp[k] == text[k]
    {
      var j := 2 * i;
      assert packed[i] == Pack(text[j], text[j + 1]);
      hex[i] := Nibble(dsp[j]);
      hex[i] := Upper(hex[i]);
      hex[i] := Plus(hex[i], Nibble(dsp[j + 1]));
    }
  }

  /** HEX_2_DSP(hex + off, dsp, count). */
  method Hex2Dsp(hex: array<byte>, off: nat, dsp: array<byte>, count: nat)
    requires off + count <= hex.Length && 2 * count <= dsp.Length && hex != dsp
    modifies dsp
    ensures dsp[..2 * count] == DisplayBytes(hex[off..off + count])
    ensures forall k :: 2 * count <= k < dsp.Length ==> dsp[k] == old(dsp[k])
  {
    hide Display, High, Low;
    for i := 0 to count
      invariant forall k :: 0 <= k < 2 * i ==> dsp[k] == DisplayAt(hex[off..off + count], k)
      invariant forall k :: 2 * count <= k < dsp.Length ==> dsp[k] == old(dsp[k])
    {
      dsp[2 * i] := Display(High(hex[off + i]));
      dsp[2 * i + 1] := Display(Low(hex[off + i]));
    }
  }

  function Xor(a: byte, b: byte): byte
  {
    a ^ b
  }

  function XorBytes(a: seq<byte>, b: seq<byte>): (r: seq<byte>)
    requires |a| == |b|
    ensures |r| == |a| && forall i :: 0 <= i < |a| ==> r[i] == Xor(a[i], b[i])
  {
    seq(|a|, i requires 0 <= i < |a| => Xor(a[i], b[i]))
  }

  /** Exclusive or: the bits of one or the other, without those of both. */
  lemma XorIs(a: byte, b: byte)
    ensures Xor(a, b) == (a | b) - (a & b)
  {
  }

  lemma XorTwice(a: byte, b: byte)
    ensures Xor(Xor(a, b), b) == a && Xor(Xor(b, a), b) == a
  {
  }

  /** A mask applied twice is gone, whichever way round it was applied. */
  lemma MaskTwice(a: seq<byte>, mask: seq<byte>)
    requires |a| == |mask|
    ensures XorBytes(XorBytes(a, mask), mask) == a && XorBytes(XorBytes(mask, a), mask) == a
  {
    hide Xor;
    forall i | 0 <= i < |a|
      ensures XorBytes(XorBytes(a, mask), mask)[i] == a[i] && XorBytes(XorBytes(mask, a), mask)[i] == a[i]
    {
      XorTwice(a[i], mask[i]);
    }
  }

  /** Do_XOR(dest + off, source + from, size). */
  method DoXor(dest: array<byte>, off: nat, source: array<byte>, from: nat, size: nat)
    requires off + size <= dest.Length && from + size <= source.Length && dest != source
    modifies dest
    ensures dest[off..off + size] == XorBytes(old(dest[off..off + size]), source[from..from + size])
    ensures forall k :: 0 <= k < dest.Length && !(off <= k < off + size) ==> dest[k] == old(dest[k])
  {
    hide Xor;
    ghost var d, s := dest[off..off + size], source[from..from + size];
    for i := 0 to size
      invariant forall k :: 0 <= k < i ==> dest[off..off + size][k] == Xor(d[k], s[k])
      invariant forall k :: i <= k < size ==> dest[off..off + size][k] == d[k]
      invariant forall k :: 0 <= k < dest.Length && !(off <= k < off + size) ==> dest[k] == old(dest[k])
    {
      assert dest[off..off + size][i] == dest[off + i];
      dest[off + i] := Xor(dest[off + i], source[from + i]);
    }
  }

  /** Two characters and their byte, whatever the characters are; lower-case letters are no digits and wrap around. */
  lemma PackIs(hi: byte, lo: byte)
    ensures Pack(hi, lo) == 16 * (hi - if hi <= 0x39 then 48 else 55) + (lo - if lo <= 0x39 then 48 else 55)
    ensures Pack(0x34, 0x31) == 0x41 && Pack(0x46, 0x30) == 0xf0 && Pack(0x30, 0x61) == 0x2a
  {
  }
}
