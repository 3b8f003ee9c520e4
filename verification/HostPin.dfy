// HostDes: a PIN packed with its length, masked with the card number, and enciphered.

module HostPin {
  import opened Hex
  import opened DesSpec
  import opened DesCipher
  import opened DesVector

  const FILL: byte := 0x46
  const FILLING: seq<byte> := [FILL, FILL, FILL, FILL, FILL, FILL, FILL, FILL, FILL,
                               FILL, FILL, FILL, FILL, FILL, FILL, FILL, FILL]

  /** The buffer holds the C string `p`. */
  predicate HoldsPin(a: seq<byte>, p: seq<byte>)
  {
    |p| < |a| && a[..|p|] == p && a[|p|] == 0 && forall k :: 0 <= k < |p| ==> p[k] != 0
  }

  function Key(workKey: seq<byte>): Block
    requires |workKey| >= 16
  {
    PackText(workKey, 8)
  }

  /** card_buf: fifteen characters of the card number and an 'F', packed, without the first byte. */
  function CardMask(cardNo: seq<byte>): (m: seq<byte>)
    requires |cardNo| >= 16
    ensures |m| == 7
  {
    PackText(cardNo[1..16] + [FILL], 8)[..7][0 := 0]
  }

  /** pin_buf: the PIN filled up with 'F', packed; seven bytes of it are used. */
  function PackedPin(p: seq<byte>): (b: seq<byte>)
    requires |p| <= 17
    ensures |b| == 7
  {
    PackText((p + FILLING)[..17], 8)[..7]
  }

  function LengthByte(n: nat): byte
    requires n <= 17
  {
    n as bv8
  }

  /** The offset at which decryption ends the PIN. */
  function EndOffset(b: byte): nat
  {
    (b & 0xf) as int
  }

  lemma EndOfLength(n: nat)
    requires n <= 17
    ensures EndOffset(LengthByte(n)) == n % 16
  {
  }

  function PlainBlock(cardNo: seq<byte>, p: seq<byte>): Block
    requires |cardNo| >= 16 && |p| <= 17
  {
    [LengthByte(|p|)] + XorBytes(CardMask(cardNo), PackedPin(p))
  }

  function EncryptPin(cardNo: seq<byte>, workKey: seq<byte>, p: seq<byte>): Block
    requires |cardNo| >= 16 && |workKey| >= 16 && |p| <= 17
  {
    Encrypt(PlainBlock(cardNo, p), Key(workKey))
  }

  /** The caller's buffer after its first fourteen bytes and one terminator are written. */
  function Unpacked(plain: Block, mask: seq<byte>, buf: seq<byte>): (r: seq<byte>)
    requires |mask| == 7 && |buf| >= 16
    ensures |r| == |buf|
  {
    (DisplayBytes(XorBytes(plain[1..8], mask)) + buf[14..])[EndOffset(plain[0]) := 0]
  }

  function DecryptPin(cardNo: seq<byte>, workKey: seq<byte>, block: Block, buf: seq<byte>): seq<byte>
    requires |cardNo| >= 16 && |workKey| >= 16 && |buf| >= 16
  {
    Unpacked(Decrypt(block, Key(workKey)), CardMask(cardNo), buf)
  }

  /** The fourteen display characters of a packed PIN. */
  lemma PackedDigits(p: seq<byte>)
    requires |p| <= 17
    ensures var text := (p + FILLING)[..14];
            && |DisplayBytes(PackedPin(p))| == 14
            && IsHexText(DisplayBytes(PackedPin(p)))
            && (IsHexText(text) ==> DisplayBytes(PackedPin(p)) == text)
  {
    var text := (p + FILLING)[..14];
    hide Pack, DisplayAt, IsHexDigit;
    PackUndoesDisplay(PackedPin(p));
    DisplayUndoesPack(text, 7);
    assert PackedPin(p) == PackText(text, 7);
  }

  lemma FilledIsHex(p: seq<byte>)
    requires |p| <= 17
    ensures var n := if |p| <= 14 then |p| else 14;
            IsHexText((p + FILLING)[..14]) <==> IsHexText(p[..n])
  {
    assert IsHexDigit(FILL);
    hide IsHexDigit;
    var n := if |p| <= 14 then |p| else 14;
    var text := (p + FILLING)[..14];
    assert forall j :: 0 <= j < 14 ==> text[j] == if j < |p| then p[j] else FILL;
    assert forall j :: 0 <= j < n ==> p[..n][j] == text[j];
  }

  /** Masking and packing are undone, whatever card and key. */
  lemma PlainComesBack(cardNo: seq<byte>, workKey: seq<byte>, p: seq<byte>, buf: seq<byte>)
    requires |cardNo| >= 16 && |workKey| >= 16 && |p| <= 17 && |buf| >= 16
    ensures DecryptPin(cardNo, workKey, EncryptPin(cardNo, workKey, p), buf)
         == (DisplayBytes(PackedPin(p)) + buf[14..])[|p| % 16 := 0]
  {
    hide Encrypt, Decrypt, Key, CardMask, PackedPin, DisplayBytes, EndOffset, LengthByte;
    var plain := PlainBlock(cardNo, p);
    var mask := CardMask(cardNo);
    CipherRoundTrip(plain, Key(workKey));
    assert plain[1..8] == XorBytes(mask, PackedPin(p));
    MaskTwice(PackedPin(p), mask);
    EndOfLength(|p|);
  }

  /**
   * Which PINs survive encryption and decryption under one card and key: up to fourteen
   * upper-case hexadecimal characters. A fifteenth is never written; it can only be in the
   * caller's buffer already.
   */
  lemma PinRoundTrip(cardNo: seq<byte>, workKey: seq<byte>, p: seq<byte>, buf: seq<byte>)
    requires |cardNo| >= 16 && |workKey| >= 16 && |p| <= 17 && |buf| >= 16
    requires forall k :: 0 <= k < |p| ==> p[k] != 0
    ensures HoldsPin(DecryptPin(cardNo, workKey, EncryptPin(cardNo, workKey, p), buf), p)
       <==> |p| <= 15 && IsHexText(p[..if |p| <= 14 then |p| else 14]) && (|p| == 15 ==> buf[14] == p[14])
  {
    PlainComesBack(cardNo, workKey, p, buf);
    PackedDigits(p);
    FilledIsHex(p);
    hide DecryptPin, EncryptPin, IsHexDigit, PackedPin, DisplayBytes, HoldsPin;
    EndsAsWritten(p, DisplayBytes(PackedPin(p)), buf);
  }

  /** The one-character PIN "a" is lost. */
  lemma LowerCasePinIsLost(cardNo: seq<byte>, workKey: seq<byte>, buf: seq<byte>)
    requires |cardNo| >= 16 && |workKey| >= 16 && |buf| >= 16
    ensures !HoldsPin(DecryptPin(cardNo, workKey, EncryptPin(cardNo, workKey, [0x61]), buf), [0x61])
  {
    var p: seq<byte> := [0x61];
    assert !IsHexDigit(p[..1][0]);
    hide DecryptPin, EncryptPin, HoldsPin;
    PinRoundTrip(cardNo, workKey, p, buf);
  }

  /** Fourteen digits, the old rest of the buffer, and a terminator: when that is the PIN. */
  lemma EndsAsWritten(p: seq<byte>, digits: seq<byte>, buf: seq<byte>)
    requires |p| <= 17 && |digits| == 14 && |buf| >= 16
    requires forall k :: 0 <= k < |p| ==> p[k] != 0
    requires IsHexText(digits) && (IsHexText((p + FILLING)[..14]) ==> digits == (p + FILLING)[..14])
    ensures HoldsPin((digits + buf[14..])[|p| % 16 := 0], p)
       <==> |p| <= 15 && IsHexText((p + FILLING)[..14]) && (|p| == 15 ==> buf[14] == p[14])
  {
    FilledIsHex(p);
    hide IsHexDigit;
    var out := (digits + buf[14..])[|p| % 16 := 0];
    var n := if |p| <= 14 then |p| else 14;
    if |p| >= 16 {
      assert out[|p| % 16] == 0;
    } else {
      assert forall j :: 0 <= j < n ==> out[j] == digits[j] && p[..n][j] == p[j] == (p + FILLING)[..14][j];
      assert HoldsPin(out, p) ==> forall j :: 0 <= j < n ==> out[..|p|][j] == p[j];
      assert |p| == 15 ==> out[14] == buf[14];
      if IsHexText((p + FILLING)[..14]) && (|p| == 15 ==> buf[14] == p[14]) {
        assert out[..|p|] == p;
      }
    }
  }

  /** The first byte before enciphering is the length of the PIN, all of it. */
  lemma FirstByteIsLength(cardNo: seq<byte>, p: seq<byte>)
    requires |cardNo| >= 16 && |p| <= 17
    ensures PlainBlock(cardNo, p)[0] as int == |p|
  {
  }

  /** The card enters by twelve of its characters, the 4th to the 15th, and by nothing else. */
  lemma CardEnters(cardNo: seq<byte>, other: seq<byte>, workKey: seq<byte>, p: seq<byte>)
    requires |cardNo| >= 16 && |other| >= 16 && |workKey| >= 16 && |p| <= 17
    ensures EncryptPin(cardNo, workKey, p) == EncryptPin(other, workKey, p)
       <==> PackText(cardNo[3..15], 6) == PackText(other[3..15], 6)
  {
    CardMaskIs(cardNo);
    CardMaskIs(other);
    hide Encrypt, Decrypt, Key, CardMask, PackedPin, LengthByte, PackText, Xor;
    CipherRoundTrip(PlainBlock(cardNo, p), Key(workKey));
    CipherRoundTrip(PlainBlock(other, p), Key(workKey));
    MaskTwice(CardMask(cardNo), PackedPin(p));
    MaskTwice(CardMask(other), PackedPin(p));
    assert PlainBlock(cardNo, p)[1..] == XorBytes(CardMask(cardNo), PackedPin(p));
    assert PlainBlock(other, p)[1..] == XorBytes(CardMask(other), PackedPin(p));
    assert CardMask(cardNo)[1..] == PackText(cardNo[3..15], 6);
    assert CardMask(other)[1..] == PackText(other[3..15], 6);
  }

  lemma CardMaskIs(cardNo: seq<byte>)
    requires |cardNo| >= 16
    ensures CardMask(cardNo) == [0] + PackText(cardNo[3..15], 6)
  {
    hide Pack;
    var text := cardNo[1..16] + [FILL];
    assert forall k :: 2 <= k < 14 ==> text[k] == cardNo[3..15][k - 2];
  }

  /** Card 6222021234567890 and PIN 123456: the block before enciphering. */
  lemma ExampleBlock()
    ensures PlainBlock(
              [0x36, 0x32, 0x32, 0x32, 0x30, 0x32, 0x31, 0x32, 0x33, 0x34, 0x35, 0x36, 0x37, 0x38, 0x39, 0x30],
              [0x31, 0x32, 0x33, 0x34, 0x35, 0x36])
         == [0x06, 0x12, 0x14, 0x77, 0xdc, 0xba, 0x98, 0x76]
  {
    ExampleMask();
    ExampleDigits();
    hide CardMask, PackedPin;
    assert XorBytes([0, 0x20, 0x21, 0x23, 0x45, 0x67, 0x89], [0x12, 0x34, 0x56, 0xff, 0xff, 0xff, 0xff])
        == [0x12, 0x14, 0x77, 0xdc, 0xba, 0x98, 0x76];
  }

  lemma ExampleMask()
    ensures CardMask(
              [0x36, 0x32, 0x32, 0x32, 0x30, 0x32, 0x31, 0x32, 0x33, 0x34, 0x35, 0x36, 0x37, 0x38, 0x39, 0x30])
         == [0, 0x20, 0x21, 0x23, 0x45, 0x67, 0x89]
  {
    var card: seq<byte> :=
      [0x36, 0x32, 0x32, 0x32, 0x30, 0x32, 0x31, 0x32, 0x33, 0x34, 0x35, 0x36, 0x37, 0x38, 0x39, 0x30];
    CardMaskIs(card);
    ExamplePairs();
    hide CardMask, Pack;
    assert card[3..15] == [0x32, 0x30, 0x32, 0x31, 0x32, 0x33, 0x34, 0x35, 0x36, 0x37, 0x38, 0x39];
  }

  lemma ExamplePairs()
    ensures Pack(0x32, 0x30) == 0x20 && Pack(0x32, 0x31) == 0x21 && Pack(0x32, 0x33) == 0x23
    ensures Pack(0x34, 0x35) == 0x45 && Pack(0x36, 0x37) == 0x67 && Pack(0x38, 0x39) == 0x89
  {
  }

  lemma ExampleDigits()
    ensures PackedPin([0x31, 0x32, 0x33, 0x34, 0x35, 0x36]) == [0x12, 0x34, 0x56, 0xff, 0xff, 0xff, 0xff]
  {
    var p: seq<byte> := [0x31, 0x32, 0x33, 0x34, 0x35, 0x36];
    var text := (p + FILLING)[..17];
    assert forall k :: 6 <= k < 17 ==> text[k] == FILL;
    assert text[0] == 0x31 && text[1] == 0x32 && text[2] == 0x33;
    assert text[3] == 0x34 && text[4] == 0x35 && text[5] == 0x36;
    assert Pack(FILL, FILL) == 0xff;
    assert Pack(0x31, 0x32) == 0x12 && Pack(0x33, 0x34) == 0x34 && Pack(0x35, 0x36) == 0x56;
    hide Pack, FILLING;
  }

  /** The work key 133457799BBCDFF1. */
  lemma ExampleKey()
    ensures Key([0x31, 0x33, 0x33, 0x34, 0x35, 0x37, 0x37, 0x39, 0x39, 0x42, 0x42, 0x43, 0x44, 0x46, 0x46, 0x31])
         == [0x13, 0x34, 0x57, 0x79, 0x9b, 0xbc, 0xdf, 0xf1]
  {
  }

  /** And the block that is written. */
  lemma ExamplePin()
    ensures EncryptPin(
              [0x36, 0x32, 0x32, 0x32, 0x30, 0x32, 0x31, 0x32, 0x33, 0x34, 0x35, 0x36, 0x37, 0x38, 0x39, 0x30],
              [0x31, 0x33, 0x33, 0x34, 0x35, 0x37, 0x37, 0x39, 0x39, 0x42, 0x42, 0x43, 0x44, 0x46, 0x46, 0x31],
              [0x31, 0x32, 0x33, 0x34, 0x35, 0x36])
         == [0xe6, 0xa6, 0xdd, 0x3c, 0x6f, 0xfc, 0xd6, 0xfa]
  {
    ExampleBlock();
    ExampleKey();
    PinBlockVector();
    hide Encrypt, PlainBlock, Key;
  }

  // ----- the program -----

  method PinLength(pin: array<byte>, ghost p: seq<byte>) returns (l: nat)
    requires HoldsPin(pin[..], p)
    ensures l == |p|
  {
    l := 0;
    while pin[l] != 0
      invariant l <= |p|
      decreases |p| - l
    {
      l := l + 1;
    }
  }

  /** The block that is enciphered, from the PIN and the packed card. */
  method BuildBlock(pin: array<byte>, cardBuf: array<byte>, ghost p: seq<byte>, ghost cardNo: seq<byte>)
    returns (enpin: array<byte>)
    requires HoldsPin(pin[..], p) && |p| <= 17 && |cardNo| >= 16
    requires cardBuf.Length == 16 && cardBuf != pin && cardBuf[..7] == CardMask(cardNo)
    modifies cardBuf
    ensures fresh(enpin) && enpin.Length == 8 && enpin[..] == PlainBlock(cardNo, p)
  {
    hide CardMask, Pack, LengthByte;
    var pinBuf, l := FillPin(pin, p);
    Dsp2Hex(pinBuf, pinBuf, 8);
    assert pinBuf[0..7] == pinBuf[..8][..7] == PackedPin(p);
    assert cardBuf[0..7] == cardBuf[..7];
    DoXor(cardBuf, 0, pinBuf, 0, 7);
    enpin := new byte[8];
    enpin[0] := LengthByte(l);
    forall i | 0 <= i < 7 {
      enpin[i + 1] := cardBuf[i];
    }
    assert enpin[1..] == cardBuf[0..7];
  }

  method FillPin(pin: array<byte>, ghost p: seq<byte>) returns (pinBuf: array<byte>, l: nat)
    requires HoldsPin(pin[..], p) && |p| <= 17
    ensures fresh(pinBuf) && pinBuf[..] == (p + FILLING)[..17] && l == |p|
  {
    l := PinLength(pin, p);
    pinBuf := new byte[17];
    forall i | 0 <= i < l {
      pinBuf[i] := pin[i];
    }
    for i := l to 17
      invariant forall k :: 0 <= k < l ==> pinBuf[k] == p[k]
      invariant forall k :: l <= k < i ==> pinBuf[k] == FILL
      modifies pinBuf
    {
      pinBuf[i] := FILL;
    }
  }

  method PackCard(card_no: array<byte>) returns (cardBuf: array<byte>)
    requires card_no.Length >= 16
    ensures fresh(cardBuf) && cardBuf.Length == 16 && cardBuf[..7] == CardMask(card_no[..])
  {
    hide Pack;
    cardBuf := new byte[16](_ => FILL);
    forall i | 0 <= i < 15 {
      cardBuf[i] := card_no[i + 1];
    }
    assert cardBuf[..] == card_no[..][1..16] + [FILL];
    Dsp2Hex(cardBuf, cardBuf, 8);
    cardBuf[0] := 0;
    assert cardBuf[..7] == CardMask(card_no[..]);
  }

  predicate Decrypts(flag: byte)
  {
    flag == DECRYPT || flag == 0x64 || flag == 0x44
  }

  lemma DecryptingFlags(flag: byte)
    ensures Decrypts(flag) <==> flag in {1, 0x44, 0x64}
  {
  }

  lemma EndBound(b: byte)
    ensures EndOffset(b) == b as int % 16
  {
  }

  method Unpack(pinBuf: array<byte>, cardBuf: array<byte>, pin: array<byte>)
    requires pinBuf.Length == 17 && cardBuf.Length == 16 && pin.Length >= 16
    requires pinBuf != cardBuf && pin != pinBuf && pin != cardBuf
    modifies pinBuf, pin
    ensures pin[..] == Unpacked(old(pinBuf[..8]), old(cardBuf[..7]), old(pin[..]))
  {
    hide DisplayAt, Xor, EndOffset;
    ghost var plain: Block := pinBuf[..8];
    assert pinBuf[1..8] == plain[1..8] && cardBuf[0..7] == cardBuf[..7];
    DoXor(pinBuf, 1, cardBuf, 0, 7);
    Hex2Dsp(pinBuf, 1, pin, 7);
    ghost var shown := pin[..];
    assert shown == DisplayBytes(XorBytes(plain[1..8], old(cardBuf[..7]))) + old(pin[..])[14..];
    EndBound(pinBuf[0]);
    pin[EndOffset(pinBuf[0])] := 0;
  }

  /**
   * HostDes; a flag that names neither direction does nothing. Everything is read before
   * the result is written, so any of the four buffers may be one and the same.
   */
  method HostDes(
    card_no: array<byte>, work_key: array<byte>, pin: array<byte>, encrypt_pin: array<byte>, flag: byte,
    tables: KeyTables, ghost p: seq<byte>)
    requires tables.Valid()
    requires card_no.Length >= 16 && work_key.Length >= 16 && encrypt_pin.Length >= 8
    requires Decrypts(flag) ==> pin.Length >= 16
    requires Encrypts(flag) ==> HoldsPin(pin[..], p) && |p| <= 17
    modifies pin, encrypt_pin, tables.c, tables.d, tables.k
    ensures Encrypts(flag) ==>
      && encrypt_pin[..8] == EncryptPin(old(card_no[..]), old(work_key[..]), p)
      && encrypt_pin[8..] == old(encrypt_pin[8..])
      && (pin != encrypt_pin ==> pin[..] == old(pin[..]))
    ensures Decrypts(flag) ==>
      && pin[..] == DecryptPin(old(card_no[..]), old(work_key[..]), old(encrypt_pin[..8]), old(pin[..]))
      && (pin != encrypt_pin ==> encrypt_pin[..] == old(encrypt_pin[..]))
    ensures !Encrypts(flag) && !Decrypts(flag) ==>
      pin[..] == old(pin[..]) && encrypt_pin[..] == old(encrypt_pin[..])
  {
    hide CardMask, PlainBlock, Encrypt, Decrypt, Unpacked;
    var keyBuf := new byte[8];
    Dsp2Hex(work_key, keyBuf, 8);
    assert keyBuf[..8] == Key(work_key[..]);
    var cardBuf := PackCard(card_no);
    if Encrypts(flag) {
      var enpin := BuildBlock(pin, cardBuf, p, card_no[..]);
      assert enpin[..8] == enpin[..];
      tables.DES(enpin, encrypt_pin, keyBuf, ENCRYPT);
    } else if Decrypts(flag) {
      var pinBuf := new byte[17];
      tables.DES(encrypt_pin, pinBuf, keyBuf, DECRYPT);
      Unpack(pinBuf, cardBuf, pin);
    }
  }
}
