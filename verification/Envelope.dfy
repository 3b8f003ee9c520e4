// The envelope for magnetic track data: a length, a check sum and the data, masked,
// enciphered with RC4 and written in Base64.

module Envelope {
  import opened Decimal
  import opened Hex
  import opened Base64

  const MAX_BUFF: nat := 4096
  const ERR_DATALEN: int := -2
  const ERR_CARDDATA_CRC: int := -3

  // MD5 is any function to 16 bytes; RC4 with its fixed key is any key stream.

  ghost predicate IsMd5(md5: seq<byte> -> seq<byte>)
  {
    forall x :: |md5(x)| == 16
  }

  /** opGenMd5: the first eight bytes of the digest. */
  function Sum8(x: seq<byte>, md5: seq<byte> -> seq<byte>): (s: seq<byte>)
    requires |md5(x)| == 16
    ensures |s| == 8
  {
    md5(x)[..8]
  }

  /** pBuff: the date, then the reference number right-justified in sixteen '0's. */
  function MaskInput(workdate: seq<byte>, refid: seq<byte>): (k: seq<byte>)
    requires |workdate| >= 8
    ensures |k| == 24
  {
    var n := if |refid| < 16 then |refid| else 16;
    workdate[..8] + seq(16 - n, _ => 0x30) + refid[..n]
  }

  /** The date, '0's, and the reference at the right end of its sixteen places. */
  lemma MaskInputIs(workdate: seq<byte>, refid: seq<byte>)
    requires |workdate| >= 8
    ensures var k, n := MaskInput(workdate, refid), if |refid| < 16 then |refid| else 16;
            && k[..8] == workdate[..8]
            && (forall i :: 8 <= i < 24 - n ==> k[i] == 0x30)
            && k[24 - n..] == refid[..n]
  {
  }

  // ----- the plain message -----

  function DigitByte(c: char): byte
    requires IsDigit(c)
  {
    DigitValue(c) as bv8 + 0x30
  }

  function ByteChar(b: byte): char
  {
    b as int as char
  }

  lemma DigitByteBack(c: char)
    requires IsDigit(c)
    ensures ByteChar(DigitByte(c)) == c
  {
    var d := DigitValue(c);
    assert d == 0 || d == 1 || d == 2 || d == 3 || d == 4 || d == 5 || d == 6 || d == 7 || d == 8 || d == 9;
  }

  /** sprintf "%04d" */
  function Header(n: nat): (h: seq<byte>)
    requires n < 10_000
    ensures |h| == 4
  {
    Pow10Is();
    DecWidth(n, 4);
    var s := ZeroFill(Dec(n), 4);
    ValueOfZeroFill(n, 4);
    seq(4, i requires 0 <= i < 4 => assert s[i] in s; DigitByte(s[i]))
  }

  /** atoi of the four characters */
  function Declared(h: seq<byte>): int
    requires |h| == 4
  {
    Atoi([ByteChar(h[0]), ByteChar(h[1]), ByteChar(h[2]), ByteChar(h[3])])
  }

  /** Every byte is taken for the character with its code. */
  lemma DeclaredIs(h: seq<byte>)
    requires |h| == 4
    ensures Declared(h) == Atoi([h[0] as int as char, h[1] as int as char, h[2] as int as char, h[3] as int as char])
  {
  }

  lemma DeclaredIsLength(n: nat)
    requires n < 10_000
    ensures Declared(Header(n)) == n
  {
    Pow10Is();
    DecWidth(n, 4);
    var s := ZeroFill(Dec(n), 4);
    ValueOfZeroFill(n, 4);
    hide Atoi, Dec, ZeroFill, Value, DigitByte, ByteChar;
    forall i | 0 <= i < 4
      ensures ByteChar(Header(n)[i]) == s[i]
    {
      assert s[i] in s;
      DigitByteBack(s[i]);
    }
    assert s == [s[0], s[1], s[2], s[3]];
    AtoiOfDigits(s);
  }

  /** Four digits, the most significant first. */
  lemma HeaderIs(n: nat)
    requires n < 10_000
    ensures Header(n) == [Digit(n / 1000), Digit(n / 100 % 10), Digit(n / 10 % 10), Digit(n % 10)]
  {
    FourDigits(n);
    Pow10Is();
    DecWidth(n, 4);
    ValueOfZeroFill(n, 4);
    DigitByteIs(n / 1000);
    DigitByteIs(n / 100 % 10);
    DigitByteIs(n / 10 % 10);
    DigitByteIs(n % 10);
    var s := ZeroFill(Dec(n), 4);
    assert forall i :: 0 <= i < 4 ==> Header(n)[i] == DigitByte(s[i]);
    hide Dec, ZeroFill, Value, Header, DigitByte, Digit, DigitChar;
  }

  function Digit(d: nat): byte
    requires d < 10
  {
    d as byte + 0x30
  }

  lemma DigitByteIs(d: nat)
    requires d < 10
    ensures DigitByte(DigitChar(d)) == Digit(d)
  {
  }

  lemma FourDigits(n: nat)
    requires n < 10_000
    ensures ZeroFill(Dec(n), 4)
         == [DigitChar(n / 1000), DigitChar(n / 100 % 10), DigitChar(n / 10 % 10), DigitChar(n % 10)]
  {
    hide ZeroFill, DigitChar;
    ZeroFillStep(n, 3);
    ZeroFillStep(n / 10, 2);
    ZeroFillStep(n / 100, 1);
    LastDigit(n / 1000);
    hide Dec;
    assert n / 10 / 10 == n / 100 && n / 100 / 10 == n / 1000;
  }

  lemma LastDigit(d: nat)
    requires d < 10
    ensures ZeroFill(Dec(d), 1) == [DigitChar(d)]
  {
  }

  function RoundUp(n: nat): (r: nat)
    ensures r % 8 == 0 && n <= r < n + 8
  {
    (if n % 8 == 0 then n / 8 else n / 8 + 1) * 8
  }

  /** What is in the buffer before masking; `garbage` is what was in it behind the data. */
  function Plain(data: seq<byte>, md5: seq<byte> -> seq<byte>, garbage: seq<byte>): (p: seq<byte>)
    requires |data| < 10_000 && |garbage| >= 7 && |md5(data)| == 16
    ensures |p| == RoundUp(|data| + 12)
  {
    Header(|data|) + Sum8(data, md5) + data + garbage[..RoundUp(|data| + 12) - (|data| + 12)]
  }

  /** The length, eight bytes of the digest of the data, and the data. */
  lemma PlainIs(data: seq<byte>, md5: seq<byte> -> seq<byte>, garbage: seq<byte>)
    requires |data| < 10_000 && |garbage| >= 7 && IsMd5(md5)
    ensures var p, n := Plain(data, md5, garbage), |data|;
            && p[..4] == [Digit(n / 1000), Digit(n / 100 % 10), Digit(n / 10 % 10), Digit(n % 10)]
            && p[4..12] == md5(data)[..8] && p[12..12 + n] == data
  {
    HeaderIs(|data|);
    hide Header, Digit;
    var p, n := Plain(data, md5, garbage), |data|;
    assert p[..4] == Header(n);
  }

  // ----- masking and enciphering -----

  function Masked(x: seq<byte>, mask: seq<byte>): (y: seq<byte>)
    requires |mask| == 8
    ensures |y| == |x| && forall i :: 0 <= i < |x| ==> y[i] == Xor(x[i], mask[i % 8])
  {
    seq(|x|, i requires 0 <= i < |x| => Xor(x[i], mask[i % 8]))
  }

  function Rc4(x: seq<byte>, stream: nat -> byte): (y: seq<byte>)
    ensures |y| == |x| && forall i :: 0 <= i < |x| ==> y[i] == Xor(x[i], stream(i))
  {
    seq(|x|, i requires 0 <= i < |x| => Xor(x[i], stream(i)))
  }

  function Cipher(x: seq<byte>, mask: seq<byte>, stream: nat -> byte): seq<byte>
    requires |mask| == 8
  {
    Rc4(Masked(x, mask), stream)
  }

  function Uncipher(x: seq<byte>, mask: seq<byte>, stream: nat -> byte): seq<byte>
    requires |mask| == 8
  {
    Masked(Rc4(x, stream), mask)
  }

  lemma UncipherUndoesCipher(x: seq<byte>, mask: seq<byte>, stream: nat -> byte)
    requires |mask| == 8
    ensures Uncipher(Cipher(x, mask, stream), mask, stream) == x
  {
    hide Xor;
    forall i | 0 <= i < |x|
      ensures Uncipher(Cipher(x, mask, stream), mask, stream)[i] == x[i]
    {
      XorTwice(Xor(x[i], mask[i % 8]), stream(i));
      XorTwice(x[i], mask[i % 8]);
    }
  }

  // ----- the envelope -----

  datatype Sealed = TooLong | Sealed(text: seq<byte>)

  function Mask(workdate: seq<byte>, refid: seq<byte>, md5: seq<byte> -> seq<byte>): (m: seq<byte>)
    requires |workdate| >= 8 && |md5(MaskInput(workdate, refid))| == 16
    ensures |m| == 8
  {
    Sum8(MaskInput(workdate, refid), md5)
  }

  /** Data_Encrypt_Soft10 */
  function Seal(
    workdate: seq<byte>, refid: seq<byte>, data: seq<byte>,
    md5: seq<byte> -> seq<byte>, stream: nat -> byte, garbage: seq<byte>): Sealed
    requires |workdate| >= 8 && |data| < 10_000 && |garbage| >= 7
    requires |md5(MaskInput(workdate, refid))| == |md5(data)| == 16
  {
    if RoundUp(|data| + 12) >= MAX_BUFF then TooLong
    else Sealed(Encode(Cipher(Plain(data, md5, garbage), Mask(workdate, refid, md5), stream)))
  }

  /**
   * BadLength and BadSum are the program's two refusals. Overrun: the declared length is
   * negative or leads out of the buffer.
   */
  datatype Opened = Opened(data: seq<byte>) | BadLength | BadSum | Overrun

  /** pTempBuff before its length is looked at: what was decoded, then what else is in it. */
  function OpenedBuffer(
    workdate: seq<byte>, refid: seq<byte>, bytes: seq<byte>,
    md5: seq<byte> -> seq<byte>, stream: nat -> byte, rest: seq<byte>): (buf: seq<byte>)
    requires |workdate| >= 8 && IsMd5(md5)
    ensures |buf| == |bytes| + |rest|
  {
    Uncipher(bytes, Mask(workdate, refid, md5), stream) + rest
  }

  /**
   * Data_Decrypt_Soft10; `st` is what the decoder's variables held, `rest` what the buffer
   * holds behind the decoded bytes.
   */
  function Open(
    workdate: seq<byte>, refid: seq<byte>, text: seq<byte>,
    md5: seq<byte> -> seq<byte>, stream: nat -> byte, st: State, rest: seq<byte>): Opened
    requires |workdate| >= 8 && IsMd5(md5)
  {
    var bytes := Decode(text, st);
    if |bytes| % 8 != 0 then BadLength
    else OpenPlain(OpenedBuffer(workdate, refid, bytes, md5, stream, rest), md5)
  }

  function OpenPlain(buf: seq<byte>, md5: seq<byte> -> seq<byte>): Opened
    requires IsMd5(md5)
  {
    if |buf| < 12 then Overrun
    else
      var n := Declared(buf[..4]);
      if n < 0 || 12 + n > |buf| then Overrun
      else if Sum8(buf[12..12 + n], md5) != buf[4..12] then BadSum
      else Opened(buf[12..12 + n])
  }

  /** What is opened, with the digest itself: the data declared, if its digest begins with the stored bytes. */
  lemma OpenPlainIs(buf: seq<byte>, md5: seq<byte> -> seq<byte>)
    requires IsMd5(md5) && |buf| >= 12
    ensures var n := Declared(buf[..4]);
            OpenPlain(buf, md5)
            == if n < 0 || 12 + n > |buf| then Overrun
               else if md5(buf[12..12 + n])[..8] == buf[4..12] then Opened(buf[12..12 + n]) else BadSum
  {
  }

  lemma OpenPlainFinds(data: seq<byte>, md5: seq<byte> -> seq<byte>, garbage: seq<byte>, rest: seq<byte>)
    requires |data| < 10_000 && |garbage| >= 7 && IsMd5(md5)
    ensures OpenPlain(Plain(data, md5, garbage) + rest, md5) == Opened(data)
  {
    var buf := Plain(data, md5, garbage) + rest;
    DeclaredIsLength(|data|);
    hide Declared, Header, Sum8;
    assert buf[..4] == Header(|data|);
    assert buf[4..12] == Sum8(data, md5);
    assert buf[12..12 + |data|] == data;
  }

  /**
   * An envelope opens to the data it was made for, whatever MD5 and the key stream are and
   * whatever the buffers held, also when line ends or blanks were put among its letters.
   */
  lemma OpenUndoesSeal(
    workdate: seq<byte>, refid: seq<byte>, data: seq<byte>, body: seq<byte>,
    md5: seq<byte> -> seq<byte>, stream: nat -> byte, garbage: seq<byte>, st: State, rest: seq<byte>)
    requires |workdate| >= 8 && |data| < 10_000 && |garbage| >= 7 && Initial(st)
    requires IsMd5(md5)
    requires var cipher := Cipher(Plain(data, md5, garbage), Mask(workdate, refid, md5), stream);
             PAD !in body && Values(body) == Sextets(cipher)
    ensures var cipher := Cipher(Plain(data, md5, garbage), Mask(workdate, refid, md5), stream);
            Open(workdate, refid, body + Pads(PadCount(cipher)), md5, stream, st, rest) == Opened(data)
  {
    hide Sum8, MaskInput, Header, Cipher, OpenPlain, Decode, Sextets, Values, PadCount;
    var plain := Plain(data, md5, garbage);
    var cipher := Cipher(plain, Mask(workdate, refid, md5), stream);
    DecodeUndoesEncode(cipher, body, st);
    OpensCipher(workdate, refid, body + Pads(PadCount(cipher)), plain, md5, stream, st, rest);
    OpenPlainFinds(data, md5, garbage, rest);
  }

  lemma OpensCipher(
    workdate: seq<byte>, refid: seq<byte>, text: seq<byte>, plain: seq<byte>,
    md5: seq<byte> -> seq<byte>, stream: nat -> byte, st: State, rest: seq<byte>)
    requires |workdate| >= 8 && IsMd5(md5) && |plain| % 8 == 0
    requires Decode(text, st) == Cipher(plain, Mask(workdate, refid, md5), stream)
    ensures Open(workdate, refid, text, md5, stream, st, rest) == OpenPlain(plain + rest, md5)
  {
    hide Sum8, MaskInput, Decode, OpenPlain, Uncipher, Masked, Rc4;
    UncipherUndoesCipher(plain, Mask(workdate, refid, md5), stream);
    CipherLength(plain, Mask(workdate, refid, md5), stream);
  }

  lemma CipherLength(x: seq<byte>, mask: seq<byte>, stream: nat -> byte)
    requires |mask| == 8
    ensures |Cipher(x, mask, stream)| == |x|
  {
  }

  /**
   * Characters behind a sealed text: it still opens exactly when they are harmless for the
   * padded length, and otherwise it is refused for its length, never opened to other data.
   */
  lemma SealedWithTail(
    workdate: seq<byte>, refid: seq<byte>, data: seq<byte>, t: seq<byte>,
    md5: seq<byte> -> seq<byte>, stream: nat -> byte, garbage: seq<byte>, st: State, rest: seq<byte>)
    requires |workdate| >= 8 && |data| <= 4076 && |garbage| >= 7 && Initial(st)
    requires IsMd5(md5) && PAD !in t && LetterFree(t)
    ensures var sealed := Seal(workdate, refid, data, md5, stream, garbage);
            && sealed.Sealed?
            && Open(workdate, refid, sealed.text + t, md5, stream, st, rest)
               == if HarmlessBehind(RoundUp(|data| + 12), |t|) then Opened(data) else BadLength
  {
    RoundUpBound(|data|);
    var plain := Plain(data, md5, garbage);
    var mask := Mask(workdate, refid, md5);
    CipherLength(plain, mask, stream);
    hide Plain, Mask, Cipher, Encode, Decode, OpenPlain, OpenedBuffer, HarmlessBehind, RoundUp;
    var cipher := Cipher(plain, mask, stream);
    EncodingWithTail(cipher, t, st);
    var text := Encode(cipher) + t;
    if HarmlessBehind(|cipher|, |t|) {
      OpensCipher(workdate, refid, text, plain, md5, stream, st, rest);
      OpenPlainFinds(data, md5, garbage, rest);
    } else {
      BadlyLong(|data|, |t|, |Decode(text, st)|);
    }
  }

  /** Data is sealed exactly up to 4076 bytes, and what is sealed opens. */
  lemma SealedOpens(
    workdate: seq<byte>, refid: seq<byte>, data: seq<byte>,
    md5: seq<byte> -> seq<byte>, stream: nat -> byte, garbage: seq<byte>, st: State, rest: seq<byte>)
    requires |workdate| >= 8 && |data| < 10_000 && |garbage| >= 7 && Initial(st)
    requires IsMd5(md5)
    ensures var sealed := Seal(workdate, refid, data, md5, stream, garbage);
            && (sealed.Sealed? <==> |data| <= 4076)
            && (sealed.Sealed? ==> Open(workdate, refid, sealed.text, md5, stream, st, rest) == Opened(data))
  {
    RoundUpBound(|data|);
    hide Plain, Mask, MaskInput, Cipher, Open, Encode, RoundUp;
    if |data| <= 4076 {
      var text := Seal(workdate, refid, data, md5, stream, garbage).text;
      SealedWithTail(workdate, refid, data, [], md5, stream, garbage, st, rest);
      assert text + [] == text;
    }
  }

  /** A byte too few, or one or two too many, are no whole number of blocks. */
  lemma BadlyLong(n: nat, extra: nat, got: nat)
    requires var padded := RoundUp(n + 12);
             && !HarmlessBehind(padded, extra)
             && (padded % 3 == 2 && extra == 1 ==> got == padded - 1)
             && (padded % 3 != 0 && extra >= 2 ==> got == padded + 3 - padded % 3)
    ensures got % 8 != 0
  {
  }

  lemma CipherUndoesUncipher(x: seq<byte>, mask: seq<byte>, stream: nat -> byte)
    requires |mask| == 8
    ensures Cipher(Uncipher(x, mask, stream), mask, stream) == x
  {
    hide Xor;
    forall i | 0 <= i < |x|
      ensures Cipher(Uncipher(x, mask, stream), mask, stream)[i] == x[i]
    {
      XorTwice(Xor(x[i], stream(i)), mask[i % 8]);
      XorTwice(x[i], stream(i));
    }
  }

  /** The text decodes to an envelope of `data`. */
  ghost predicate Envelops(
    workdate: seq<byte>, refid: seq<byte>, bytes: seq<byte>, data: seq<byte>,
    md5: seq<byte> -> seq<byte>, stream: nat -> byte)
    requires |workdate| >= 8 && IsMd5(md5) && |data| < 10_000
  {
    exists garbage: seq<byte> :: IsEnvelope(workdate, refid, bytes, data, md5, stream, garbage)
  }

  ghost predicate IsEnvelope(
    workdate: seq<byte>, refid: seq<byte>, bytes: seq<byte>, data: seq<byte>,
    md5: seq<byte> -> seq<byte>, stream: nat -> byte, garbage: seq<byte>)
    requires |workdate| >= 8 && IsMd5(md5) && |data| < 10_000
  {
    |garbage| >= 7 && bytes == Cipher(Plain(data, md5, garbage), Mask(workdate, refid, md5), stream)
  }

  /**
   * Among the texts of the right length whose header is the length as the sealing writes it,
   * those that open to `data` are exactly the envelopes of `data`.
   */
  lemma OnlyEnvelopesOpen(
    workdate: seq<byte>, refid: seq<byte>, text: seq<byte>, data: seq<byte>,
    md5: seq<byte> -> seq<byte>, stream: nat -> byte, st: State, rest: seq<byte>)
    requires |workdate| >= 8 && IsMd5(md5) && |data| < 10_000
    ensures var bytes := Decode(text, st);
            var plain := Uncipher(bytes, Mask(workdate, refid, md5), stream);
            Envelops(workdate, refid, bytes, data, md5, stream)
            <==> && |bytes| == RoundUp(|data| + 12) && plain[..4] == Header(|data|)
                 && Open(workdate, refid, text, md5, stream, st, rest) == Opened(data)
  {
    hide Decode, Header, Sum8, Cipher, Uncipher, MaskInput, OpenPlain, RoundUp, Mask, Plain;
    var bytes := Decode(text, st);
    var mask := Mask(workdate, refid, md5);
    var plain := Uncipher(bytes, mask, stream);
    UncipherLength(bytes, mask, stream);
    if Envelops(workdate, refid, bytes, data, md5, stream) {
      var garbage: seq<byte> :| IsEnvelope(workdate, refid, bytes, data, md5, stream, garbage);
      CipherLength(Plain(data, md5, garbage), mask, stream);
      UncipherUndoesCipher(Plain(data, md5, garbage), mask, stream);
      OpensCipher(workdate, refid, text, Plain(data, md5, garbage), md5, stream, st, rest);
      OpenPlainFinds(data, md5, garbage, rest);
      PlainHeader(data, md5, garbage);
    }
    if |bytes| == RoundUp(|data| + 12) && plain[..4] == Header(|data|)
      && Open(workdate, refid, text, md5, stream, st, rest) == Opened(data)
    {
      var garbage := PlainFrom(plain, rest, data, md5);
      CipherUndoesUncipher(bytes, mask, stream);
      assert IsEnvelope(workdate, refid, bytes, data, md5, stream, garbage);
    }
  }

  lemma UncipherLength(x: seq<byte>, mask: seq<byte>, stream: nat -> byte)
    requires |mask| == 8
    ensures |Uncipher(x, mask, stream)| == |x|
  {
  }

  lemma PlainHeader(data: seq<byte>, md5: seq<byte> -> seq<byte>, garbage: seq<byte>)
    requires |data| < 10_000 && |garbage| >= 7 && IsMd5(md5)
    ensures RoundUp(|data| + 12) >= 12
    ensures Plain(data, md5, garbage)[..4] == Header(|data|)
  {
    hide Header, Sum8;
  }

  /** A buffer that opens to `data` holds its plain message. */
  lemma PlainFrom(plain: seq<byte>, rest: seq<byte>, data: seq<byte>, md5: seq<byte> -> seq<byte>)
    returns (garbage: seq<byte>)
    requires IsMd5(md5) && |data| < 10_000 && |plain| == RoundUp(|data| + 12)
    requires plain[..4] == Header(|data|) && OpenPlain(plain + rest, md5) == Opened(data)
    ensures |garbage| >= 7 && plain == Plain(data, md5, garbage)
  {
    DeclaredIsLength(|data|);
    hide Declared, Header, Sum8;
    var n := 12 + |data|;
    var buf := plain + rest;
    assert buf[..4] == plain[..4] && buf[4..12] == plain[4..12] && buf[12..n] == plain[12..n];
    garbage := plain[n..] + seq(7, _ => 0);
    assert garbage[..|plain| - n] == plain[n..];
    FourParts(plain, n);
  }

  lemma FourParts(x: seq<byte>, n: nat)
    requires 12 <= n <= |x|
    ensures x == x[..4] + x[4..12] + x[12..n] + x[n..]
  {
  }

  /** One byte too many: 4077 blanks are refused. */
  lemma FirstTooLong(
    workdate: seq<byte>, refid: seq<byte>, md5: seq<byte> -> seq<byte>, stream: nat -> byte, garbage: seq<byte>)
    requires |workdate| >= 8 && |garbage| >= 7 && IsMd5(md5)
    ensures Seal(workdate, refid, seq(4077, _ => 0x20), md5, stream, garbage) == TooLong
    ensures Seal(workdate, refid, seq(4076, _ => 0x20), md5, stream, garbage).Sealed?
  {
    hide Plain, Mask, Cipher, Encode;
    assert RoundUp(4077 + 12) == MAX_BUFF;
  }

  /** What a sealed text decodes to: the plain message under two masks, the digest and the key stream. */
  lemma SealedBytes(
    workdate: seq<byte>, refid: seq<byte>, data: seq<byte>,
    md5: seq<byte> -> seq<byte>, stream: nat -> byte, garbage: seq<byte>, st: State)
    requires |workdate| >= 8 && |data| <= 4076 && |garbage| >= 7 && IsMd5(md5) && Initial(st)
    ensures var sealed := Seal(workdate, refid, data, md5, stream, garbage);
            var plain, mask := Plain(data, md5, garbage), md5(MaskInput(workdate, refid));
            && sealed.Sealed?
            && var bytes := Decode(sealed.text, st);
               && |bytes| == RoundUp(|data| + 12)
               && forall i :: 0 <= i < |bytes| ==> bytes[i] == plain[i] ^ mask[i % 8] ^ stream(i)
  {
    RoundUpBound(|data|);
    var plain := Plain(data, md5, garbage);
    var mask := Mask(workdate, refid, md5);
    CipherIs(plain, mask, stream);
    assert forall j :: 0 <= j < 8 ==> mask[j] == md5(MaskInput(workdate, refid))[j];
    hide Plain, Cipher, Encode, Decode, RoundUp, Mask, MaskInput;
    RoundTrip(Cipher(plain, mask, stream), st);
  }

  lemma CipherIs(x: seq<byte>, mask: seq<byte>, stream: nat -> byte)
    requires |mask| == 8
    ensures var y := Cipher(x, mask, stream);
            |y| == |x| && forall i :: 0 <= i < |x| ==> y[i] == x[i] ^ mask[i % 8] ^ stream(i)
  {
  }

  lemma RoundUpBound(n: nat)
    ensures RoundUp(n + 12) < MAX_BUFF <==> n <= 4076
  {
  }

  // ----- the program -----

  /** The masking loop, eight bytes at a time. */
  method MaskBlocks(buf: array<byte>, count: nat, mask: array<byte>)
    requires 8 * count <= buf.Length && mask.Length == 8 && buf != mask
    modifies buf
    ensures buf[..8 * count] == Masked(old(buf[..8 * count]), mask[..])
    ensures buf[8 * count..] == old(buf[8 * count..])
  {
    hide Xor, Masked;
    ghost var x, m := buf[..], mask[..];
    MaskedNothing(x, m);
    for i := 0 to count
      invariant mask[..] == m
      invariant buf[..] == Masked(x[..8 * i], m) + x[8 * i..]
    {
      var n := 8 * i;
      ghost var before := buf[..];
      MaskBlock(buf, n, mask);
      AfterBlock(x, n, m, before, buf[..]);
    }
  }

  lemma AfterBlock(x: seq<byte>, n: nat, mask: seq<byte>, before: seq<byte>, after: seq<byte>)
    requires n % 8 == 0 && n + 8 <= |x| && |mask| == 8 && |before| == |after| == |x|
    requires before == Masked(x[..n], mask) + x[n..]
    requires after[..n] == before[..n] && after[n + 8..] == before[n + 8..]
    requires after[n..n + 8] == XorBytes(before[n..n + 8], mask)
    ensures after == Masked(x[..n + 8], mask) + x[n + 8..]
  {
    hide Xor;
    forall i | 0 <= i < |x|
      ensures after[i] == if i < n + 8 then Xor(x[i], mask[i % 8]) else x[i]
    {
      ByteAfterBlock(x, n, mask, before, after, i);
    }
  }

  lemma ByteAfterBlock(x: seq<byte>, n: nat, mask: seq<byte>, before: seq<byte>, after: seq<byte>, i: nat)
    requires n % 8 == 0 && n + 8 <= |x| && |mask| == 8 && |before| == |after| == |x| && i < |x|
    requires before == Masked(x[..n], mask) + x[n..]
    requires after[..n] == before[..n] && after[n + 8..] == before[n + 8..]
    requires after[n..n + 8] == XorBytes(before[n..n + 8], mask)
    ensures after[i] == if i < n + 8 then Xor(x[i], mask[i % 8]) else x[i]
  {
    hide Xor, Masked, XorBytes;
    if i < n {
      assert after[i] == after[..n][i] == before[..n][i] == Masked(x[..n], mask)[i];
    } else if i < n + 8 {
      var j := i - n;
      assert i % 8 == j;
      assert before[n..n + 8][j] == before[i] == x[n..][j] == x[i];
      assert after[i] == after[n..n + 8][j];
    } else {
      assert after[i] == after[n + 8..][i - n - 8] == before[n + 8..][i - n - 8] == before[i] == x[n..][i - n];
    }
  }

  method MaskBlock(buf: array<byte>, n: nat, mask: array<byte>)
    requires n + 8 <= buf.Length && mask.Length == 8 && buf != mask
    modifies buf
    ensures buf[..][..n] == old(buf[..][..n]) && buf[..][n + 8..] == old(buf[..][n + 8..])
    ensures buf[..][n..n + 8] == XorBytes(old(buf[..][n..n + 8]), mask[..])
  {
    assert mask[0..8] == mask[..];
    DoXor(buf, n, mask, 0, 8);
  }

  lemma MaskedNothing(x: seq<byte>, mask: seq<byte>)
    requires |mask| == 8
    ensures Masked(x[..0], mask) + x[0..] == x
  {
  }

  /** RC4 into a buffer of its own, which is then copied back. */
  method EncipherInPlace(buf: array<byte>, len: nat, stream: nat -> byte)
    requires len <= buf.Length
    modifies buf
    ensures buf[..len] == Rc4(old(buf[..len]), stream)
    ensures buf[len..] == old(buf[len..])
  {
    hide Xor;
    var buff := new byte[len];
    for i := 0 to len
      invariant forall k :: 0 <= k < i ==> buff[k] == Xor(buf[k], stream(k))
      modifies buff
    {
      buff[i] := Xor(buf[i], stream(i));
    }
    forall i | 0 <= i < len {
      buf[i] := buff[i];
    }
  }

  /** memcpy(buf + at, x, |x|) */
  method Copy(buf: array<byte>, at: nat, x: seq<byte>)
    requires at + |x| <= buf.Length
    modifies buf
    ensures buf[..] == old(buf[..at]) + x + old(buf[at + |x|..])
  {
    forall i | 0 <= i < |x| {
      buf[at + i] := x[i];
    }
  }

  /** pTempBuff up to the masking. */
  method FillPlain(buf: array<byte>, data: array<byte>, len: nat, md5: seq<byte> -> seq<byte>)
    returns (ghost garbage: seq<byte>)
    requires IsMd5(md5) && buf.Length == 2 * MAX_BUFF && buf != data
    requires len <= data.Length && len + 12 <= buf.Length
    modifies buf
    ensures |garbage| >= 7
    ensures buf[..RoundUp(len + 12)] == Plain(data[..len], md5, garbage)
  {
    hide Header, Sum8, RoundUp;
    ghost var behind := buf[12 + len..];
    garbage := behind + seq(7, _ => 0);
    var h, s, d := Header(len), Sum8(data[..len], md5), data[..len];
    Copy(buf, 0, h);
    Copy(buf, 4, s);
    Copy(buf, 12, d);
    assert buf[..] == h + s + d + behind;
    CutBehind(h + s + d, behind, garbage, RoundUp(len + 12));
  }

  /** Only the first bytes of what follows `front` are taken. */
  lemma CutBehind(front: seq<byte>, behind: seq<byte>, garbage: seq<byte>, n: nat)
    requires |front| <= n <= |front + behind| && behind <= garbage
    ensures (front + behind)[..n] == front + garbage[..n - |front|]
  {
  }

  /** Data_Encrypt_Soft10 */
  method EncryptSoft10(
    workdate: seq<byte>, refid: seq<byte>, data: array<byte>, len: nat, enc_data: array<byte>,
    md5: seq<byte> -> seq<byte>, stream: nat -> byte)
    returns (rc: int, enc_len: nat, ghost garbage: seq<byte>)
    requires |workdate| >= 8 && IsMd5(md5) && len <= data.Length && len + 12 <= 2 * MAX_BUFF
    requires var n := RoundUp(len + 12);
             n < MAX_BUFF ==> n / 3 * 4 + (if n % 3 == 0 then 0 else 4) <= enc_data.Length
    modifies enc_data
    ensures |garbage| >= 7
    ensures match Seal(workdate, refid, old(data[..len]), md5, stream, garbage)
            case TooLong => rc == -2 && enc_len == 0
            case Sealed(text) => rc == 0 && enc_len == |text| <= enc_data.Length && enc_data[..enc_len] == text
  {
    hide Plain, MaskInput, Sum8, Masked, Rc4, Encode;
    var pTempBuff := new byte[2 * MAX_BUFF];
    garbage := FillPlain(pTempBuff, data, len, md5);
    ghost var plain := Plain(data[..len], md5, garbage);
    var padded := RoundUp(len + 12);
    if padded >= MAX_BUFF {
      return ERR_DATALEN, 0, garbage;
    }
    var mask := NewMask(workdate, refid, md5);
    assert 8 * (padded / 8) == padded;
    MaskBlocks(pTempBuff, padded / 8, mask);
    EncipherInPlace(pTempBuff, padded, stream);
    assert pTempBuff[..padded] == Cipher(plain, Mask(workdate, refid, md5), stream);
    enc_len := Base64Encode(enc_data, pTempBuff, padded);
    rc := 0;
  }

  method NewMask(workdate: seq<byte>, refid: seq<byte>, md5: seq<byte> -> seq<byte>) returns (mask: array<byte>)
    requires |workdate| >= 8 && IsMd5(md5)
    ensures fresh(mask) && mask.Length == 8 && mask[..] == Mask(workdate, refid, md5)
  {
    hide MaskInput, Sum8;
    var m := Mask(workdate, refid, md5);
    mask := new byte[8](i requires 0 <= i < 8 => m[i]);
  }

  /**
   * Data_Decrypt_Soft10. `overrun` says that the program would read or write outside its
   * buffers: at a declared length that leads out of pTempBuff, or at data that the caller's
   * buffer cannot take.
   */
  method DecryptSoft10(
    workdate: seq<byte>, refid: seq<byte>, data: array<byte>, len: nat, dec_data: array<byte>,
    md5: seq<byte> -> seq<byte>, stream: nat -> byte)
    returns (rc: int, dec_len: nat, overrun: bool, ghost st: State, ghost rest: seq<byte>)
    requires |workdate| >= 8 && IsMd5(md5) && len <= data.Length && 3 * ((len + 3) / 4) <= 2 * MAX_BUFF
    modifies dec_data
    ensures Initial(st) && |Decode(old(data[..len]), st)| + |rest| == 2 * MAX_BUFF
    ensures Delivers(Open(workdate, refid, old(data[..len]), md5, stream, st, rest),
                     rc, dec_len, overrun, dec_data[..])
    ensures !overrun && rc != -2 ==>
      var buf := OpenedBuffer(workdate, refid, Decode(old(data[..len]), st), md5, stream, rest);
      rc == if SumMatches(buf, md5) then 0 else -3
    ensures rc != 0 || overrun ==> dec_data[..] == old(dec_data[..])
  {
    hide MaskInput, Sum8, Masked, Rc4, Decode, OpenPlain, SumMatches;
    var pTempBuff := new byte[2 * MAX_BUFF];
    var nLen;
    nLen, st := Base64Decode(pTempBuff, data, len);
    rest := pTempBuff[nLen..];
    if nLen % 8 != 0 {
      return ERR_DATALEN, 0, false, st, rest;
    }
    var mask := NewMask(workdate, refid, md5);
    EncipherInPlace(pTempBuff, nLen, stream);
    assert 8 * (nLen / 8) == nLen;
    MaskBlocks(pTempBuff, nLen / 8, mask);
    assert pTempBuff[..nLen] == Uncipher(Decode(data[..len], st), Mask(workdate, refid, md5), stream);
    assert pTempBuff[..] == pTempBuff[..nLen] + pTempBuff[nLen..];
    rc, dec_len, overrun := TakeData(pTempBuff, dec_data, md5);
  }

  /** The data a buffer declares is all there, and has the check sum stored with it. */
  predicate SumMatches(buf: seq<byte>, md5: seq<byte> -> seq<byte>)
    requires IsMd5(md5)
  {
    && |buf| >= 12
    && var n := Declared(buf[..4]);
       0 <= n <= |buf| - 12 && md5(buf[12..12 + n])[..8] == buf[4..12]
  }

  /** What the caller gets for an outcome; `buf` is his buffer. */
  ghost predicate Delivers(o: Opened, rc: int, dec_len: nat, overrun: bool, buf: seq<byte>)
  {
    match o
    case BadLength => !overrun && rc == -2 && dec_len == 0
    case BadSum => !overrun && rc == -3 && dec_len == 0
    case Overrun => overrun
    case Opened(d) =>
      if |d| > |buf| then overrun
      else !overrun && rc == 0 && dec_len == |d| && buf[..dec_len] == d
  }

  /** The end of Data_Decrypt_Soft10: length, check sum, data. */
  method TakeData(buf: array<byte>, dec_data: array<byte>, md5: seq<byte> -> seq<byte>)
    returns (rc: int, dec_len: nat, overrun: bool)
    requires IsMd5(md5) && buf.Length >= 12 && buf != dec_data
    modifies dec_data
    ensures Delivers(OpenPlain(old(buf[..]), md5), rc, dec_len, overrun, dec_data[..])
    ensures rc != ERR_DATALEN
    ensures !overrun ==> rc == if SumMatches(old(buf[..]), md5) then 0 else -3
    ensures rc != 0 || overrun ==> dec_data[..] == old(dec_data[..])
  {
    hide Declared;
    ghost var all := buf[..];
    assert buf[..4] == all[..4] && buf[4..12] == all[4..12];
    var n := Declared(buf[..4]);
    if n < 0 || 12 + n > buf.Length {
      return 0, 0, true;
    }
    var d := buf[12..12 + n];
    assert d == all[12..12 + n];
    if buf[4..12] != Sum8(d, md5) {
      return ERR_CARDDATA_CRC, 0, false;
    }
    if n > dec_data.Length {
      return 0, 0, true;
    }
    forall i | 0 <= i < n {
      dec_data[i] := buf[12 + i];
    }
    assert dec_data[..n] == d;
    return 0, n, false;
  }
}
