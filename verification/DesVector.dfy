// Known answers, in literals: the widely published example of the cipher, with the key
// 133457799BBCDFF1 and the block 0123456789ABCDEF, and a PIN block under the same key.

module DesVector {
  import opened DesSpec
  import opened DesWords
  import opened Hex

  const KEY: bv64 := 0x133457799BBCDFF1
  const PLAIN: bv64 := 0x0123456789ABCDEF
  const PIN_BLOCK: bv64 := 0x06121477DCBA9876

  lemma Keys4()
    ensures KeyWords(KEY, 0) == (0xF0CCAAF, 0x556678F)
    ensures KeyWords(KEY, 1) == (0xE19955F, 0xAACCF1E)
    ensures RoundKeyWord(KEY, 1) == 0x1B02EFFC7072
    ensures KeyWords(KEY, 2) == (0xC332ABF, 0x5599E3D)
    ensures RoundKeyWord(KEY, 2) == 0x79AED9DBC9E5
    ensures KeyWords(KEY, 3) == (0x0CCAAFF, 0x56678F5)
    ensures RoundKeyWord(KEY, 3) == 0x55FC8A42CF99
    ensures KeyWords(KEY, 4) == (0x332ABFC, 0x599E3D5)
    ensures RoundKeyWord(KEY, 4) == 0x72ADD6DB351D
  {
  }

  lemma Keys8()
    ensures KeyWords(KEY, 4) == (0x332ABFC, 0x599E3D5)
    ensures KeyWords(KEY, 5) == (0xCCAAFF0, 0x6678F55)
    ensures RoundKeyWord(KEY, 5) == 0x7CEC07EB53A8
    ensures KeyWords(KEY, 6) == (0x32ABFC3, 0x99E3D55)
    ensures RoundKeyWord(KEY, 6) == 0x63A53E507B2F
    ensures KeyWords(KEY, 7) == (0xCAAFF0C, 0x678F556)
    ensures RoundKeyWord(KEY, 7) == 0xEC84B7F618BC
    ensures KeyWords(KEY, 8) == (0x2ABFC33, 0x9E3D559)
    ensures RoundKeyWord(KEY, 8) == 0xF78A3AC13BFB
  {
    Keys4();
  }

  lemma Keys12()
    ensures KeyWords(KEY, 8) == (0x2ABFC33, 0x9E3D559)
    ensures KeyWords(KEY, 9) == (0x557F866, 0x3C7AAB3)
    ensures RoundKeyWord(KEY, 9) == 0xE0DBEBEDE781
    ensures KeyWords(KEY, 10) == (0x55FE199, 0xF1EAACC)
    ensures RoundKeyWord(KEY, 10) == 0xB1F347BA464F
    ensures KeyWords(KEY, 11) == (0x57F8665, 0xC7AAB33)
    ensures RoundKeyWord(KEY, 11) == 0x215FD3DED386
    ensures KeyWords(KEY, 12) == (0x5FE1995, 0x1EAACCF)
    ensures RoundKeyWord(KEY, 12) == 0x7571F59467E9
  {
    Keys8();
  }

  lemma Keys16()
    ensures KeyWords(KEY, 12) == (0x5FE1995, 0x1EAACCF)
    ensures KeyWords(KEY, 13) == (0x7F86655, 0x7AAB33C)
    ensures RoundKeyWord(KEY, 13) == 0x97C5D1FABA41
    ensures KeyWords(KEY, 14) == (0xFE19955, 0xEAACCF1)
    ensures RoundKeyWord(KEY, 14) == 0x5F43B7F2E73A
    ensures KeyWords(KEY, 15) == (0xF866557, 0xAAB33C7)
    ensures RoundKeyWord(KEY, 15) == 0xBF918D3D3F0A
    ensures KeyWords(KEY, 16) == (0xF0CCAAF, 0x556678F)
    ensures RoundKeyWord(KEY, 16) == 0xCB3D8B0E17F5
  {
    Keys12();
  }

  /** The halves of a block after n rounds. */
  predicate At(block: bv64, n: nat, l: bv32, r: bv32)
  {
    Rounds(KEY, n, FirstLeft(block), FirstRight(block)) == (l, r)
  }

  lemma Next(block: bv64, n: nat, l: bv32, r: bv32, k: bv48)
    requires At(block, n, l, r) && RoundKeyWord(KEY, n + 1) == k
    ensures At(block, n + 1, r, MixWord(r, k) ^ l)
  {
    hide MixWord, RoundKeyWord, FirstLeft, FirstRight;
  }

  lemma Rounds0()
    ensures At(PLAIN, 0, 0xCC00CCFF, 0xF0AAF0AA)
  {
  }

  lemma Rounds4()
    ensures At(PLAIN, 4, 0xA25C0BF4, 0x77220045)
  {
    hide At, KeyWords, RoundKeyWord;
    Rounds0();
    Keys4();
    Next(PLAIN, 0, 0xCC00CCFF, 0xF0AAF0AA, 0x1B02EFFC7072);
    assert MixWord(0xF0AAF0AA, 0x1B02EFFC7072) == 0x234AA9BB;
    Next(PLAIN, 1, 0xF0AAF0AA, 0xEF4A6544, 0x79AED9DBC9E5);
    assert MixWord(0xEF4A6544, 0x79AED9DBC9E5) == 0x3CAB87A3;
    Next(PLAIN, 2, 0xEF4A6544, 0xCC017709, 0x55FC8A42CF99);
    assert MixWord(0xCC017709, 0x55FC8A42CF99) == 0x4D166EB0;
    Next(PLAIN, 3, 0xCC017709, 0xA25C0BF4, 0x72ADD6DB351D);
    assert MixWord(0xA25C0BF4, 0x72ADD6DB351D) == 0xBB23774C;
  }

  lemma Rounds8()
    ensures At(PLAIN, 8, 0x064ABA10, 0xD5694B90)
  {
    hide At, KeyWords, RoundKeyWord;
    Rounds4();
    Keys8();
    Next(PLAIN, 4, 0xA25C0BF4, 0x77220045, 0x7CEC07EB53A8);
    assert MixWord(0x77220045, 0x7CEC07EB53A8) == 0x2813ADC3;
    Next(PLAIN, 5, 0x77220045, 0x8A4FA637, 0x63A53E507B2F);
    assert MixWord(0x8A4FA637, 0x63A53E507B2F) == 0x9E45CD2C;
    Next(PLAIN, 6, 0x8A4FA637, 0xE967CD69, 0xEC84B7F618BC);
    assert MixWord(0xE967CD69, 0xEC84B7F618BC) == 0x8C051C27;
    Next(PLAIN, 7, 0xE967CD69, 0x064ABA10, 0xF78A3AC13BFB);
    assert MixWord(0x064ABA10, 0xF78A3AC13BFB) == 0x3C0E86F9;
  }

  lemma Rounds12()
    ensures At(PLAIN, 12, 0xC5783C78, 0x75BD1858)
  {
    hide At, KeyWords, RoundKeyWord;
    Rounds8();
    Keys12();
    Next(PLAIN, 8, 0x064ABA10, 0xD5694B90, 0xE0DBEBEDE781);
    assert MixWord(0xD5694B90, 0xE0DBEBEDE781) == 0x22367C6A;
    Next(PLAIN, 9, 0xD5694B90, 0x247CC67A, 0xB1F347BA464F);
    assert MixWord(0x247CC67A, 0xB1F347BA464F) == 0x62BC9C22;
    Next(PLAIN, 10, 0x247CC67A, 0xB7D5D7B2, 0x215FD3DED386);
    assert MixWord(0xB7D5D7B2, 0x215FD3DED386) == 0xE104FA02;
    Next(PLAIN, 11, 0xB7D5D7B2, 0xC5783C78, 0x7571F59467E9);
    assert MixWord(0xC5783C78, 0x7571F59467E9) == 0xC268CFEA;
  }

  lemma Rounds16()
    ensures At(PLAIN, 16, 0x43423234, 0x0A4CD995)
  {
    hide At, KeyWords, RoundKeyWord;
    Rounds12();
    Keys16();
    Next(PLAIN, 12, 0xC5783C78, 0x75BD1858, 0x97C5D1FABA41);
    assert MixWord(0x75BD1858, 0x97C5D1FABA41) == 0xDDBB2922;
    Next(PLAIN, 13, 0x75BD1858, 0x18C3155A, 0x5F43B7F2E73A);
    assert MixWord(0x18C3155A, 0x5F43B7F2E73A) == 0xB7318E55;
    Next(PLAIN, 14, 0x18C3155A, 0xC28C960D, 0xBF918D3D3F0A);
    assert MixWord(0xC28C960D, 0xBF918D3D3F0A) == 0x5B81276E;
    Next(PLAIN, 15, 0xC28C960D, 0x43423234, 0xCB3D8B0E17F5);
    assert MixWord(0x43423234, 0xCB3D8B0E17F5) == 0xC8C04F98;
  }

  lemma PinRounds0()
    ensures At(PIN_BLOCK, 0, 0x98FE9D08, 0x70A870AB)
  {
  }

  lemma PinRounds4()
    ensures At(PIN_BLOCK, 4, 0xEFD63037, 0x3009D69B)
  {
    hide At, KeyWords, RoundKeyWord;
    PinRounds0();
    Keys4();
    Next(PIN_BLOCK, 0, 0x98FE9D08, 0x70A870AB, 0x1B02EFFC7072);
    assert MixWord(0x70A870AB, 0x1B02EFFC7072) == 0x02CCB1FB;
    Next(PIN_BLOCK, 1, 0x70A870AB, 0x9A322CF3, 0x79AED9DBC9E5);
    assert MixWord(0x9A322CF3, 0x79AED9DBC9E5) == 0x21764487;
    Next(PIN_BLOCK, 2, 0x9A322CF3, 0x51DE342C, 0x55FC8A42CF99);
    assert MixWord(0x51DE342C, 0x55FC8A42CF99) == 0x75E41CC4;
    Next(PIN_BLOCK, 3, 0x51DE342C, 0xEFD63037, 0x72ADD6DB351D);
    assert MixWord(0xEFD63037, 0x72ADD6DB351D) == 0x61D7E2B7;
  }

  lemma PinRounds8()
    ensures At(PIN_BLOCK, 8, 0x9231E634, 0x8115914C)
  {
    hide At, KeyWords, RoundKeyWord;
    PinRounds4();
    Keys8();
    Next(PIN_BLOCK, 4, 0xEFD63037, 0x3009D69B, 0x7CEC07EB53A8);
    assert MixWord(0x3009D69B, 0x7CEC07EB53A8) == 0x10A34AE9;
    Next(PIN_BLOCK, 5, 0x3009D69B, 0xFF757ADE, 0x63A53E507B2F);
    assert MixWord(0xFF757ADE, 0x63A53E507B2F) == 0x0A1C8D45;
    Next(PIN_BLOCK, 6, 0xFF757ADE, 0x3A155BDE, 0xEC84B7F618BC);
    assert MixWord(0x3A155BDE, 0xEC84B7F618BC) == 0x6D449CEA;
    Next(PIN_BLOCK, 7, 0x3A155BDE, 0x9231E634, 0xF78A3AC13BFB);
    assert MixWord(0x9231E634, 0xF78A3AC13BFB) == 0xBB00CA92;
  }

  lemma PinRounds12()
    ensures At(PIN_BLOCK, 12, 0x44844E0E, 0x2277BD82)
  {
    hide At, KeyWords, RoundKeyWord;
    PinRounds8();
    Keys12();
    Next(PIN_BLOCK, 8, 0x9231E634, 0x8115914C, 0xE0DBEBEDE781);
    assert MixWord(0x8115914C, 0xE0DBEBEDE781) == 0xD2FDBC37;
    Next(PIN_BLOCK, 9, 0x8115914C, 0x40CC5A03, 0xB1F347BA464F);
    assert MixWord(0x40CC5A03, 0xB1F347BA464F) == 0xC98F8542;
    Next(PIN_BLOCK, 10, 0x40CC5A03, 0x489A140E, 0x215FD3DED386);
    assert MixWord(0x489A140E, 0x215FD3DED386) == 0x0448140D;
    Next(PIN_BLOCK, 11, 0x489A140E, 0x44844E0E, 0x7571F59467E9);
    assert MixWord(0x44844E0E, 0x7571F59467E9) == 0x6AEDA98C;
  }

  lemma PinRounds16()
    ensures At(PIN_BLOCK, 16, 0xE7BBBCD3, 0xF5EC7F14)
  {
    hide At, KeyWords, RoundKeyWord;
    PinRounds12();
    Keys16();
    Next(PIN_BLOCK, 12, 0x44844E0E, 0x2277BD82, 0x97C5D1FABA41);
    assert MixWord(0x2277BD82, 0x97C5D1FABA41) == 0x088DDF22;
    Next(PIN_BLOCK, 13, 0x2277BD82, 0x4C09912C, 0x5F43B7F2E73A);
    assert MixWord(0x4C09912C, 0x5F43B7F2E73A) == 0x883ECFDF;
    Next(PIN_BLOCK, 14, 0x4C09912C, 0xAA49725D, 0xBF918D3D3F0A);
    assert MixWord(0xAA49725D, 0xBF918D3D3F0A) == 0xABB22DFF;
    Next(PIN_BLOCK, 15, 0xAA49725D, 0xE7BBBCD3, 0xCB3D8B0E17F5);
    assert MixWord(0xE7BBBCD3, 0xCB3D8B0E17F5) == 0x5FA50D49;
  }

  lemma ExampleBytes()
    ensures BlockOf(PLAIN) == [0x01, 0x23, 0x45, 0x67, 0x89, 0xAB, 0xCD, 0xEF]
    ensures BlockOf(KEY) == [0x13, 0x34, 0x57, 0x79, 0x9B, 0xBC, 0xDF, 0xF1]
    ensures BlockOf(0x85E813540F0AB405) == [0x85, 0xE8, 0x13, 0x54, 0x0F, 0x0A, 0xB4, 0x05]
    ensures BlockOf(PIN_BLOCK) == [0x06, 0x12, 0x14, 0x77, 0xDC, 0xBA, 0x98, 0x76]
    ensures BlockOf(0xE6A6DD3C6FFCD6FA) == [0xE6, 0xA6, 0xDD, 0x3C, 0x6F, 0xFC, 0xD6, 0xFA]
  {
  }

  /** The answer that was published with the key and the block. */
  lemma PublishedVector()
    ensures Encrypt([0x01, 0x23, 0x45, 0x67, 0x89, 0xAB, 0xCD, 0xEF], [0x13, 0x34, 0x57, 0x79, 0x9B, 0xBC, 0xDF, 0xF1])
         == [0x85, 0xE8, 0x13, 0x54, 0x0F, 0x0A, 0xB4, 0x05]
    ensures Decrypt([0x85, 0xE8, 0x13, 0x54, 0x0F, 0x0A, 0xB4, 0x05], [0x13, 0x34, 0x57, 0x79, 0x9B, 0xBC, 0xDF, 0xF1])
         == [0x01, 0x23, 0x45, 0x67, 0x89, 0xAB, 0xCD, 0xEF]
  {
    Rounds16();
    hide Rounds;
    assert EncryptWord(PLAIN, KEY) == 0x85E813540F0AB405;
    ExampleBytes();
    hide EncryptWord, BlockOf, Encrypt, Decrypt;
    EncryptIsWords(PLAIN, KEY);
    CipherRoundTrip(BlockOf(PLAIN), BlockOf(KEY));
  }

  lemma PinBlockVector()
    ensures Encrypt([0x06, 0x12, 0x14, 0x77, 0xDC, 0xBA, 0x98, 0x76], [0x13, 0x34, 0x57, 0x79, 0x9B, 0xBC, 0xDF, 0xF1])
         == [0xE6, 0xA6, 0xDD, 0x3C, 0x6F, 0xFC, 0xD6, 0xFA]
  {
    PinRounds16();
    hide Rounds;
    assert EncryptWord(PIN_BLOCK, KEY) == 0xE6A6DD3C6FFCD6FA;
    ExampleBytes();
    hide EncryptWord, BlockOf, Encrypt;
    EncryptIsWords(PIN_BLOCK, KEY);
  }
}
