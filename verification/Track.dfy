// PIN encryption against a magnetic track: the account number is cut out of the
// caller's track buffer, in place.

module Track {
  import opened Text
  import opened CString

  const E_PACK_GETVAL: int := 402
  const E_SYS_SJLENCRYPT: int := 309
  const E_SYS_SJLDECRYPT: int := 310

  /**
   * The security module's two operations on (bank, account, PIN or block): a return code,
   * 0 for success, and the result.
   */
  datatype Module = Module(
    encrypt: (string, string, string) -> (int, string),
    decrypt: (string, string, string) -> (int, string))

  /** Decryption undoes encryption for this bank, account and PIN. */
  ghost predicate Inverse(m: Module, bank: string, acct: string, pin: string)
  {
    var (rc, block) := m.encrypt(bank, acct, pin);
    rc == 0 && m.decrypt(bank, acct, block) == (0, pin)
  }

  /** The account number of a track: what comes before the first '='. */
  function Account(track: string): string
  {
    track[..IndexOf(track, '=')]
  }

  /** What GetAcctNo leaves in the buffer; a track shorter than 8 is refused and kept. */
  function TrackAfter(track: string): string
  {
    if |track| < 8 then track else Account(track)
  }

  function BankNo(cbankno: string): string
  {
    "20" + cbankno
  }

  method GetAcctNo(track: array<char>) returns (ok: bool)
    requires NUL in track[..]
    modifies track
    ensures NUL in track[..]
    ensures ok <==> |old(CStr(track[..]))| >= 8
    ensures CStr(track[..]) == TrackAfter(old(CStr(track[..])))
  {
    ghost var text := CStr(track[..]);
    assert track[..] == track[0..];
    var l := StrLen(track, 0);
    if l < 8 {
      return false;
    }
    var p := 0;
    while p < l && track[p] != '='
      invariant p <= l
      invariant forall k :: 0 <= k < p ==> text[k] != '='
    {
      p := p + 1;
    }
    IndexOfIs(text, '=', p);
    if p < l {
      track[p] := NUL;
      assert track[..][..p] == text[..p];
      CStrIs(track[..], text[..p]);
      assert track[p] == NUL;
    } else {
      assert text[..p] == text;
    }
    return true;
  }

  /** SYDEncrypt: the code, and the encrypted PIN when the code is 0. */
  function EncryptResult(track: string, pwd: string, bank: string, m: Module): (int, string)
  {
    if |track| < 8 then (E_PACK_GETVAL, "")
    else
      var (rc, block) := m.encrypt(bank, Account(track), pwd);
      if rc != 0 then (E_SYS_SJLENCRYPT, "") else (0, block)
  }

  function DecryptResult(block: string, track: string, bank: string, m: Module): (int, string)
  {
    if |track| < 8 then (E_PACK_GETVAL, "")
    else
      var (rc, pin) := m.decrypt(bank, Account(track), block);
      if rc != 0 then (E_SYS_SJLDECRYPT, "") else (0, pin)
  }

  method SYDEncrypt(track: array<char>, pwd: string, cbankno: string, m: Module)
    returns (rc: int, encryptedPin: string)
    requires NUL in track[..] && |cbankno| <= 10
    modifies track
    ensures NUL in track[..] && CStr(track[..]) == TrackAfter(old(CStr(track[..])))
    ensures (rc, encryptedPin) == EncryptResult(old(CStr(track[..])), pwd, BankNo(cbankno), m)
  {
    var ok := GetAcctNo(track);
    if !ok {
      return E_PACK_GETVAL, "";
    }
    assert track[..] == track[0..];
    var l := StrLen(track, 0);
    var r := m.encrypt(BankNo(cbankno), track[..l], pwd);
    if r.0 != 0 {
      return E_SYS_SJLENCRYPT, "";
    }
    return 0, r.1;
  }

  method SYDDecrypt(block: string, track: array<char>, cbankno: string, m: Module)
    returns (rc: int, pin: string)
    requires NUL in track[..] && |cbankno| <= 10
    modifies track
    ensures NUL in track[..] && CStr(track[..]) == TrackAfter(old(CStr(track[..])))
    ensures (rc, pin) == DecryptResult(block, old(CStr(track[..])), BankNo(cbankno), m)
  {
    var ok := GetAcctNo(track);
    if !ok {
      return E_PACK_GETVAL, "";
    }
    assert track[..] == track[0..];
    var l := StrLen(track, 0);
    var r := m.decrypt(BankNo(cbankno), track[..l], block);
    if r.0 != 0 {
      return E_SYS_SJLDECRYPT, "";
    }
    return 0, r.1;
  }

  /**
   * Encrypting and then decrypting with one and the same track buffer gives the PIN back
   * exactly when the track has no '=' among its first eight characters. Otherwise the
   * first call leaves too short a track for the second.
   */
  lemma PinRoundTrip(track: string, pin: string, bank: string, m: Module)
    requires |track| >= 8 && Inverse(m, bank, Account(track), pin)
    ensures var (rc, block) := EncryptResult(track, pin, bank, m);
            var back := DecryptResult(block, TrackAfter(track), bank, m);
            && rc == 0
            && (back == (0, pin) <==> forall k :: 0 <= k < 8 ==> track[k] != '=')
            && (back != (0, pin) ==> back == (E_PACK_GETVAL, ""))
  {
    var cut := TrackAfter(track);
    if |cut| >= 8 {
      IndexOfIs(cut, '=', |cut|);
      assert Account(cut) == cut;
    } else {
      assert track[IndexOf(track, '=')] == '=';
    }
  }

  /** An '=' as eighth character: the second call refuses the track the first one cut. */
  lemma EarlySignLosesPin(pin: string, bank: string, m: Module)
    requires Inverse(m, bank, "1234567", pin)
    ensures var track := "1234567=890";
            var (rc, block) := EncryptResult(track, pin, bank, m);
            rc == 0 && DecryptResult(block, TrackAfter(track), bank, m) == (402, "")
  {
    var track := "1234567=890";
    IndexOfIs(track, '=', 7);
    assert Account(track) == "1234567";
    hide EncryptResult, DecryptResult, Inverse, TrackAfter;
    PinRoundTrip(track, pin, bank, m);
  }

  /** What the security module is given, for a track with a separator: "20" and the bank, the account, the PIN. */
  lemma ModuleGets(acct: string, rest: string, pwd: string, bankno: string, m: Module)
    requires '=' !in acct && |acct| + 1 + |rest| >= 8
    ensures var r := m.encrypt("20" + bankno, acct, pwd);
            EncryptResult(acct + "=" + rest, pwd, BankNo(bankno), m) == if r.0 != 0 then (309, "") else (0, r.1)
    ensures var r := m.decrypt("20" + bankno, acct, pwd);
            DecryptResult(pwd, acct + "=" + rest, BankNo(bankno), m) == if r.0 != 0 then (310, "") else (0, r.1)
  {
    var track := acct + "=" + rest;
    IndexOfIs(track, '=', |acct|);
    assert Account(track) == acct;
  }

  /** Without a separator the whole track is the account; a short one is refused before the module is asked. */
  lemma ModuleGetsWhole(track: string, pwd: string, bankno: string, m: Module)
    requires '=' !in track
    ensures var r := m.encrypt("20" + bankno, track, pwd);
            EncryptResult(track, pwd, BankNo(bankno), m)
            == if |track| < 8 then (402, "") else if r.0 != 0 then (309, "") else (0, r.1)
    ensures var r := m.decrypt("20" + bankno, track, pwd);
            DecryptResult(pwd, track, BankNo(bankno), m)
            == if |track| < 8 then (402, "") else if r.0 != 0 then (310, "") else (0, r.1)
  {
    IndexOfIs(track, '=', |track|);
    assert Account(track) == track;
  }
}
