// Operator passwords: the digest of a fixed-width layout of five fields.

module OperPwd {
  import opened Text
  import opened Decimal

  const SBUF_SIZE: nat := 256
  const DIGEST_SIZE: nat := 32

  datatype Operator = Operator(orgid: string, operid: string, name: string, passwd: string, regdate: string)

  /** "%-<w>s": blanks on the right up to width `w`, never truncating. */
  function PadRight(s: string, w: nat): (r: string)
    ensures |r| == if |s| < w then w else |s|
  {
    if |s| < w then s + Repeat(' ', w - |s|) else s
  }

  function Layout(p: Operator): string
  {
    PadRight(p.orgid, 12) + PadRight(p.operid, 6) + PadRight(p.name, 80) + p.passwd + PadRight(p.regdate, 8)
  }

  /** What snprintf leaves in sBuf. */
  function SBuf(p: Operator): string
  {
    if |Layout(p)| < SBUF_SIZE then Layout(p) else Layout(p)[..SBUF_SIZE - 1]
  }

  // ----- decoding the layout -----

  function TrimRight(s: string): (r: string)
    ensures r <= s
  {
    if s != "" && s[|s| - 1] == ' ' then TrimRight(s[..|s| - 1]) else s
  }

  function TrimmedFields(p: Operator): Operator
  {
    Operator(TrimRight(p.orgid), TrimRight(p.operid), TrimRight(p.name), p.passwd, TrimRight(p.regdate))
  }

  predicate ColumnsFit(p: Operator)
  {
    |p.orgid| <= 12 && |p.operid| <= 6 && |p.name| <= 80
  }

  /** The fields are within their columns, and nothing is cut off at the end of sBuf. */
  predicate Fits(p: Operator)
  {
    ColumnsFit(p) && |p.regdate| <= 8 && |p.passwd| <= 149
  }

  function Unpack(b: string): Operator
    requires |b| >= 106
  {
    Operator(TrimRight(b[..12]), TrimRight(b[12..18]), TrimRight(b[18..98]), b[98..|b| - 8],
             TrimRight(b[|b| - 8..]))
  }

  lemma {:induction false} TrimOfBlanks(s: string, n: nat)
    ensures TrimRight(s + Repeat(' ', n)) == TrimRight(s)
  {
    var t := s + Repeat(' ', n);
    if n == 0 {
      assert t == s;
    } else {
      assert t[..|t| - 1] == s + Repeat(' ', n - 1);
      TrimOfBlanks(s, n - 1);
    }
  }

  lemma {:induction false} TrimmedIsPadded(s: string)
    ensures s == TrimRight(s) + Repeat(' ', |s| - |TrimRight(s)|)
  {
    if s == "" || s[|s| - 1] != ' ' {
    } else {
      var t := s[..|s| - 1];
      TrimmedIsPadded(t);
      assert Repeat(' ', |s| - |TrimRight(t)|) == Repeat(' ', |t| - |TrimRight(t)|) + " ";
      assert s == t + " ";
    }
  }

  lemma PadIs(s: string, w: nat)
    requires |s| <= w
    ensures PadRight(s, w) == s + Repeat(' ', w - |s|)
  {
    assert |s| == w ==> s + Repeat(' ', w - |s|) == s;
  }

  lemma MoreBlanks(s: string, m: nat, n: nat)
    ensures s + Repeat(' ', m) + Repeat(' ', n) == s + Repeat(' ', m + n)
  {
  }

  lemma TrimOfPad(s: string, w: nat)
    requires |s| <= w
    ensures TrimRight(PadRight(s, w)) == TrimRight(s)
    ensures PadRight(TrimRight(s), w) == PadRight(s, w)
  {
    hide TrimRight, PadRight, Repeat;
    var t := TrimRight(s);
    PadIs(s, w);
    PadIs(t, w);
    TrimOfBlanks(s, w - |s|);
    TrimmedIsPadded(s);
    MoreBlanks(t, |s| - |t|, w - |s|);
  }

  lemma ColumnsOf(a: string, b: string, c: string, d: string, e: string)
    requires |a| == 12 && |b| == 6 && |c| == 80 && |e| == 8
    ensures var s := a + b + c + d + e;
            && s[..12] == a && s[12..18] == b && s[18..98] == c && s[98..|s| - 8] == d && s[|s| - 8..] == e
  {
  }

  /** The layout gives the fields back, but for the blanks at their ends. */
  lemma UnpackUndoesLayout(p: Operator)
    requires Fits(p)
    ensures 106 <= |SBuf(p)| < SBUF_SIZE && Unpack(SBuf(p)) == TrimmedFields(p)
    ensures SBuf(TrimmedFields(p)) == SBuf(p)
  {
    hide PadRight, TrimRight;
    TrimOfPad(p.orgid, 12);
    TrimOfPad(p.operid, 6);
    TrimOfPad(p.name, 80);
    TrimOfPad(p.regdate, 8);
    ColumnsOf(PadRight(p.orgid, 12), PadRight(p.operid, 6), PadRight(p.name, 80), p.passwd,
              PadRight(p.regdate, 8));
  }

  /** Two operators share a digest input exactly when only trailing blanks tell them apart. */
  lemma LayoutInjective(p: Operator, q: Operator)
    requires Fits(p) && Fits(q)
    ensures SBuf(p) == SBuf(q) <==> TrimmedFields(p) == TrimmedFields(q)
  {
    hide SBuf, TrimmedFields, Unpack;
    UnpackUndoesLayout(p);
    UnpackUndoesLayout(q);
  }

  /** Blanks at the end of an identifier make no difference. */
  lemma TrailingBlankCollides()
    ensures var p := Operator("0001", "01", "name", "111111", "20120328");
            p != p.(operid := "01 ") && SBuf(p) == SBuf(p.(operid := "01 "))
  {
    var p := Operator("0001", "01", "name", "111111", "20120328");
    var q := p.(operid := "01 ");
    hide SBuf;
    assert TrimRight("01") == "01";
    assert "01 "[..2] == "01";
    LayoutInjective(p, q);
  }

  /** A field that outgrows its column moves into the next one: what follows a full name is password. */
  lemma WideNameIsPassword(p: Operator, w: string)
    requires |p.name| == 80
    ensures SBuf(p.(name := p.name + w)) == SBuf(p.(passwd := w + p.passwd))
  {
    hide PadRight;
    NameAlone(p.name, w);
    Shifted(PadRight(p.orgid, 12) + PadRight(p.operid, 6), p.name, w, p.passwd);
  }

  lemma NameAlone(name: string, w: string)
    requires |name| == 80
    ensures PadRight(name, 80) == name && PadRight(name + w, 80) == name + w
  {
  }

  lemma Shifted(ids: string, name: string, w: string, passwd: string)
    ensures ids + (name + w) + passwd == ids + name + (w + passwd)
  {
  }

  /** How many characters of the date's column are left in sBuf. */
  function DateRoom(passwd: string): (k: nat)
    ensures k <= 8
  {
    if |passwd| <= 149 then 8 else if |passwd| >= 157 then 0 else 157 - |passwd|
  }

  /**
   * How much of the date counts, for every length of the password: all of it up to 149
   * characters, one character less for each further one, and nothing from 157 on.
   */
  lemma DateCounts(p: Operator, d1: string, d2: string)
    requires ColumnsFit(p) && |d1| <= 8 && |d2| <= 8
    ensures var k := DateRoom(p.passwd);
            SBuf(p.(regdate := d1)) == SBuf(p.(regdate := d2)) <==> PadRight(d1, 8)[..k] == PadRight(d2, 8)[..k]
  {
    hide PadRight;
    var front := PadRight(p.orgid, 12) + PadRight(p.operid, 6) + PadRight(p.name, 80) + p.passwd;
    CutAtEnd(front, PadRight(d1, 8));
    CutAtEnd(front, PadRight(d2, 8));
    var k := DateRoom(p.passwd);
    if |front| < SBUF_SIZE {
      SameFront(front, PadRight(d1, 8)[..k], PadRight(d2, 8)[..k]);
    }
  }

  /** What is kept of a date column behind `front`. */
  lemma CutAtEnd(front: string, date: string)
    requires |front| >= 98 && |date| == 8
    ensures var s := front + date;
            var kept := if |s| < SBUF_SIZE then s else s[..SBUF_SIZE - 1];
            kept == if |front| < SBUF_SIZE then front + date[..DateRoom(front[98..])] else front[..SBUF_SIZE - 1]
  {
  }

  lemma SameFront(front: string, a: string, b: string)
    ensures front + a == front + b <==> a == b
  {
    if front + a == front + b {
      assert (front + a)[|front|..] == a && (front + b)[|front|..] == b;
    }
  }

  /** With a password of 153 characters only the year counts; with one of 157 not even that. */
  lemma LongPasswordHidesDate(p: Operator)
    requires ColumnsFit(p)
    ensures |p.passwd| == 153 ==>
              && SBuf(p.(regdate := "20120328")) == SBuf(p.(regdate := "20121231"))
              && SBuf(p.(regdate := "20120328")) != SBuf(p.(regdate := "20130328"))
    ensures |p.passwd| == 157 ==> SBuf(p.(regdate := "20120328")) == SBuf(p.(regdate := "20991231"))
  {
    hide SBuf;
    assert "20120328"[..4] == "2012" == "20121231"[..4] && "20130328"[..4] == "2013";
    DateCounts(p, "20120328", "20121231");
    DateCounts(p, "20120328", "20130328");
    DateCounts(p, "20120328", "20991231");
  }

  // ----- the digest -----

  /** opGetMd5 stands for any function to 32 characters. */
  ghost predicate IsDigest(digest: string -> string)
  {
    forall s :: |digest(s)| == DIGEST_SIZE && NUL !in digest(s)
  }

  method GenOperPwd(p: Operator, cliper: array<char>, digest: string -> string)
    requires IsDigest(digest) && cliper.Length >= DIGEST_SIZE + 1
    modifies cliper
    ensures cliper[..32] == digest(SBuf(p)) && cliper[32] == '\0'
    ensures forall k :: 32 < k < cliper.Length ==> cliper[k] == old(cliper[k])
  {
    hide SBuf;
    var sResult := digest(SBuf(p)) + [NUL];
    assert forall k :: 0 <= k < DIGEST_SIZE ==> sResult[k] == digest(SBuf(p))[k] != NUL;
    var i := 0;
    while i < DIGEST_SIZE + 1 && sResult[i] != NUL
      invariant i <= DIGEST_SIZE
      invariant forall k :: 0 <= k < i ==> cliper[k] == sResult[k]
      invariant forall k :: DIGEST_SIZE < k < cliper.Length ==> cliper[k] == old(cliper[k])
    {
      assert i < DIGEST_SIZE;
      cliper[i] := sResult[i];
      i := i + 1;
    }
    assert i == DIGEST_SIZE;
    while i < DIGEST_SIZE + 1
      invariant DIGEST_SIZE <= i <= DIGEST_SIZE + 1
      invariant forall k :: 0 <= k < i ==> cliper[k] == sResult[k]
      invariant forall k :: DIGEST_SIZE < k < cliper.Length ==> cliper[k] == old(cliper[k])
    {
      cliper[i] := NUL;
      i := i + 1;
    }
  }

  method ChkOperPwd(p: Operator, real_passwd: array<char>, digest: string -> string) returns (rc: int)
    requires IsDigest(digest) && real_passwd.Length >= DIGEST_SIZE
    ensures rc == if real_passwd[..32] == digest(SBuf(p)) then 0 else -1
  {
    var sResult := digest(SBuf(p));
    if sResult[..DIGEST_SIZE] != real_passwd[..DIGEST_SIZE] {
      return -1;
    }
    return 0;
  }

  /**
   * A stored password is accepted for every operator that lays out alike, and, unless the
   * digest itself collides on the two layouts, for no other.
   */
  method GenerateThenCheck(p: Operator, q: Operator, cliper: array<char>, digest: string -> string)
    returns (rc: int)
    requires IsDigest(digest) && cliper.Length >= DIGEST_SIZE + 1 && Fits(p) && Fits(q)
    requires digest(SBuf(p)) == digest(SBuf(q)) ==> SBuf(p) == SBuf(q)
    modifies cliper
    ensures rc == 0 <==> TrimmedFields(p) == TrimmedFields(q)
  {
    GenOperPwd(p, cliper, digest);
    rc := ChkOperPwd(q, cliper, digest);
    LayoutInjective(p, q);
  }
}
