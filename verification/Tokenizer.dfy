// StrTok: a tokenizer that keeps what it has not yet delivered in a static buffer.

module Tokenizer {
  import opened Text
  import opened CString

  const BUFFER_SIZE: nat := 8192

  /** Only the first character of the separator string is ever looked at. */
  function Separator(splitstr: string): char
  {
    if splitstr == "" then NUL else splitstr[0]
  }

  lemma FirstCharacterSeparates(c: char, more: string)
    ensures Separator([c] + more) == c && Separator("") == '\0'
  {
  }

  /** The pure step: the field before the first separator, and what follows it. */
  function Token(text: string, sep: char): string
  {
    text[..IndexOf(text, sep)]
  }

  function Rest(text: string, sep: char): string
  {
    var i := IndexOf(text, sep);
    if i == |text| then "" else text[i + 1..]
  }

  class StrTokState {
    const srcstr: array<char>
    const retstr: array<char>

    ghost predicate Valid()
      reads this, srcstr, retstr
    {
      && srcstr.Length == BUFFER_SIZE && retstr.Length == BUFFER_SIZE && srcstr != retstr
      && NUL in srcstr[..] && NUL in retstr[..]
      && |Pending()| <= BUFFER_SIZE - 2
    }

    /** The text not yet delivered. */
    ghost function Pending(): string
      reads this, srcstr
    {
      CStr(srcstr[..])
    }

    constructor ()
      ensures Valid() && fresh(srcstr) && fresh(retstr) && Pending() == ""
    {
      srcstr := new char[BUFFER_SIZE](_ => NUL);
      retstr := new char[BUFFER_SIZE](_ => NUL);
      new;
      assert srcstr[0] == NUL && retstr[0] == NUL;
      CStrIs(srcstr[..], "");
    }

    /**
     * One call. A null `source` continues with the pending text. The source may be any
     * buffer but the tokenizer's own, and no buffer other than those two is written.
     */
    method StrTok(source: array?<char>, splitstr: string) returns (ret: array<char>)
      requires Valid()
      requires source != null ==>
        source != srcstr && NUL in source[..] && |CStr(source[..])| <= BUFFER_SIZE - 2
      modifies srcstr, retstr
      ensures Valid() && ret == retstr
      ensures var text := if source == null then old(Pending()) else old(CStr(source[..]));
              && CStr(ret[..]) == Token(text, Separator(splitstr))
              && Pending() == Rest(text, Separator(splitstr))
      ensures source != null && source != retstr ==> source[..] == old(source[..])
    {
      if source != null {
        assert source[..] == source[0..];
        StrCpy(srcstr, source, 0);
        assert srcstr[|CStr(srcstr[..])|] == NUL;
      }
      ret := Deliver(Separator(splitstr));
    }

    method Deliver(sep: char) returns (ret: array<char>)
      requires Valid()
      modifies srcstr, retstr
      ensures Valid() && ret == retstr
      ensures CStr(ret[..]) == Token(old(Pending()), sep)
      ensures Pending() == Rest(old(Pending()), sep)
    {
      var i, l := Cut(sep);
      ghost var rest := if i == l then "" else srcstr[i + 1..l];
      assert rest == Rest(old(Pending()), sep);
      assert srcstr[0..] == srcstr[..];
      StrCpy(retstr, srcstr, 0);
      assert retstr[i] == NUL;
      Shift(i, l);
      ret := retstr;
    }

    /** Plants the separator behind the text, so that one is found, and cuts the text there. */
    method Cut(sep: char) returns (i: nat, l: nat)
      requires srcstr.Length == BUFFER_SIZE
      requires NUL in srcstr[..] && |Pending()| < BUFFER_SIZE
      modifies srcstr
      ensures var text := old(Pending()); i == IndexOf(text, sep) && l == |text|
      ensures NUL in srcstr[..] && Pending() == Token(old(Pending()), sep)
      ensures srcstr[l] == NUL && forall k :: i < k < l ==> srcstr[k] == old(Pending())[k]
    {
      ghost var text := Pending();
      assert srcstr[..] == srcstr[0..];
      l := StrLen(srcstr, 0);
      srcstr[l] := sep;
      i := 0;
      while i < l
        invariant i <= l
        invariant srcstr[..l] == text
        invariant forall k :: 0 <= k < i ==> text[k] != sep
      {
        if srcstr[i] == sep {
          srcstr[i] := NUL;
          break;
        }
        i := i + 1;
      }
      IndexOfIs(text, sep, i);
      srcstr[l] := NUL;
      assert srcstr[..][..i] == text[..i];
      CStrIs(srcstr[..], text[..i]);
      assert srcstr[i] == NUL;
    }

    /** Moves what follows the cut to the front of the buffer, over itself. */
    method Shift(i: nat, l: nat)
      requires i <= l <= BUFFER_SIZE - 2 && srcstr.Length == BUFFER_SIZE
      requires srcstr[l] == NUL && forall k :: i < k < l ==> srcstr[k] != NUL
      modifies srcstr
      ensures NUL in srcstr[..]
      ensures Pending() == if i == l then "" else old(srcstr[i + 1..l])
    {
      if i == l {
        srcstr[i + 1] := NUL;
      }
      ghost var rest := if i == l then "" else srcstr[i + 1..l];
      assert srcstr[i + 1..][..|rest|] == rest;
      assert srcstr[i + 1..][|rest|] == NUL;
      CStrIs(srcstr[i + 1..], rest);
      StrCpy(srcstr, srcstr, i + 1);
      assert srcstr[|rest|] == NUL;
    }
  }

  // ----- runs of calls -----

  /** The fields delivered by the next `n` calls when `text` is pending. */
  function Tokens(text: string, sep: char, n: nat): (ts: seq<string>)
    ensures |ts| == n
    decreases n
  {
    if n == 0 then [] else [Token(text, sep)] + Tokens(Rest(text, sep), sep, n - 1)
  }

  /** The text still pending after `n` calls. */
  function Remaining(text: string, sep: char, n: nat): string
    decreases n
  {
    if n == 0 then text else Remaining(Rest(text, sep), sep, n - 1)
  }

  lemma {:induction false} TokenAt(text: string, sep: char, n: nat, k: nat)
    requires k < n
    ensures Tokens(text, sep, n)[k] == Token(Remaining(text, sep, k), sep)
    decreases k
  {
    hide Rest, Token;
    if k == 0 {
    } else {
      var rest := Rest(text, sep);
      assert Tokens(text, sep, n)[k] == Tokens(rest, sep, n - 1)[k - 1];
      TokenAt(rest, sep, n - 1, k - 1);
    }
  }

  lemma {:induction false} RemainingStep(text: string, sep: char, k: nat)
    ensures Remaining(text, sep, k + 1) == Rest(Remaining(text, sep, k), sep)
    decreases k
  {
    hide Rest;
    if k == 0 {
    } else {
      RemainingStep(Rest(text, sep), sep, k - 1);
    }
  }

  /** The first `n` of `fs`, with empty fields behind them when there are fewer. */
  function PadTo(fs: seq<string>, n: nat): (r: seq<string>)
    ensures |r| == n && forall k :: 0 <= k < n ==> r[k] == if k < |fs| then fs[k] else ""
  {
    seq(n, k requires 0 <= k => if k < |fs| then fs[k] else "")
  }

  /** Calls deliver the fields of the text in order, then empty fields for ever. */
  lemma {:induction false} TokensAreFields(text: string, sep: char, n: nat)
    ensures Tokens(text, sep, n) == PadTo(Split(text, sep), n)
    decreases n
  {
    if n == 0 {
    } else {
      var i := IndexOf(text, sep);
      if i < |text| {
        TokensAreFields(text[i + 1..], sep, n - 1);
        PadCons(text[..i], Split(text[i + 1..], sep), n);
      } else {
        TokensOfNothing(sep, n - 1);
        PadCons(text, [], n);
        assert [text] + [] == [text] && text[..i] == text;
      }
    }
  }

  lemma PadCons(f: string, fs: seq<string>, n: nat)
    requires n > 0
    ensures PadTo([f] + fs, n) == [f] + PadTo(fs, n - 1)
  {
  }

  lemma {:induction false} TokensOfNothing(sep: char, n: nat)
    ensures Tokens("", sep, n) == PadTo([], n)
  {
    if n == 0 {
    } else {
      TokensOfNothing(sep, n - 1);
      assert PadTo([], n) == [""] + PadTo([], n - 1);
    }
  }

  lemma SplitAfter(f: string, sep: char, rest: string)
    requires sep !in f
    ensures Split(f, sep) == [f]
    ensures Split(f + [sep] + rest, sep) == [f] + Split(rest, sep)
  {
    IndexOfIs(f, sep, |f|);
    var text := f + [sep] + rest;
    assert text[..|f|] == f && text[|f| + 1..] == rest;
    IndexOfIs(text, sep, |f|);
  }

  lemma {:induction false} SplitOfJoin(fs: seq<string>, sep: char)
    requires fs != [] && SeparatorFree(fs, sep)
    ensures Split(Join(fs, sep), sep) == fs
  {
    if |fs| == 1 {
      SplitAfter(fs[0], sep, "");
    } else {
      SplitOfJoin(fs[1..], sep);
      SplitAfter(fs[0], sep, Join(fs[1..], sep));
      HeadTail(fs);
    }
  }

  lemma JoinCons(f: string, fs: seq<string>, sep: char)
    requires fs != []
    ensures Join([f] + fs, sep) == f + [sep] + Join(fs, sep)
  {
    assert ([f] + fs)[1..] == fs;
  }

  lemma {:induction false} JoinOfSplit(text: string, sep: char)
    ensures Join(Split(text, sep), sep) == text
    decreases |text|
  {
    var i := IndexOf(text, sep);
    if i == |text| {
    } else {
      JoinOfSplit(text[i + 1..], sep);
      JoinCons(text[..i], Split(text[i + 1..], sep), sep);
      CutAround(text, i);
    }
  }

  lemma {:induction false} FieldCount(text: string, sep: char)
    ensures |Split(text, sep)| == Count(text, sep) + 1
    decreases |text|
  {
    if IndexOf(text, sep) == |text| {
    } else {
      FieldCount(Rest(text, sep), sep);
      CountAtStep(text, sep);
    }
  }

  lemma CountAtStep(text: string, sep: char)
    requires sep in text
    ensures Count(text, sep) == 1 + Count(Rest(text, sep), sep)
  {
    CutAround(text, IndexOf(text, sep));
    CountAround(Token(text, sep), sep, Rest(text, sep));
  }

  /** Priming with joined fields and calling on gives the fields, then only empty strings. */
  lemma SplitUndoesJoin(fs: seq<string>, sep: char, n: nat)
    requires fs != [] && SeparatorFree(fs, sep)
    ensures Tokens(Join(fs, sep), sep, n) == PadTo(fs, n)
  {
    SplitOfJoin(fs, sep);
    TokensAreFields(Join(fs, sep), sep, n);
  }

  /** A text with k separators is given back, whole, by its first k + 1 fields. */
  lemma NothingIsLost(text: string, sep: char)
    ensures Join(Tokens(text, sep, Count(text, sep) + 1), sep) == text
  {
    var fs := Split(text, sep);
    FieldCount(text, sep);
    JoinOfSplit(text, sep);
    TokensAreFields(text, sep, |fs|);
    assert PadTo(fs, |fs|) == fs;
  }

  /** How many calls leave nothing pending. */
  function CallsToDrain(text: string, sep: char): nat
  {
    if text == "" then 0
    else Count(text, sep) + if text[|text| - 1] == sep then 0 else 1
  }

  lemma DrainStep(text: string, sep: char)
    requires text != ""
    ensures |Rest(text, sep)| < |text|
    ensures CallsToDrain(text, sep) == 1 + CallsToDrain(Rest(text, sep), sep)
  {
    var i := IndexOf(text, sep);
    if i < |text| {
      CountAtStep(text, sep);
    } else {
      assert text[..i] == text;
    }
  }

  lemma {:induction false} DrainsExactly(text: string, sep: char, n: nat)
    ensures Remaining(text, sep, n) == "" <==> n >= CallsToDrain(text, sep)
    decreases n
  {
    if text != "" {
      DrainStep(text, sep);
    }
    if n == 0 {
    } else {
      DrainsExactly(Rest(text, sep), sep, n - 1);
    }
  }

  /** Priming the tokenizer and calling it n times in all delivers the fields of the text. */
  method CallTimes(tok: StrTokState, source: array<char>, splitstr: string, n: nat) returns (fields: seq<string>)
    requires tok.Valid() && n > 0
    requires source != tok.srcstr && NUL in source[..] && |CStr(source[..])| <= BUFFER_SIZE - 2
    modifies tok.srcstr, tok.retstr
    ensures tok.Valid()
    ensures fields == PadTo(Split(old(CStr(source[..])), Separator(splitstr)), n)
    ensures tok.Pending() == Remaining(old(CStr(source[..])), Separator(splitstr), n)
  {
    hide Token, Rest, Separator, CStr;
    ghost var text, sep := CStr(source[..]), Separator(splitstr);
    TokensAreFields(text, sep, n);
    TokenAt(text, sep, n, 0);
    RemainingStep(text, sep, 0);
    var ret := tok.StrTok(source, splitstr);
    var field := ReadString(ret);
    fields := [field];
    for k := 1 to n
      invariant tok.Valid() && |fields| == k
      invariant fields == Tokens(text, sep, n)[..k]
      invariant tok.Pending() == Remaining(text, sep, k)
    {
      TokenAt(text, sep, n, k);
      RemainingStep(text, sep, k);
      ret := tok.StrTok(null, splitstr);
      field := ReadString(ret);
      fields := fields + [field];
    }
  }

  method ReadString(a: array<char>) returns (s: string)
    requires NUL in a[..]
    ensures s == CStr(a[..])
  {
    assert a[..] == a[0..];
    var l := StrLen(a, 0);
    s := a[..l];
  }
}
