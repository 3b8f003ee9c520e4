// Decimal numerals as the C and Python formatting routines write and read them.

module Decimal {

  function Pow10(w: nat): (p: nat)
    ensures p >= 1
  {
    if w == 0 then 1 else 10 * Pow10(w - 1)
  }

  predicate IsDigit(c: char)
  {
    '0' <= c <= '9'
  }

  function DigitChar(d: nat): (c: char)
    requires d < 10
    ensures IsDigit(c) && DigitValue(c) == d
  {
    ('0' as int + d) as char
  }

  function DigitValue(c: char): (d: nat)
    requires IsDigit(c)
    ensures d < 10
  {
    c as int - '0' as int
  }

  predicate AllDigits(s: string)
  {
    forall c :: c in s ==> IsDigit(c)
  }

  /** The shortest decimal numeral of `n` ("%d" of a non-negative number). */
  function Dec(n: nat): (s: string)
    ensures s != "" && AllDigits(s)
  {
    if n < 10 then [DigitChar(n)] else Dec(n / 10) + [DigitChar(n % 10)]
  }

  /** The number a string of digits denotes; leading zeros do not matter. */
  function Value(s: string): nat
    requires AllDigits(s)
  {
    if s == "" then 0 else 10 * Value(s[..|s| - 1]) + DigitValue(s[|s| - 1])
  }

  function Repeat(c: char, n: nat): (s: string)
    ensures |s| == n && forall i :: 0 <= i < n ==> s[i] == c
  {
    seq(n, _ => c)
  }

  /** "%0<w>d", and Python's zfill: zeros on the left up to width `w`, never truncating. */
  function ZeroFill(s: string, w: nat): (r: string)
    ensures |r| == if |s| < w then w else |s|
  {
    if |s| < w then Repeat('0', w - |s|) + s else s
  }

  /** "%<w>d": blanks on the left up to width `w`, never truncating. */
  function BlankFill(s: string, w: nat): (r: string)
    ensures |r| == if |s| < w then w else |s|
  {
    if |s| < w then Repeat(' ', w - |s|) + s else s
  }

  lemma {:induction false} ValueOfDec(n: nat)
    ensures Value(Dec(n)) == n
  {
    if n < 10 {
    } else {
      ValueOfDec(n / 10);
      var s := Dec(n / 10) + [DigitChar(n % 10)];
      assert s[..|s| - 1] == Dec(n / 10);
    }
  }

  /** A numeral has at most `w` digits exactly when its number is below 10^w. */
  lemma {:induction false} DecWidth(n: nat, w: nat)
    requires w >= 1
    ensures |Dec(n)| <= w <==> n < Pow10(w)
  {
    if n < 10 {
      assert Pow10(w) == 10 * Pow10(w - 1);
    } else if w == 1 {
      assert Pow10(1) == 10 * Pow10(0);
    } else {
      DecWidth(n / 10, w - 1);
      assert Pow10(w) == 10 * Pow10(w - 1);
    }
  }

  /** A padded numeral without its last digit is the padded numeral of the quotient. */
  lemma ZeroFillStep(n: nat, w: nat)
    requires w >= 1
    ensures ZeroFill(Dec(n), w + 1) == ZeroFill(Dec(n / 10), w) + [DigitChar(n % 10)]
  {
    if n < 10 {
      assert Repeat('0', w) == Repeat('0', w - 1) + "0";
    } else if |Dec(n)| <= w {
      assert Repeat('0', w + 1 - |Dec(n)|) == Repeat('0', w - |Dec(n / 10)|);
    }
  }

  lemma {:induction false} NoLeadingZero(n: nat)
    requires n > 0
    ensures Dec(n)[0] != '0'
  {
    if n < 10 {
    } else {
      NoLeadingZero(n / 10);
    }
  }

  lemma {:induction false} ValueOfZeros(k: nat, s: string)
    requires AllDigits(s)
    ensures AllDigits(Repeat('0', k) + s)
    ensures Value(Repeat('0', k) + s) == Value(s)
  {
    var z := Repeat('0', k) + s;
    forall c | c in z ensures IsDigit(c) {
      if c !in s { assert c in Repeat('0', k); }
    }
    if s != "" {
      ValueOfZeros(k, s[..|s| - 1]);
      assert z[..|z| - 1] == Repeat('0', k) + s[..|s| - 1];
    } else if k == 0 {
    } else {
      ValueOfZeros(k - 1, "");
      assert z[..|z| - 1] == Repeat('0', k - 1) + "";
    }
  }

  lemma ValueOfZeroFill(n: nat, w: nat)
    ensures AllDigits(ZeroFill(Dec(n), w)) && Value(ZeroFill(Dec(n), w)) == n
  {
    ValueOfDec(n);
    if |Dec(n)| < w {
      ValueOfZeros(w - |Dec(n)|, Dec(n));
    }
  }

  /** The number without its last k digits. */
  function Leading(n: nat, k: nat): nat
    decreases k
  {
    if k == 0 then n else Leading(n / 10, k - 1)
  }

  lemma {:induction false} LeadingIsQuotient(n: nat, k: nat)
    ensures Leading(n, k) == n / Pow10(k)
    decreases k
  {
    if k == 0 {
    } else {
      LeadingIsQuotient(n / 10, k - 1);
      DivDiv(n, Pow10(k - 1));
    }
  }

  lemma {:induction false} LeadingAtMost(n: nat, k: nat)
    ensures Leading(n, k) <= n
    decreases k
  {
    if k == 0 {
    } else {
      LeadingAtMost(n / 10, k - 1);
    }
  }

  lemma LeadingShrinks(n: nat, k: nat)
    requires n > 0 && k > 0
    ensures Leading(n, k) < n
  {
    LeadingAtMost(n / 10, k - 1);
  }

  /** Cutting a numeral behind its k-th digit from the right cuts the digits off the number. */
  lemma {:induction false} ValueOfPrefix(s: string, k: nat)
    requires AllDigits(s) && k <= |s|
    ensures AllDigits(s[..|s| - k]) && Value(s[..|s| - k]) == Leading(Value(s), k)
  {
    if k == 0 {
      assert s[..|s|] == s;
    } else {
      var t := s[..|s| - 1];
      ValueOfPrefix(t, k - 1);
      assert t[..|t| - (k - 1)] == s[..|s| - k];
    }
  }

  lemma {:induction false} DecPrefix(n: nat, k: nat)
    requires k < |Dec(n)|
    ensures Dec(n)[..|Dec(n)| - k] == Dec(Leading(n, k))
    decreases k
  {
    if k == 0 {
      assert Dec(n)[..|Dec(n)|] == Dec(n);
    } else {
      DecPrefix(n / 10, k - 1);
      assert Dec(n)[..|Dec(n)| - k] == Dec(n / 10)[..|Dec(n / 10)| - (k - 1)];
    }
  }

  lemma DivDiv(v: nat, p: nat)
    requires p >= 1
    ensures v / (10 * p) == v / 10 / p
  {
    var a, b := v / 10 / p, v / 10 % p;
    var c := v % 10;
    assert v == 10 * (p * a + b) + c == (10 * p) * a + (10 * b + c);
    assert 0 <= 10 * b + c < 10 * p;
    QuotientIs(v, 10 * p, a, 10 * b + c);
  }

  lemma QuotientIs(v: int, d: int, q: int, r: int)
    requires d > 0 && 0 <= r < d && v == d * q + r
    ensures v / d == q
  {
    var q', r' := v / d, v % d;
    assert v == d * q' + r';
    MulGap(d, q - q', r' - r);
  }

  lemma MulGap(d: int, k: int, gap: int)
    requires d > 0 && d * k == gap && -d < gap < d
    ensures k == 0
  {
  }

  lemma Pow10Is()
    ensures Pow10(4) == 10_000 && Pow10(5) == 100_000 && Pow10(6) == 1_000_000
    ensures Pow10(7) == 10_000_000 && Pow10(8) == 100_000_000
  {
    assert Pow10(1) == 10 && Pow10(2) == 100 && Pow10(3) == 1000;
  }

  predicate IsBlank(c: char)
  {
    c == ' ' || '\t' <= c <= '\r'
  }

  function SkipBlanks(s: string): string
  {
    if s != "" && IsBlank(s[0]) then SkipBlanks(s[1..]) else s
  }

  function DigitRun(s: string): (r: string)
    ensures AllDigits(r)
  {
    if s != "" && IsDigit(s[0]) then [s[0]] + DigitRun(s[1..]) else ""
  }

  /** C's atoi, without the width of int: blanks, a sign, then the longest run of digits. */
  function Atoi(s: string): int
  {
    var t := SkipBlanks(s);
    if t != "" && t[0] == '-' then -(Value(DigitRun(t[1..])) as int)
    else if t != "" && t[0] == '+' then Value(DigitRun(t[1..]))
    else Value(DigitRun(t))
  }

  lemma {:induction false} DigitRunOfDigits(s: string)
    requires AllDigits(s)
    ensures DigitRun(s) == s
  {
    if s == "" {
    } else {
      DigitRunOfDigits(s[1..]);
    }
  }

  lemma AtoiOfDigits(s: string)
    requires AllDigits(s)
    ensures Atoi(s) == Value(s)
  {
    if s != "" {
      assert s[0] in s;
    }
    DigitRunOfDigits(s);
  }

  predicate AllBlank(s: string)
  {
    forall k :: 0 <= k < |s| ==> s[k] == ' ' || '\t' <= s[k] <= '\r'
  }

  lemma {:induction false} SkipLeading(b: string, t: string)
    requires AllBlank(b) && (t != "" ==> !IsBlank(t[0]))
    ensures SkipBlanks(b + t) == t
  {
    if b == "" {
      assert b + t == t;
    } else {
      assert (b + t)[1..] == b[1..] + t;
      SkipLeading(b[1..], t);
    }
  }

  lemma {:induction false} DigitRunStops(d: string, rest: string)
    requires AllDigits(d) && (rest != "" ==> !IsDigit(rest[0]))
    ensures DigitRun(d + rest) == d
  {
    if d == "" {
      assert d + rest == rest;
    } else {
      assert d[0] in d && forall c :: c in d[1..] ==> c in d;
      assert (d + rest)[1..] == d[1..] + rest;
      DigitRunStops(d[1..], rest);
    }
  }

  /** atoi: what stands before the number and behind it does not matter; without digits it is 0. */
  lemma AtoiText(blanks: string, sign: string, d: string, rest: string)
    requires AllBlank(blanks) && (sign == "" || sign == "+" || sign == "-") && AllDigits(d)
    requires d + rest != "" ==> !IsBlank((d + rest)[0]) && (sign == "" ==> (d + rest)[0] != '-' && (d + rest)[0] != '+')
    requires rest != "" ==> !IsDigit(rest[0])
    ensures Atoi(blanks + (sign + (d + rest))) == if sign == "-" then -(Value(d) as int) else Value(d)
  {
    var t := sign + (d + rest);
    DigitRunStops(d, rest);
    SkipLeading(blanks, t);
    hide Value, DigitRun, SkipBlanks;
    if sign == "" {
      assert t == d + rest;
    } else {
      assert t[1..] == d + rest;
    }
  }

  lemma NumeralExamples()
    ensures Dec(0) == "0" && Dec(907) == "907" && AllDigits("0907") && Value("0907") == 907
    ensures ZeroFill("37", 4) == "0037" && BlankFill("37", 4) == "  37"
  {
    assert Dec(90) == "90";
    assert Value("") == 0;
    assert "0"[..0] == "" && "09"[..1] == "0" && "090"[..2] == "09" && "0907"[..3] == "090";
    assert Value("0") == 0;
    assert Value("09") == 9;
    assert Value("090") == 90;
    assert Repeat('0', 2) == "00" && Repeat(' ', 2) == "  ";
  }
}
