// Base64 as the track data uses it: an encoder that translates in place, and a decoder
// that delivers each group of three bytes only when the next one begins.

module Base64 {
  import opened Hex
  import Text

  const PAD: byte := 0x3d
  const PAD_VALUE: byte := 65

  // ----- the alphabet -----

  function Alphabet(v: byte): byte
  {
    if v < 26 then v + 0x41
    else if v < 52 then v + (0x61 - 26)
    else if v < 62 then v - (52 - 0x30)
    else if v == 62 then 0x2b
    else if v == 63 then 0x2f
    else PAD
  }

  predicate IsLetter(c: byte)
  {
    0x41 <= c <= 0x5a || 0x61 <= c <= 0x7a || 0x30 <= c <= 0x39 || c == 0x2b || c == 0x2f
  }

  function ValueOf(c: byte): byte
    requires IsLetter(c)
  {
    if 0x41 <= c <= 0x5a then c - 0x41
    else if 0x61 <= c <= 0x7a then c - 0x61 + 26
    else if 0x30 <= c <= 0x39 then c - 0x30 + 52
    else if c == 0x2b then 62
    else 63
  }

  /** The letters in order: table 1 of RFC 4648. */
  lemma AlphabetText(v: byte)
    requires v < 64
    ensures Alphabet(v) as int as char
         == (("ABCDEFGHIJKLMNOP" + "QRSTUVWXYZabcdef") + ("ghijklmnopqrstuv" + "wxyz0123456789+/"))[v as int]
  {
  }

  lemma LetterOfValue(v: byte)
    requires v < 64
    ensures IsLetter(Alphabet(v)) && ValueOf(Alphabet(v)) == v && Alphabet(v) != PAD
  {
  }

  /** A character is a letter exactly when it stands for a value. */
  lemma LetterIff(c: byte)
    ensures IsLetter(c) <==> exists v: byte :: v < 64 && Alphabet(v) == c
  {
    if IsLetter(c) {
      assert ValueOf(c) < 64 && Alphabet(ValueOf(c)) == c;
    }
  }

  lemma PadLetter()
    ensures Alphabet(PAD_VALUE) == PAD && !IsLetter(PAD)
  {
  }

  // ----- groups -----

  function First(a: byte): byte { (a & 0xfc) >> 2 }
  function Second(a: byte, b: byte): byte { ((a & 0x03) << 4) | ((b & 0xf0) >> 4) }
  function Third(b: byte, c: byte): byte { ((b & 0x0f) << 2) | ((c & 0xc0) >> 6) }
  function Fourth(c: byte): byte { c & 0x3f }

  // A byte is opened with the upper bits of one value and closed with bits of the next.

  function Open1(v: byte): byte { v << 2 }
  function Close1(code: byte, v: byte): byte { code | ((v & 0x30) >> 4) }
  function Open2(v: byte): byte { (v & 0x0f) << 4 }
  function Close2(code: byte, v: byte): byte { code | ((v & 0x3c) >> 2) }
  function Open3(v: byte): byte { (v & 0x03) << 6 }
  function Close3(code: byte, v: byte): byte { code | v }

  /** Four six-bit values carry three bytes; a last group of one or two bytes has zeros for the rest. */
  lemma GroupBack(a: byte, b: byte, c: byte)
    ensures Close1(Open1(First(a)), Second(a, b)) == a
    ensures Close2(Open2(Second(a, b)), Third(b, c)) == b
    ensures Close3(Open3(Third(b, c)), Fourth(c)) == c
    ensures First(a) < 64 && Second(a, b) < 64 && Third(b, c) < 64 && Fourth(c) < 64
  {
  }

  /** Three bytes and their four values are one number, written to base 256 and to base 64. */
  lemma GroupNumber(a: byte, b: byte, c: byte)
    ensures (First(a) as bv24 << 18) | (Second(a, b) as bv24 << 12) | (Third(b, c) as bv24 << 6) | (Fourth(c) as bv24)
         == (a as bv24 << 16) | (b as bv24 << 8) | (c as bv24)
  {
  }

  /** The six-bit values of a byte string, without padding. */
  function Sextets(x: seq<byte>): (v: seq<byte>)
  {
    if x == [] then []
    else if |x| == 1 then [First(x[0]), Second(x[0], 0)]
    else if |x| == 2 then [First(x[0]), Second(x[0], x[1]), Third(x[1], 0)]
    else [First(x[0]), Second(x[0], x[1]), Third(x[1], x[2]), Fourth(x[2])] + Sextets(x[3..])
  }

  function PadCount(x: seq<byte>): nat
  {
    if |x| % 3 == 0 then 0 else 3 - |x| % 3
  }

  function Letters(v: seq<byte>): (s: seq<byte>)
    ensures |s| == |v| && forall k :: 0 <= k < |v| ==> s[k] == Alphabet(v[k])
  {
    seq(|v|, k requires 0 <= k < |v| => Alphabet(v[k]))
  }

  function Pads(n: nat): (s: seq<byte>)
    ensures |s| == n && forall k :: 0 <= k < n ==> s[k] == PAD
  {
    seq(n, _ => PAD)
  }

  function Encode(x: seq<byte>): seq<byte>
  {
    Letters(Sextets(x)) + Pads(PadCount(x))
  }

  // ----- decoding -----

  /** The decoder's counter, its three pending codes, and what it has delivered. */
  datatype State = State(count: nat, code1: byte, code2: byte, code3: byte, out: seq<byte>)

  /** One letter. */
  function Step(st: State, v: byte): State
  {
    var next := st.(count := st.count + 1);
    if st.count % 4 == 0 then next.(code1 := Open1(v), out := Delivered(st))
    else if st.count % 4 == 1 then next.(code1 := Close1(st.code1, v), code2 := Open2(v))
    else if st.count % 4 == 2 then next.(code2 := Close2(st.code2, v), code3 := Open3(v))
    else next.(code3 := Close3(st.code3, v))
  }

  /** What has been delivered once a complete pending group is out, too. */
  function Delivered(st: State): seq<byte>
  {
    if st.count > 0 then st.out + [st.code1, st.code2, st.code3] else st.out
  }

  /** Characters that are no letters are passed over. */
  function Feed(st: State, s: seq<byte>): State
  {
    if s == [] then st
    else
      var before := Feed(st, s[..|s| - 1]);
      var c := s[|s| - 1];
      if IsLetter(c) then Step(before, ValueOf(c)) else before
  }

  /** Where the loop stops: at an '=' that is one of the last two characters, or at the end. */
  predicate StopsAt(s: seq<byte>, i: nat)
  {
    i < |s| && s[i] == PAD && |s| - i <= 2
  }

  function LoopEnd(s: seq<byte>, i: nat): (e: nat)
    requires i <= |s|
    ensures i <= e <= |s| && (e < |s| ==> StopsAt(s, e))
    ensures forall k :: i <= k < e ==> !StopsAt(s, k)
    decreases |s| - i
  {
    if i == |s| || StopsAt(s, i) then i else LoopEnd(s, i + 1)
  }

  /** The last, possibly incomplete group; `left` characters were not read. */
  function Finish(st: State, left: nat): seq<byte>
  {
    if st.count == 0 then st.out
    else if left == 0 then st.out + [st.code1, st.code2, st.code3]
    else if left == 1 then st.out + [st.code1, st.code2]
    else st.out + [st.code1]
  }

  /** `st` holds whatever the three code variables held before. */
  function Decode(s: seq<byte>, st: State): seq<byte>
  {
    var e := LoopEnd(s, 0);
    Finish(Feed(st, s[..e]), |s| - e)
  }

  // ----- the round trip -----

  /** The letters of a text, as values. */
  function Values(s: seq<byte>): seq<byte>
  {
    if s == [] then []
    else
      var before := Values(s[..|s| - 1]);
      var c := s[|s| - 1];
      if IsLetter(c) then before + [ValueOf(c)] else before
  }

  function FeedValues(st: State, v: seq<byte>): State
    decreases |v|
  {
    if v == [] then st else FeedValues(Step(st, v[0]), v[1..])
  }

  lemma {:induction false} FeedValuesSnoc(st: State, v: seq<byte>, x: byte)
    ensures FeedValues(st, v + [x]) == Step(FeedValues(st, v), x)
    decreases |v|
  {
    hide Step;
    if v == [] {
      assert FeedValues(Step(st, x), []) == Step(st, x);
      assert [x][1..] == [];
    } else {
      FeedValuesSnoc(Step(st, v[0]), v[1..], x);
      assert (v + [x])[1..] == v[1..] + [x];
    }
  }

  lemma {:induction false} FeedIsFeedValues(st: State, s: seq<byte>)
    ensures Feed(st, s) == FeedValues(st, Values(s))
  {
    hide Step, IsLetter;
    if s == [] {
    } else {
      var t := s[..|s| - 1];
      FeedIsFeedValues(st, t);
      if IsLetter(s[|s| - 1]) {
        FeedValuesSnoc(st, Values(t), ValueOf(s[|s| - 1]));
      }
    }
  }

  lemma {:induction false} ValuesOfLetters(v: seq<byte>)
    requires forall k :: 0 <= k < |v| ==> v[k] < 64
    ensures Values(Letters(v)) == v
  {
    hide Alphabet, IsLetter, ValueOf;
    if v == [] {
    } else {
      var n := |v| - 1;
      LetterOfValue(v[n]);
      ValuesOfLetters(v[..n]);
      assert Letters(v)[..n] == Letters(v[..n]);
      assert v == v[..n] + [v[n]];
    }
  }

  lemma {:induction false} SextetsAreSmall(x: seq<byte>)
    ensures forall k :: 0 <= k < |Sextets(x)| ==> Sextets(x)[k] < 64
  {
    hide First, Second, Third, Fourth, Open1, Close1, Open2, Close2, Open3, Close3;
    if x == [] {
    } else if |x| == 1 {
      GroupBack(x[0], 0, 0);
    } else if |x| == 2 {
      GroupBack(x[0], x[1], 0);
    } else {
      GroupBack(x[0], x[1], x[2]);
      SextetsAreSmall(x[3..]);
    }
  }

  lemma FeedCons(st: State, v: byte, w: seq<byte>)
    ensures FeedValues(st, [v] + w) == FeedValues(Step(st, v), w)
  {
    hide Step;
    assert ([v] + w)[1..] == w;
  }

  lemma {:induction false} FeedCounts(st: State, v: seq<byte>)
    ensures FeedValues(st, v).count == st.count + |v|
    decreases |v|
  {
    if v == [] {
    } else {
      FeedCounts(Step(st, v[0]), v[1..]);
    }
  }

  /** The first two values of a group: what was pending goes out, a first byte is pending. */
  lemma FeedTwo(st: State, v0: byte, v1: byte)
    requires st.count % 4 == 0
    ensures FeedValues(st, [v0, v1])
         == State(st.count + 2, Close1(Open1(v0), v1), Open2(v1), st.code3, Delivered(st))
  {
    hide Open1, Close1, Open2, FeedValues, Delivered, Step;
    FirstOfFour(st, v0);
    FeedOne(st, v0);
    Glue([v0], v1);
    FeedValuesSnoc(st, [v0], v1);
    SecondOfFour(State(st.count + 1, Open1(v0), st.code2, st.code3, Delivered(st)), v1);
  }

  lemma FirstOfFour(st: State, v: byte)
    requires st.count % 4 == 0
    ensures Step(st, v) == State(st.count + 1, Open1(v), st.code2, st.code3, Delivered(st))
  {
    hide Open1, Delivered;
  }

  lemma SecondOfFour(st: State, v: byte)
    requires st.count % 4 == 1
    ensures Step(st, v) == State(st.count + 1, Close1(st.code1, v), Open2(v), st.code3, st.out)
  {
    hide Close1, Open2;
  }

  lemma FeedOne(st: State, v: byte)
    ensures FeedValues(st, [v]) == Step(st, v)
  {
    hide Step;
    assert [v][1..] == [];
  }

  /** The value in third place closes the second byte, the one in fourth place the third. */
  lemma FeedThree(st: State, v0: byte, v1: byte, v2: byte)
    requires st.count % 4 == 0
    ensures FeedValues(st, [v0, v1, v2])
         == State(st.count + 3, Close1(Open1(v0), v1), Close2(Open2(v1), v2), Open3(v2), Delivered(st))
  {
    hide Open1, Close1, Open2, Close2, Open3, FeedValues, Delivered, Step;
    FeedTwo(st, v0, v1);
    Glue([v0, v1], v2);
    FeedValuesSnoc(st, [v0, v1], v2);
    ThirdOfFour(State(st.count + 2, Close1(Open1(v0), v1), Open2(v1), st.code3, Delivered(st)), v2);
  }

  lemma FeedFour(st: State, v0: byte, v1: byte, v2: byte, v3: byte)
    requires st.count % 4 == 0
    ensures FeedValues(st, [v0, v1, v2, v3])
         == State(st.count + 4, Close1(Open1(v0), v1), Close2(Open2(v1), v2), Close3(Open3(v2), v3), Delivered(st))
  {
    hide Open1, Close1, Open2, Close2, Open3, Close3, FeedValues, Delivered, Step;
    FeedThree(st, v0, v1, v2);
    Glue([v0, v1, v2], v3);
    FeedValuesSnoc(st, [v0, v1, v2], v3);
    LastOfFour(State(st.count + 3, Close1(Open1(v0), v1), Close2(Open2(v1), v2), Open3(v2), Delivered(st)), v3);
  }

  lemma ThirdOfFour(st: State, v: byte)
    requires st.count % 4 == 2
    ensures Step(st, v) == State(st.count + 1, st.code1, Close2(st.code2, v), Open3(v), st.out)
  {
    hide Close2, Open3;
  }

  lemma LastOfFour(st: State, v: byte)
    requires st.count % 4 == 3
    ensures Step(st, v) == State(st.count + 1, st.code1, st.code2, Close3(st.code3, v), st.out)
  {
    hide Close3;
  }

  lemma Glue(v: seq<byte>, x: byte)
    ensures |v| == 1 ==> v + [x] == [v[0], x]
    ensures |v| == 2 ==> v + [x] == [v[0], v[1], x]
    ensures |v| == 3 ==> v + [x] == [v[0], v[1], v[2], x]
  {
  }

  lemma {:induction false} FeedAppend(st: State, v: seq<byte>, w: seq<byte>)
    ensures FeedValues(st, v + w) == FeedValues(FeedValues(st, v), w)
    decreases |v|
  {
    hide Step;
    if v == [] {
      assert v + w == w;
    } else {
      assert v + w == [v[0]] + (v[1..] + w);
      FeedCons(st, v[0], v[1..] + w);
      FeedAppend(Step(st, v[0]), v[1..], w);
    }
  }

  lemma {:induction false} FeedSextets(st: State, x: seq<byte>)
    requires st.count % 4 == 0
    ensures Finish(FeedValues(st, Sextets(x)), PadCount(x)) == Delivered(st) + x
    decreases |x|
  {
    hide Step, First, Second, Third, Fourth, Open1, Close1, Open2, Close2, Open3, Close3, FeedValues;
    if x == [] {
      FeedNothing(st);
    } else if |x| == 1 {
      GroupBack(x[0], 0, 0);
      FeedTwo(st, First(x[0]), Second(x[0], 0));
      assert x == [x[0]];
    } else if |x| == 2 {
      GroupBack(x[0], x[1], 0);
      FeedThree(st, First(x[0]), Second(x[0], x[1]), Third(x[1], 0));
      assert x == [x[0], x[1]];
    } else {
      var v0, v1, v2, v3 := First(x[0]), Second(x[0], x[1]), Third(x[1], x[2]), Fourth(x[2]);
      GroupBack(x[0], x[1], x[2]);
      FeedFour(st, v0, v1, v2, v3);
      FeedAppend(st, [v0, v1, v2, v3], Sextets(x[3..]));
      FeedSextets(State(st.count + 4, x[0], x[1], x[2], Delivered(st)), x[3..]);
      ThreeMore(Delivered(st), x);
    }
  }

  lemma FeedNothing(st: State)
    ensures Finish(FeedValues(st, []), 0) == Delivered(st) + []
  {
    assert Delivered(st) + [] == Delivered(st);
  }

  lemma ThreeMore(d: seq<byte>, x: seq<byte>)
    requires |x| >= 3
    ensures d + [x[0], x[1], x[2]] + x[3..] == d + x
  {
  }

  /** The decoder's variables before a call: nothing counted or delivered, anything in the codes. */
  predicate Initial(st: State)
  {
    st.count == 0 && st.out == []
  }

  // ----- what may stand where -----

  predicate LetterFree(t: seq<byte>)
  {
    forall k :: 0 <= k < |t| ==> !IsLetter(t[k])
  }

  lemma {:induction false} FeedLetterFree(st: State, s: seq<byte>, t: seq<byte>)
    requires LetterFree(t)
    ensures Feed(st, s + t) == Feed(st, s)
    decreases |t|
  {
    hide Step, IsLetter, ValueOf;
    if t == [] {
      assert s + t == s;
    } else {
      var n := |t| - 1;
      assert (s + t)[..|s| + n] == s + t[..n] && (s + t)[|s| + n] == t[n];
      FeedLetterFree(st, s, t[..n]);
    }
  }

  /** How many characters the loop leaves unread, of a text with `pads` '=' and `extra` others at its end. */
  function Unread(pads: nat, extra: nat): (left: nat)
    ensures pads <= 2 ==> left <= 2
  {
    if pads == 0 || extra >= 2 then 0 else if pads == 1 then 1 + extra else 2
  }

  lemma LoopStops(body: seq<byte>, pads: nat, t: seq<byte>)
    requires pads <= 2 && PAD !in body && PAD !in t
    ensures var s := body + Pads(pads) + t;
            |body| <= LoopEnd(s, 0) == |s| - Unread(pads, |t|)
  {
    var s := body + Pads(pads) + t;
    assert forall k :: 0 <= k < |body| ==> s[k] == body[k];
    assert forall k :: |body| <= k < |body| + pads ==> s[k] == PAD;
    assert forall k :: |body| + pads <= k < |s| ==> s[k] == t[k - |body| - pads];
    var e := LoopEnd(s, 0);
    var stop := |s| - Unread(pads, |t|);
    assert stop < |s| ==> StopsAt(s, stop);
  }

  /** Only the letters of the body are read, and the end decides how the last group is finished. */
  lemma DecodesTo(body: seq<byte>, pads: nat, t: seq<byte>, st: State)
    requires pads <= 2 && PAD !in body && PAD !in t && LetterFree(t)
    ensures Decode(body + Pads(pads) + t, st) == Finish(FeedValues(st, Values(body)), Unread(pads, |t|))
  {
    PadLetter();
    LoopStops(body, pads, t);
    hide Step, Feed, FeedValues, Finish, Values, Unread, LoopEnd, IsLetter;
    var s := body + Pads(pads) + t;
    var e := LoopEnd(s, 0);
    var tail := (Pads(pads) + t)[..e - |body|];
    assert s[..e] == body + tail;
    FeedLetterFree(st, body, tail);
    FeedIsFeedValues(st, body);
  }

  /** Other characters behind an encoding of n bytes that do no harm. */
  predicate HarmlessBehind(n: nat, extra: nat)
  {
    extra == 0 || n % 3 == 0 || (n % 3 == 1 && extra == 1)
  }

  /**
   * Whatever else stands among the letters, `x` comes back exactly when what stands behind
   * the padding is harmless. One character behind a single '=' costs the last byte; two or
   * more behind padding hide it, and what they hide comes out as extra bytes.
   */
  lemma CharactersBehind(x: seq<byte>, body: seq<byte>, t: seq<byte>, st: State)
    requires Initial(st) && PAD !in body && Values(body) == Sextets(x)
    requires PAD !in t && LetterFree(t)
    ensures var y := Decode(body + Pads(PadCount(x)) + t, st);
            && (y == x <==> HarmlessBehind(|x|, |t|))
            && (|x| % 3 == 2 && |t| == 1 ==> y == x[..|x| - 1])
            && (|x| % 3 != 0 && |t| >= 2 ==> x < y && |y| == |x| + PadCount(x))
  {
    var v := Sextets(x);
    var end := FeedValues(st, v);
    FeedCounts(st, v);
    SomeSextets(x);
    hide Step, FeedValues, Sextets, Values, Decode, Finish;
    DecodesTo(body, PadCount(x), t, st);
    FeedSextets(st, x);
    assert Delivered(st) + x == x;
    if x == [] {
      NothingFed(end, Unread(0, |t|));
    } else {
      FinishedOtherwise(end, PadCount(x), Unread(PadCount(x), |t|), x);
    }
  }

  lemma NothingFed(end: State, left: nat)
    requires end.count == 0
    ensures Finish(end, left) == Finish(end, 0)
  {
  }

  /** The last group, finished as if another number of characters were unread. */
  lemma FinishedOtherwise(end: State, pads: nat, left: nat, x: seq<byte>)
    requires pads <= 2 && left <= 2 && end.count > 0 && Finish(end, pads) == x
    ensures Finish(end, left) == x <==> left == pads
    ensures left == pads + 1 ==> Finish(end, left) == x[..|x| - 1]
    ensures left == 0 < pads ==> x < Finish(end, left) && |Finish(end, left)| == |x| + pads
  {
  }

  /**
   * A text decodes to `x` when its letters are those of the encoding, with the padding at
   * its very end, and whatever else, but no '=', scattered among them.
   */
  lemma DecodeUndoesEncode(x: seq<byte>, body: seq<byte>, st: State)
    requires Initial(st) && PAD !in body && Values(body) == Sextets(x)
    ensures Decode(body + Pads(PadCount(x)), st) == x
  {
    hide Sextets, Values, Decode;
    assert body + Pads(PadCount(x)) + [] == body + Pads(PadCount(x));
    CharactersBehind(x, body, [], st);
  }

  /** The letters of an encoding, without anything among them. */
  lemma LettersAreBody(x: seq<byte>)
    ensures PAD !in Letters(Sextets(x)) && Values(Letters(Sextets(x))) == Sextets(x)
    ensures Encode(x) == Letters(Sextets(x)) + Pads(PadCount(x))
  {
    hide Alphabet, Sextets, Values;
    var v := Sextets(x);
    SextetsAreSmall(x);
    ValuesOfLetters(v);
    forall k | 0 <= k < |v|
      ensures Letters(v)[k] != PAD
    {
      LetterOfValue(v[k]);
    }
  }

  lemma RoundTrip(x: seq<byte>, st: State)
    requires Initial(st)
    ensures Decode(Encode(x), st) == x
  {
    hide Decode, Sextets, Values, Encode;
    LettersAreBody(x);
    DecodeUndoesEncode(x, Letters(Sextets(x)), st);
  }

  /** Which line ends and blanks a caller may leave behind what the encoder wrote. */
  lemma EncodingWithTail(x: seq<byte>, t: seq<byte>, st: State)
    requires Initial(st) && PAD !in t && LetterFree(t)
    ensures var y := Decode(Encode(x) + t, st);
            && (y == x <==> HarmlessBehind(|x|, |t|))
            && (|x| % 3 == 2 && |t| == 1 ==> y == x[..|x| - 1])
            && (|x| % 3 != 0 && |t| >= 2 ==> x < y && |y| == |x| + PadCount(x))
  {
    hide Decode, Sextets, Values, Encode;
    LettersAreBody(x);
    CharactersBehind(x, Letters(Sextets(x)), t, st);
  }

  lemma LettersOfAB()
    ensures Sextets([0x41, 0x42]) == [16, 20, 8] && Letters([16, 20, 8]) == [0x51, 0x55, 0x49]
  {
  }

  lemma ThreeLetters(l: seq<byte>, t: seq<byte>)
    requires |l| == 3
    ensures l + Pads(1) == [l[0], l[1], l[2], PAD]
    ensures |t| == 1 ==> l + Pads(1) + t == [l[0], l[1], l[2], PAD, t[0]]
    ensures |t| == 2 ==> l + Pads(1) + t == [l[0], l[1], l[2], PAD, t[0], t[1]]
  {
  }

  /** "QUI=" is AB; a newline behind it leaves A, and carriage return and newline add a byte. */
  lemma LineEndBehindPadding(st: State)
    requires Initial(st)
    ensures Encode([0x41, 0x42]) == [0x51, 0x55, 0x49, 0x3d]
    ensures Decode([0x51, 0x55, 0x49, 0x3d, 0x0a], st) == [0x41]
    ensures |Decode([0x51, 0x55, 0x49, 0x3d, 0x0d, 0x0a], st)| == 3
  {
    var x: seq<byte> := [0x41, 0x42];
    var body := Letters(Sextets(x));
    LettersOfAB();
    hide Decode, Sextets, Values, Letters, Pads;
    LettersAreBody(x);
    ThreeLetters(body, []);
    ThreeLetters(body, [0x0a]);
    ThreeLetters(body, [0x0d, 0x0a]);
    CharactersBehind(x, body, [0x0a], st);
    CharactersBehind(x, body, [0x0d, 0x0a], st);
  }

  lemma SomeSextets(x: seq<byte>)
    ensures |Sextets(x)| > 0 <==> x != []
  {
  }

  lemma TestValues()
    ensures Sextets([0x66]) == [25, 32] && Sextets([0x66, 0x6f]) == [25, 38, 60]
    ensures Sextets([0x66, 0x6f, 0x6f]) == [25, 38, 61, 47]
    ensures Sextets([0x62, 0x61, 0x72]) == [24, 38, 5, 50]
  {
    assert [0x66, 0x6f, 0x6f][3..] == [] && [0x62, 0x61, 0x72][3..] == [];
  }

  lemma TestLetters()
    ensures Letters([25, 32]) == [0x5a, 0x67] && Letters([25, 38, 60]) == [0x5a, 0x6d, 0x38]
    ensures Letters([25, 38, 61, 47]) == [0x5a, 0x6d, 0x39, 0x76]
    ensures Letters([24, 38, 5, 50]) == [0x59, 0x6d, 0x46, 0x79]
  {
  }

  /** Test vectors of RFC 4648, section 10: "f", "fo" and "foo"; and "bar". */
  lemma TestVectors()
    ensures Encode([0x66]) == [0x5a, 0x67, 0x3d, 0x3d]
    ensures Encode([0x66, 0x6f]) == [0x5a, 0x6d, 0x38, 0x3d]
    ensures Encode([0x66, 0x6f, 0x6f]) == [0x5a, 0x6d, 0x39, 0x76]
    ensures Encode([0x62, 0x61, 0x72]) == [0x59, 0x6d, 0x46, 0x79]
  {
    TestValues();
    TestLetters();
    hide Sextets, Letters;
  }

  // ----- the program -----

  function PadValues(n: nat): (s: seq<byte>)
    ensures |s| == n && forall k :: 0 <= k < n ==> s[k] == PAD_VALUE
  {
    seq(n, _ => PAD_VALUE)
  }

  /** The six-bit values with the padding's value behind them, before translation. */
  function Raw(x: seq<byte>): (r: seq<byte>)
  {
    Sextets(x) + PadValues(PadCount(x))
  }

  lemma EncodeIsTranslation(x: seq<byte>)
    ensures Letters(Raw(x)) == Encode(x)
  {
    hide Sextets, Alphabet;
    PadLetter();
  }

  lemma {:induction false} SextetsAppend(y: seq<byte>, z: seq<byte>)
    requires |y| % 3 == 0
    ensures Sextets(y + z) == Sextets(y) + Sextets(z) && |Sextets(y)| == |y| / 3 * 4
  {
    hide First, Second, Third, Fourth;
    if y == [] {
      assert y + z == z;
    } else {
      SextetsAppend(y[3..], z);
      assert (y + z)[3..] == y[3..] + z;
      var g := [First(y[0]), Second(y[0], y[1]), Third(y[1], y[2]), Fourth(y[2])];
      Associate(g, Sextets(y[3..]), Sextets(z));
    }
  }

  lemma Associate(a: seq<byte>, b: seq<byte>, c: seq<byte>)
    ensures a + (b + c) == a + b + c
  {
  }

  lemma EncodedLength(x: seq<byte>)
    ensures |Encode(x)| == |x| / 3 * 4 + if |x| % 3 == 0 then 0 else 4
  {
    hide First, Second, Third, Fourth;
    var n := |x| - |x| % 3;
    SextetsAppend(x[..n], x[n..]);
    assert x == x[..n] + x[n..];
  }

  /** opBase64Encode; without buffers it only tells the length. */
  method Base64Encode(out: array?<byte>, source: array?<byte>, size: nat) returns (total: nat)
    requires source != null ==> size <= source.Length
    requires out != null && source != null ==>
      out != source && size / 3 * 4 + (if size % 3 == 0 then 0 else 4) <= out.Length
    modifies out
    ensures total == size / 3 * 4 + if size % 3 == 0 then 0 else 4
    ensures out != null && source != null ==>
      |Encode(source[..size])| == total && out[..total] == Encode(source[..size])
  {
    total := size / 3 * 4 + if size % 3 == 0 then 0 else 4;
    if out == null || source == null {
      return;
    }
    ghost var x := source[..size];
    EncodedLength(x);
    EncodeIsTranslation(x);
    hide Alphabet, Raw, Encode;
    WriteSextets(out, source, size);
    ghost var raw := out[..total];
    assert raw == Raw(x);
    Translate(out, total);
  }

  /** The translation loop, in place. */
  method Translate(out: array<byte>, total: nat)
    requires total <= out.Length
    modifies out
    ensures out[..total] == Letters(old(out[..total]))
  {
    hide Alphabet;
    ghost var raw := out[..total];
    for k := 0 to total
      invariant forall j :: 0 <= j < k ==> out[j] == Alphabet(raw[j])
      invariant forall j :: k <= j < total ==> out[j] == raw[j]
    {
      out[k] := Alphabet(out[k]);
    }
  }

  /** The loop over whole groups, and the switch for the last one. */
  method WriteSextets(out: array<byte>, source: array<byte>, size: nat)
    requires size <= source.Length && out != source
    requires size / 3 * 4 + (if size % 3 == 0 then 0 else 4) <= out.Length
    modifies out
    ensures var x := source[..size]; |Raw(x)| <= out.Length && out[..|Raw(x)|] == Raw(x)
  {
    hide First, Second, Third, Fourth, Sextets;
    ghost var x := source[..size];
    var loop, o := 0, 0;
    SomeOrNone(x);
    while loop + 3 <= size
      invariant loop <= size && loop % 3 == 0 && o == loop / 3 * 4
      invariant source[..size] == x
      invariant out[..o] == Sextets(x[..loop])
    {
      assert source[loop] == x[loop] && source[loop + 1] == x[loop + 1] && source[loop + 2] == x[loop + 2];
      var a, b, c := source[loop], source[loop + 1], source[loop + 2];
      Put(out, o, First(a), Second(a, b), Third(b, c), Fourth(c));
      OneMoreGroup(x, loop);
      loop, o := loop + 3, o + 4;
    }
    LastGroup(x, loop);
    assert forall k :: loop <= k < size ==> source[k] == x[k];
    if size % 3 == 1 {
      var a := source[loop];
      Put(out, o, First(a), Second(a, 0), PAD_VALUE, PAD_VALUE);
    } else if size % 3 == 2 {
      var a, b := source[loop], source[loop + 1];
      Put(out, o, First(a), Second(a, b), Third(b, 0), PAD_VALUE);
    }
  }

  lemma SomeOrNone(x: seq<byte>)
    ensures Sextets(x[..0]) == []
  {
  }

  /** The values behind the last whole group, with their padding. */
  lemma LastGroup(x: seq<byte>, n: nat)
    requires n <= |x| < n + 3 && n % 3 == 0
    ensures Raw(x) == Sextets(x[..n])
            + if |x| == n then []
              else if |x| == n + 1 then [First(x[n]), Second(x[n], 0), PAD_VALUE, PAD_VALUE]
              else [First(x[n]), Second(x[n], x[n + 1]), Third(x[n + 1], 0), PAD_VALUE]
    ensures |Sextets(x[..n])| == n / 3 * 4
  {
    hide First, Second, Third;
    var g := x[n..];
    Text.Halves(x, n);
    SextetsAppend(x[..n], g);
    assert |g| == |x| - n && |x| % 3 == |g| % 3;
    LastValues(g);
    hide Sextets;
    Associate(Sextets(x[..n]), Sextets(g), PadValues(PadCount(x)));
  }

  /** The values and the padding of what is left behind the whole groups. */
  lemma LastValues(g: seq<byte>)
    requires |g| < 3
    ensures g == [] ==> Raw(g) == []
    ensures |g| == 1 ==> Raw(g) == [First(g[0]), Second(g[0], 0), PAD_VALUE, PAD_VALUE]
    ensures |g| == 2 ==> Raw(g) == [First(g[0]), Second(g[0], g[1]), Third(g[1], 0), PAD_VALUE]
  {
    ShortSextets(g);
    hide First, Second, Third, Sextets;
    if |g| == 1 {
      TwoAndTwo(First(g[0]), Second(g[0], 0));
    } else if |g| == 2 {
      ThreeAndOne(First(g[0]), Second(g[0], g[1]), Third(g[1], 0));
    }
  }

  lemma ShortSextets(g: seq<byte>)
    requires |g| < 3
    ensures g == [] ==> Sextets(g) == []
    ensures |g| == 1 ==> Sextets(g) == [First(g[0]), Second(g[0], 0)]
    ensures |g| == 2 ==> Sextets(g) == [First(g[0]), Second(g[0], g[1]), Third(g[1], 0)]
  {
    hide First, Second, Third;
  }

  lemma TwoAndTwo(a: byte, b: byte)
    ensures [a, b] + PadValues(2) == [a, b, PAD_VALUE, PAD_VALUE]
  {
  }

  lemma ThreeAndOne(a: byte, b: byte, c: byte)
    ensures [a, b, c] + PadValues(1) == [a, b, c, PAD_VALUE]
  {
  }

  /** Four values, one behind the other. */
  method Put(out: array<byte>, o: nat, v0: byte, v1: byte, v2: byte, v3: byte)
    requires o + 4 <= out.Length
    modifies out
    ensures out[..o + 4] == old(out[..o]) + [v0, v1, v2, v3]
  {
    out[o], out[o + 1], out[o + 2], out[o + 3] := v0, v1, v2, v3;
  }

  lemma OneMoreGroup(x: seq<byte>, n: nat)
    requires n + 3 <= |x| && n % 3 == 0
    ensures Sextets(x[..n + 3])
         == Sextets(x[..n]) + [First(x[n]), Second(x[n], x[n + 1]), Third(x[n + 1], x[n + 2]), Fourth(x[n + 2])]
    ensures |Sextets(x[..n])| == n / 3 * 4
  {
    hide First, Second, Third, Fourth;
    var g := x[n..n + 3];
    assert x[..n + 3] == x[..n] + g;
    SextetsAppend(x[..n], g);
    assert g[3..] == [];
  }

  /** Every group of four letters after the first one has delivered the group before it. */
  predicate Paced(st: State)
  {
    |st.out| == if st.count == 0 then 0 else 3 * ((st.count - 1) / 4)
  }

  lemma StepIsPaced(st: State, v: byte)
    requires Paced(st)
    ensures Paced(Step(st, v)) && Step(st, v).count == st.count + 1
    ensures Step(st, v).out == if st.count % 4 == 0 then Delivered(st) else st.out
  {
  }

  /**
   * opBase64Decode. The three code variables start with whatever they hold; `st0` says
   * what that was.
   */
  method Base64Decode(out: array<byte>, source: array<byte>, size: nat) returns (bytes: nat, ghost st0: State)
    requires size <= source.Length && out != source && 3 * ((size + 3) / 4) <= out.Length
    modifies out
    ensures Initial(st0)
    ensures bytes == |Decode(source[..size], st0)| && bytes <= out.Length
    ensures out[..bytes] == Decode(source[..size], st0)
  {
    PadLetter();
    hide Step, IsLetter, ValueOf, Finish, Feed, LoopEnd;
    ghost var s := source[..size];
    var st: State := *;
    st := st.(count := 0, out := []);
    st0 := st;
    var loop := 0;
    bytes := 0;
    FeedNext(st0, s, 0);
    while loop < size
      invariant loop <= size && LoopEnd(s, loop) == LoopEnd(s, 0)
      invariant source[..size] == s
      invariant st == Feed(st0, s[..loop]) && st.count <= loop && Paced(st)
      invariant bytes == |st.out| <= out.Length && out[..bytes] == st.out
    {
      var code := source[loop];
      assert code == s[loop];
      FeedNext(st0, s, loop);
      if IsLetter(code) {
        bytes := Deliver(out, st, bytes, ValueOf(code));
        st := Step(st, ValueOf(code));
      } else if code == PAD && size - loop <= 2 {
        break;
      }
      loop := loop + 1;
    }
    FeedNext(st0, s, loop);
    bytes := Tail(out, st, bytes, size - loop);
  }

  /** One turn of the loop, at the n-th character. */
  lemma FeedNext(st0: State, s: seq<byte>, n: nat)
    requires n <= |s|
    ensures Feed(st0, s[..0]) == st0
    ensures n == |s| || StopsAt(s, n) ==> LoopEnd(s, n) == n
    ensures n < |s| && !StopsAt(s, n) ==> LoopEnd(s, n + 1) == LoopEnd(s, n)
    ensures n < |s| ==>
              var before := Feed(st0, s[..n]);
              Feed(st0, s[..n + 1]) == if IsLetter(s[n]) then Step(before, ValueOf(s[n])) else before
  {
    hide Step, IsLetter, ValueOf;
    assert n < |s| ==> s[..n + 1][..n] == s[..n];
  }

  /** The first case of the switch: a complete pending group goes out before the next begins. */
  method Deliver(out: array<byte>, st: State, bytes: nat, ghost v: byte) returns (next: nat)
    requires bytes == |st.out| <= out.Length && out[..bytes] == st.out
    requires Paced(st) && 3 * ((st.count + 4) / 4) <= out.Length
    modifies out
    ensures var st' := Step(st, v);
            && Paced(st') && st'.count == st.count + 1
            && next == |st'.out| <= out.Length && out[..next] == st'.out
  {
    StepIsPaced(st, v);
    hide Step;
    next := bytes;
    if st.count % 4 == 0 && st.count > 0 {
      out[next], out[next + 1], out[next + 2] := st.code1, st.code2, st.code3;
      next := next + 3;
      assert out[..next] == st.out + [st.code1, st.code2, st.code3];
    }
  }

  /** What is written after the loop. */
  method Tail(out: array<byte>, st: State, bytes: nat, left: nat) returns (next: nat)
    requires bytes == |st.out| <= out.Length && out[..bytes] == st.out
    requires st.count > 0 ==> bytes + 3 <= out.Length
    modifies out
    ensures next == |Finish(st, left)| <= out.Length && out[..next] == Finish(st, left)
  {
    next := bytes;
    if st.count != 0 {
      out[next] := st.code1;
      next := next + 1;
      assert out[..next] == st.out + [st.code1];
      if left <= 1 {
        out[next] := st.code2;
        next := next + 1;
        assert out[..next] == st.out + [st.code1, st.code2];
      }
      if left == 0 {
        out[next] := st.code3;
        next := next + 1;
        assert out[..next] == st.out + [st.code1, st.code2, st.code3];
      }
    }
  }
}
