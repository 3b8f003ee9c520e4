// The bank emulator: length-prefixed messages, and canned replies looked up in a file
// of bracketed sections.

module Emulator {
  import opened Text
  import opened Decimal

  /** A Python result: a value, or an exception that ends the server. */
  datatype Result<+T> = Success(value: T) | Raised

  // ----- section lookup -----

  /** list.index: the first position of `l`. */
  function Position(lines: seq<string>, l: string): (r: Option<nat>)
    ensures r.Some? ==> r.value < |lines| && lines[r.value] == l && l !in lines[..r.value]
    ensures r.None? <==> l !in lines
  {
    if lines == [] then None
    else if lines[0] == l then Some(0)
    else
      match Position(lines[1..], l)
      case None =>
        assert lines == [lines[0]] + lines[1..];
        None
      case Some(i) =>
        assert lines[..i + 1] == [lines[0]] + lines[1..][..i];
        Some(i + 1)
  }

  function Opening(code: string): string
  {
    code + "[\n"
  }

  function Closing(code: string): string
  {
    code + "]\n"
  }

  /** Python's lines[b:e] for b <= |lines|. */
  function Slice(lines: seq<string>, b: nat, e: nat): seq<string>
    requires b <= |lines| && e <= |lines|
  {
    if b <= e then lines[b..e] else []
  }

  /** The text between the first opening and the first closing marker of `code`. */
  function SectionOf(lines: seq<string>, code: string): Result<string>
  {
    match (Position(lines, Opening(code)), Position(lines, Closing(code)))
    case (Some(b), Some(e)) => Success(Flatten(Slice(lines, b + 1, e)))
    case _ => Raised
  }

  method GetRspData(tcode: string, datafile: string) returns (r: Result<string>)
    ensures r == SectionOf(Lines(datafile), tcode)
  {
    hide Lines;
    var msg := "";
    var lines := Lines(datafile);
    var bidx := Position(lines, Opening(tcode));
    if bidx.None? {
      return Raised;
    }
    var eidx := Position(lines, Closing(tcode));
    if eidx.None? {
      return Raised;
    }
    var body := Slice(lines, bidx.value + 1, eidx.value);
    for i := 0 to |body|
      invariant msg + Flatten(body[i..]) == Flatten(body)
    {
      HeadTail(body[i..]);
      FlattenCons(body[i], body[i + 1..]);
      assert msg + (body[i] + Flatten(body[i + 1..])) == msg + body[i] + Flatten(body[i + 1..]);
      msg := msg + body[i];
    }
    assert body[|body|..] == [] && msg + "" == msg;
    return Success(msg);
  }

  /** A closing marker before the opening one: the slice is empty, and so is the message. */
  lemma ClosedBeforeOpened(lines: seq<string>, code: string, b: nat, e: nat)
    requires e < b < |lines| && lines[b] == code + "[\n" && lines[e] == code + "]\n"
    requires forall k :: 0 <= k < b ==> lines[k] != code + "[\n"
    requires forall k :: 0 <= k < e ==> lines[k] != code + "]\n"
    ensures SectionOf(lines, code) == Success("")
  {
  }

  // ----- section files -----

  datatype Section = Section(code: string, body: string)

  function SectionText(s: Section): string
  {
    Opening(s.code) + s.body + Closing(s.code)
  }

  function Render(ss: seq<Section>): string
  {
    if ss == [] then "" else SectionText(ss[0]) + Render(ss[1..])
  }

  function SectionLines(s: Section): seq<string>
  {
    [Opening(s.code)] + Lines(s.body) + [Closing(s.code)]
  }

  function RenderLines(ss: seq<Section>): seq<string>
  {
    if ss == [] then [] else SectionLines(ss[0]) + RenderLines(ss[1..])
  }

  /** A section's code has no newline, and its body is whole lines. */
  predicate Shaped(s: Section)
  {
    NEWLINE !in s.code && AllFull(Lines(s.body))
  }

  /** None of the bodies has a marker line of `code`. */
  predicate MarkerFree(ss: seq<Section>, code: string)
  {
    forall k :: 0 <= k < |ss| ==>
      Opening(code) !in Lines(ss[k].body) && Closing(code) !in Lines(ss[k].body)
  }

  predicate SectionFile(ss: seq<Section>)
  {
    && (forall k :: 0 <= k < |ss| ==> Shaped(ss[k]) && MarkerFree(ss, ss[k].code))
    && (forall j, k :: 0 <= j < k < |ss| ==> ss[j].code != ss[k].code)
  }

  lemma MarkersAreLines(code: string)
    requires NEWLINE !in code
    ensures FullLine(Opening(code)) && FullLine(Closing(code))
  {
    IndexOfIs(Opening(code), NEWLINE, |code| + 1);
    IndexOfIs(Closing(code), NEWLINE, |code| + 1);
  }

  lemma MarkersDiffer(a: string, b: string)
    ensures Opening(a) != Closing(b)
    ensures a != b ==> Opening(a) != Opening(b) && Closing(a) != Closing(b)
  {
    assert Opening(a)[|Opening(a)| - 2] == '[' && Closing(b)[|Closing(b)| - 2] == ']';
    assert Opening(a)[..|Opening(a)| - 2] == a && Opening(b)[..|Opening(b)| - 2] == b;
    assert Closing(a)[..|Closing(a)| - 2] == a && Closing(b)[..|Closing(b)| - 2] == b;
  }

  lemma LinesOfSection(s: Section, tail: string)
    requires Shaped(s)
    ensures Lines(SectionText(s) + tail) == SectionLines(s) + Lines(tail)
  {
    MarkersAreLines(s.code);
    var o, c := Opening(s.code), Closing(s.code);
    hide Lines, Opening, Closing, Flatten, FullLine;
    LinesCons(c, tail);
    FlattenLines(s.body);
    LinesFlatten(Lines(s.body), c + tail);
    LinesCons(o, s.body + (c + tail));
    Regroup(o, s.body, c, tail);
    Regroup([o], Lines(s.body), [c], Lines(tail));
  }

  lemma {:induction false} LinesOfRender(ss: seq<Section>)
    requires forall k :: 0 <= k < |ss| ==> Shaped(ss[k])
    ensures Lines(Render(ss)) == RenderLines(ss)
  {
    if ss == [] {
    } else {
      hide SectionText, SectionLines, Lines;
      LinesOfRender(ss[1..]);
      LinesOfSection(ss[0], Render(ss[1..]));
    }
  }

  lemma {:induction false} RenderLinesSplit(ss: seq<Section>, k: nat)
    requires k < |ss|
    ensures RenderLines(ss) == RenderLines(ss[..k]) + SectionLines(ss[k]) + RenderLines(ss[k + 1..])
  {
    hide SectionLines;
    if k > 0 {
      RenderLinesSplit(ss[1..], k - 1);
      assert ss[..k][1..] == ss[1..][..k - 1] && ss[1..][k..] == ss[k + 1..];
      assert ss[..k] != [] && ss[..k][0] == ss[0];
      assert SectionLines(ss[0])
             + (RenderLines(ss[..k][1..]) + SectionLines(ss[k]) + RenderLines(ss[k + 1..]))
          == SectionLines(ss[0]) + RenderLines(ss[..k][1..]) + SectionLines(ss[k])
             + RenderLines(ss[k + 1..]);
    } else {
      assert [] + SectionLines(ss[0]) == SectionLines(ss[0]);
    }
  }

  /** A code's markers do not show up among the lines of other sections. */
  lemma {:induction false} NoMarkerElsewhere(ss: seq<Section>, code: string)
    requires MarkerFree(ss, code) && forall k :: 0 <= k < |ss| ==> ss[k].code != code
    ensures Opening(code) !in RenderLines(ss) && Closing(code) !in RenderLines(ss)
  {
    if ss == [] {
    } else {
      assert forall k :: 0 <= k < |ss| - 1 ==> ss[1..][k] == ss[k + 1];
      NoMarkerElsewhere(ss[1..], code);
      MarkersDiffer(code, ss[0].code);
      MarkersDiffer(ss[0].code, code);
      hide Opening, Closing;
      assert SectionLines(ss[0]) == [Opening(ss[0].code)] + Lines(ss[0].body) + [Closing(ss[0].code)];
    }
  }

  lemma {:induction false} PositionBehind(a: seq<string>, l: string, b: seq<string>)
    requires l !in a
    ensures Position(a + [l] + b, l) == Some(|a|)
  {
    if a == [] {
    } else {
      assert a == [a[0]] + a[1..];
      PositionBehind(a[1..], l, b);
      assert (a + [l] + b)[1..] == a[1..] + [l] + b;
    }
  }

  /** Where a section is among the lines of its file, and that its markers are not before it. */
  lemma SectionInFile(ss: seq<Section>, k: nat)
    requires SectionFile(ss) && k < |ss|
    ensures Lines(Render(ss))
         == RenderLines(ss[..k]) + SectionLines(ss[k]) + RenderLines(ss[k + 1..])
    ensures Opening(ss[k].code) !in RenderLines(ss[..k]) && Closing(ss[k].code) !in RenderLines(ss[..k])
    ensures Closing(ss[k].code) !in Lines(ss[k].body)
  {
    hide Lines, Opening, Closing, Render, RenderLines, SectionLines, FullLine;
    LinesOfRender(ss);
    RenderLinesSplit(ss, k);
    NoMarkerElsewhere(ss[..k], ss[k].code);
  }

  /** Looking a section up in the file it was rendered to gives its body back. */
  lemma LookupUndoesRender(ss: seq<Section>, k: nat)
    requires SectionFile(ss) && k < |ss|
    ensures SectionOf(Lines(Render(ss)), ss[k].code) == Success(ss[k].body)
  {
    var s := ss[k];
    hide Lines, Opening, Closing, Render, RenderLines, SectionFile, Flatten, SectionOf;
    SectionInFile(ss, k);
    FlattenLines(s.body);
    PickBody(Lines(Render(ss)), s.code, RenderLines(ss[..k]), Lines(s.body), RenderLines(ss[k + 1..]));
  }

  lemma PickBody(lines: seq<string>, code: string, a: seq<string>, body: seq<string>, b: seq<string>)
    requires lines == a + ([Opening(code)] + body + [Closing(code)]) + b
    requires Opening(code) !in a && Closing(code) !in a && Closing(code) !in body
    ensures SectionOf(lines, code) == Success(Flatten(body))
  {
    var o, c := Opening(code), Closing(code);
    MarkersDiffer(code, code);
    hide Position, Opening, Closing, Flatten;
    Reassociate(a, [o], body, [c], b);
    PositionBehind(a, o, body + [c] + b);
    PositionBehind(a + [o] + body, c, b);
    assert Slice(lines, |a| + 1, |a| + 1 + |body|) == body;
  }

  lemma Reassociate<T>(a: seq<T>, b: seq<T>, c: seq<T>, d: seq<T>, e: seq<T>)
    ensures a + (b + c + d) + e == a + b + (c + d + e) == (a + b + c) + d + e
  {
  }

  /** A code without a section raises an exception. */
  lemma UnknownCodeRaises(ss: seq<Section>, code: string)
    requires SectionFile(ss) && MarkerFree(ss, code)
    requires forall k :: 0 <= k < |ss| ==> ss[k].code != code
    ensures SectionOf(Lines(Render(ss)), code) == Raised
  {
    LinesOfRender(ss);
    NoMarkerElsewhere(ss, code);
  }

  // ----- framing -----

  const HEADER: nat := 10

  /** str(len(msg)).zfill(10) + msg */
  function Frame(msg: string): string
  {
    ZeroFill(Dec(|msg|), HEADER) + msg
  }

  /** Ten digits with the length as value, and the message. */
  lemma FrameText(msg: string)
    requires |msg| < Pow10(10)
    ensures var head := Frame(msg)[..10];
            AllDigits(head) && Value(head) == |msg| && Frame(msg)[10..] == msg
  {
    DecWidth(|msg|, 10);
    ValueOfZeroFill(|msg|, 10);
    hide Dec, Value;
    assert Frame(msg)[..10] == ZeroFill(Dec(|msg|), 10);
  }

  function RStrip(s: string): string
  {
    if s != "" && IsBlank(s[|s| - 1]) then RStrip(s[..|s| - 1]) else s
  }

  /** int(s): blanks around, an optional sign, and digits only. */
  function PyInt(s: string): Result<int>
  {
    var t := SkipBlanks(RStrip(s));
    var signed := t != "" && (t[0] == '-' || t[0] == '+');
    var digits := if signed then t[1..] else t;
    if digits == "" || !AllDigits(digits) then Raised
    else if signed && t[0] == '-' then Success(-(Value(digits) as int))
    else Success(Value(digits))
  }

  /** recv(n) on a connection that has `stream` still to deliver: the data, and what stays. */
  function Recv(stream: string, n: nat): (string, string)
  {
    var l := if n <= |stream| then n else |stream|;
    (stream[..l], stream[l..])
  }

  /** Ten bytes of length, then that many bytes. */
  function ReadFrame(stream: string): Result<(string, string)>
  {
    var (head, rest) := Recv(stream, HEADER);
    match PyInt(head)
    case Raised => Raised
    case Success(n) => if n < 0 then Raised else Success(Recv(rest, n))
  }

  lemma {:induction false} StripTrailing(t: string, b: string)
    requires AllBlank(b) && (t != "" ==> !IsBlank(t[|t| - 1]))
    ensures RStrip(t + b) == t
    decreases |b|
  {
    if b == "" {
      assert t + b == t;
    } else {
      var n := |b| - 1;
      assert (t + b)[..|t| + n] == t + b[..n];
      StripTrailing(t, b[..n]);
    }
  }

  lemma Trimmed(lead: string, t: string, trail: string)
    requires AllBlank(lead) && AllBlank(trail) && (t != "" ==> !IsBlank(t[0]) && !IsBlank(t[|t| - 1]))
    ensures SkipBlanks(RStrip(lead + t + trail)) == t
  {
    if t == "" {
      assert lead + t + trail == "" + (lead + trail);
      StripTrailing("", lead + trail);
    } else {
      assert (lead + t)[|lead + t| - 1] == t[|t| - 1];
      StripTrailing(lead + t, trail);
      SkipLeading(lead, t);
    }
  }

  /** int(): blanks around, a sign and digits; without digits, or with anything else, it raises. */
  lemma PyIntText(lead: string, sign: string, d: string, trail: string)
    requires AllBlank(lead) && AllBlank(trail) && (sign == "" || sign == "+" || sign == "-")
    requires forall k :: 0 <= k < |d| ==> !IsBlank(d[k]) && d[k] != '+' && d[k] != '-'
    ensures PyInt(lead + (sign + d) + trail)
         == if d == "" || !AllDigits(d) then Raised
            else if sign == "-" then Success(-(Value(d) as int)) else Success(Value(d))
  {
    SignedParts(sign, d);
    Trimmed(lead, sign + d, trail);
    PyIntOf(lead + (sign + d) + trail, sign + d, sign, d);
  }

  lemma PyIntOf(s: string, t: string, sign: string, d: string)
    requires SkipBlanks(RStrip(s)) == t && (sign == "" || sign == "+" || sign == "-")
    requires if sign == "" then t == d else t != "" && t[0] == sign[0] && t[1..] == d
    requires d != "" ==> d[0] != '+' && d[0] != '-'
    ensures PyInt(s)
         == if d == "" || !AllDigits(d) then Raised
            else if sign == "-" then Success(-(Value(d) as int)) else Success(Value(d))
  {
    hide Value, RStrip, SkipBlanks, AllDigits;
  }

  lemma SignedParts(sign: string, d: string)
    requires sign == "" || sign == "+" || sign == "-"
    requires forall k :: 0 <= k < |d| ==> !IsBlank(d[k])
    ensures sign == "" ==> sign + d == d
    ensures sign != "" ==> (sign + d)[1..] == d && (sign + d)[0] == sign[0]
    ensures sign + d != "" ==> !IsBlank((sign + d)[0]) && !IsBlank((sign + d)[|sign + d| - 1])
  {
    var t := sign + d;
    assert d != "" ==> t[|t| - 1] == d[|d| - 1];
    assert sign == "" ==> t == d;
  }

  lemma PyIntOfDigits(s: string)
    requires s != "" && AllDigits(s)
    ensures PyInt(s) == Success(Value(s))
  {
    assert s[0] in s && s[|s| - 1] in s;
  }

  /** One frame is read back, whatever follows it, exactly when its length has ten digits. */
  lemma FrameReadsBack(msg: string, rest: string)
    ensures ReadFrame(Frame(msg) + rest) == Success((msg, rest)) <==> |msg| < Pow10(HEADER)
  {
    var head := ZeroFill(Dec(|msg|), HEADER);
    var stream := Frame(msg) + rest;
    DecWidth(|msg|, HEADER);
    ValueOfZeroFill(|msg|, HEADER);
    hide Value, Dec, ZeroFill, PyInt;
    if |msg| < Pow10(HEADER) {
      assert stream[..HEADER] == head && stream[HEADER..] == msg + rest;
      PyIntOfDigits(head);
      assert (msg + rest)[..|msg|] == msg && (msg + rest)[|msg|..] == rest;
    } else {
      CutHeader(msg, stream);
    }
  }

  /** A message of 10^10 bytes is the shortest that does not. */
  lemma TooLongToFrame(c: char, rest: string)
    ensures ReadFrame(Frame(Repeat(c, Pow10(HEADER))) + rest) != Success((Repeat(c, Pow10(HEADER)), rest))
    ensures ReadFrame(Frame(Repeat(c, Pow10(HEADER) - 1)) + rest) == Success((Repeat(c, Pow10(HEADER) - 1), rest))
  {
    hide *;
    FrameReadsBack(Repeat(c, Pow10(HEADER)), rest);
    FrameReadsBack(Repeat(c, Pow10(HEADER) - 1), rest);
  }

  lemma CutHeader(msg: string, stream: string)
    requires |Dec(|msg|)| > HEADER && Frame(msg) <= stream
    ensures ReadFrame(stream).Success? && |ReadFrame(stream).value.0| < |msg|
  {
    var d := Dec(|msg|);
    assert stream[..HEADER] == d[..HEADER];
    ValueOfDec(|msg|);
    ValueOfPrefix(d, |d| - HEADER);
    LeadingShrinks(|msg|, |d| - HEADER);
    hide Value, Dec, PyInt;
    PyIntOfDigits(d[..HEADER]);
  }

  /** No frame is a proper prefix of another. */
  lemma FramesArePrefixFree(a: string, b: string)
    requires |a| < Pow10(HEADER) && |b| < Pow10(HEADER) && Frame(a) <= Frame(b)
    ensures a == b
  {
    hide Frame, ReadFrame;
    var rest := Frame(b)[|Frame(a)|..];
    assert Frame(b) == Frame(a) + rest == Frame(b) + "";
    FrameReadsBack(a, rest);
    FrameReadsBack(b, "");
  }

  function Frames(msgs: seq<string>): string
  {
    if msgs == [] then "" else Frame(msgs[0]) + Frames(msgs[1..])
  }

  /** Reading frame after frame until nothing is left. */
  function ReadAll(stream: string): Result<seq<string>>
    decreases |stream|
  {
    if stream == "" then Success([])
    else
      match ReadFrame(stream)
      case Raised => Raised
      case Success((msg, rest)) =>
        match ReadAll(rest)
        case Raised => Raised
        case Success(msgs) => Success([msg] + msgs)
  }

  lemma {:induction false} FramesParseBack(msgs: seq<string>)
    requires forall k :: 0 <= k < |msgs| ==> |msgs[k]| < Pow10(HEADER)
    ensures ReadAll(Frames(msgs)) == Success(msgs)
  {
    if msgs == [] {
    } else {
      assert Frame(msgs[0]) != "";
      hide Frame, ReadFrame, Pow10;
      FramesParseBack(msgs[1..]);
      FrameReadsBack(msgs[0], Frames(msgs[1..]));
      HeadTail(msgs);
    }
  }

  // ----- one request -----

  const TXCODE: string := "<TxCode>"

  function Framed(r: Result<string>): Result<string>
  {
    match r case Raised => Raised case Success(body) => Success(Frame(body))
  }

  /** The reply to the first message of `stream`; slices stop at the end of the message. */
  function Reply(stream: string, datafile: string): Result<string>
  {
    match ReadFrame(stream)
    case Raised => Raised
    case Success((msg, _)) =>
      match Search(msg, TXCODE)
      case None => Raised
      case Some(i) =>
        Framed(SectionOf(Lines(datafile), Recv(msg[i + 8..], 4).0))
  }

  /** The stream begins with the framed request, and the file is the sections' rendering. */
  ghost predicate Serves(ss: seq<Section>, datafile: string, request: string, stream: string)
  {
    && SectionFile(ss) && datafile == Render(ss)
    && |request| < Pow10(HEADER) && Frame(request) <= stream
  }

  /**
   * What a request must get: the framed body of the section that the four bytes behind its
   * first <TxCode> name, and an exception without that mark or without that section.
   */
  ghost predicate RepliesTo(ss: seq<Section>, request: string, sent: Result<string>)
  {
    match Search(request, TXCODE)
    case None => sent == Raised
    case Some(i) => Answers(ss, Recv(request[i + 8..], 4).0, sent)
  }

  ghost predicate Answers(ss: seq<Section>, code: string, sent: Result<string>)
  {
    && (forall k :: 0 <= k < |ss| && ss[k].code == code ==> sent == Success(Frame(ss[k].body)))
    && (MarkerFree(ss, code) && (forall k :: 0 <= k < |ss| ==> ss[k].code != code) ==> sent == Raised)
  }

  lemma FoundSectionAnswers(ss: seq<Section>, code: string)
    requires SectionFile(ss)
    ensures Answers(ss, code, Framed(SectionOf(Lines(Render(ss)), code)))
  {
    hide SectionFile, SectionOf, Lines, Render, Frame, MarkerFree;
    forall k | 0 <= k < |ss| && ss[k].code == code
      ensures SectionOf(Lines(Render(ss)), code) == Success(ss[k].body)
    {
      LookupUndoesRender(ss, k);
    }
    if MarkerFree(ss, code) && forall k :: 0 <= k < |ss| ==> ss[k].code != code {
      UnknownCodeRaises(ss, code);
    }
  }

  lemma ReplyIsRight(ss: seq<Section>, datafile: string, request: string, stream: string)
    requires Serves(ss, datafile, request, stream)
    ensures RepliesTo(ss, request, Reply(stream, datafile))
  {
    assert Search(request, TXCODE).Some? ==> OccursAt(request, TXCODE, Search(request, TXCODE).value);
    hide SectionFile, SectionOf, Lines, Render, Frame, ReadFrame, Pow10, Search, Answers;
    var rest := stream[|Frame(request)|..];
    assert stream == Frame(request) + rest;
    FrameReadsBack(request, rest);
    match Search(request, TXCODE)
    case None =>
    case Some(i) => FoundSectionAnswers(ss, Recv(request[i + 8..], 4).0);
  }

  /** One turn of the server loop. */
  method ServeOne(stream: string, datafile: string) returns (sent: Result<string>)
    ensures sent == Reply(stream, datafile)
    ensures forall ss, request :: Serves(ss, datafile, request, stream) ==> RepliesTo(ss, request, sent)
  {
    hide SectionOf, ReadFrame, Serves, RepliesTo;
    forall ss, request | Serves(ss, datafile, request, stream)
      ensures RepliesTo(ss, request, Reply(stream, datafile))
    {
      ReplyIsRight(ss, datafile, request, stream);
    }
    match ReadFrame(stream) {
      case Raised => return Raised;
      case Success((msg, _)) =>
        match Search(msg, TXCODE) {
          case None => return Raised;
          case Some(index) =>
            var code := Recv(msg[index + 8..], 4).0;
            var data := GetRspData(code, datafile);
            match data {
              case Raised => return Raised;
              case Success(body) => return Success(Frame(body));
            }
        }
    }
  }

  /** The reply to a framed request whose first <TxCode> names a section decodes to its body. */
  lemma ReplyDecodes(ss: seq<Section>, k: nat, request: string, i: nat)
    requires SectionFile(ss) && k < |ss|
    requires Search(request, TXCODE) == Some(i) && i + 12 <= |request|
    requires request[i + 8..i + 12] == ss[k].code
    requires |request| < Pow10(HEADER) && |ss[k].body| < Pow10(HEADER)
    ensures var reply := Reply(Frame(request), Render(ss));
            reply.Success? && ReadFrame(reply.value) == Success((ss[k].body, ""))
  {
    hide SectionFile, SectionOf, Lines, Render, Frame, ReadFrame, Pow10, Search;
    assert Frame(request) + "" == Frame(request);
    FrameReadsBack(request, "");
    assert request[i + 8..][..4] == request[i + 8..i + 12];
    LookupUndoesRender(ss, k);
    assert Frame(ss[k].body) + "" == Frame(ss[k].body);
    FrameReadsBack(ss[k].body, "");
  }

  /** One exchange in full. */
  lemma ExampleExchange()
    ensures Reply("0000000012<TxCode>6001", "6001[\nok\n6001]\n") == Success("0000000003ok\n")
  {
    var ss := [Section("6001", "ok\n")];
    var request := "<TxCode>6001";
    ExampleTexts();
    ExampleFile();
    assert OccursAt(request, TXCODE, 0);
    SearchIs(request, TXCODE, 0);
    assert request[8..12] == "6001";
    hide Reply, Frame, ReadFrame, Render, SectionFile, Search, Lines;
    assert |request| < Pow10(10) by { Pow10Is(); assert Pow10(10) == 100 * Pow10(8); }
    assert Serves(ss, Render(ss), request, Frame(request));
    ReplyIsRight(ss, Render(ss), request, Frame(request));
    assert ss[0].code == Recv(request[8..], 4).0;
  }

  lemma ExampleTexts()
    ensures Frame("<TxCode>6001") == "0000000012<TxCode>6001"
    ensures Frame("ok\n") == "0000000003ok\n"
  {
    assert Dec(12) == "12" && Dec(3) == "3";
    assert Repeat('0', 8) == "00000000" && Repeat('0', 9) == "000000000";
  }

  lemma ExampleFile()
    ensures var ss := [Section("6001", "ok\n")];
            SectionFile(ss) && Render(ss) == "6001[\nok\n6001]\n"
  {
    var ss := [Section("6001", "ok\n")];
    IndexOfIs("ok\n", NEWLINE, 2);
    assert "ok\n"[..3] == "ok\n" && "ok\n"[3..] == "";
    assert Lines("ok\n") == ["ok\n"];
    assert Render([]) == "" && ss[1..] == [];
  }
}
