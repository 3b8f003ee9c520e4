// The description rewriter: regenerates the desc= attribute of every Item line of a
// file from a dictionary keyed by six-letter names.

module DescRewriter {
  import opened Text
  import opened CString

  const DICT_SIZE: nat := 3000
  const WORD_SIZE: nat := 64
  const TEMP_SIZE: nat := 256
  const DESC: string := "desc="
  const NAME: string := "name="
  const VALUE: string := "value="

  // ----- the dictionary -----

  datatype Entry = Entry(key: string, desc: string)

  /** The words of the dictionary file, two by two; a last odd word has no description. */
  function DictOf(words: seq<string>): (dict: seq<Entry>)
    ensures |dict| == (|words| + 1) / 2
    ensures forall k :: 0 <= k < |dict| ==> dict[k] == EntryAt(words, k)
  {
    seq((|words| + 1) / 2, k requires 0 <= 2 * k < |words| => EntryAt(words, k))
  }

  function EntryAt(words: seq<string>, k: nat): Entry
    requires 2 * k < |words|
  {
    Entry(words[2 * k], if 2 * k + 1 < |words| then words[2 * k + 1] else "")
  }

  /** The six bytes memcmp looks at; a shorter key is followed by the zeros of its array. */
  function KeyBytes(key: string): (six: string)
    ensures |six| == 6
  {
    (key + [NUL, NUL, NUL, NUL, NUL, NUL])[..6]
  }

  lemma KeyBytesAre(key: string, six: string)
    requires |six| == 6 && |key| >= 6
    ensures KeyBytes(key) == six <==> key[..6] == six
  {
  }

  function Lookup(dict: seq<Entry>, six: string): string
  {
    if dict == [] then ""
    else if KeyBytes(dict[0].key) == six then dict[0].desc
    else Lookup(dict[1..], six)
  }

  /** The description found is the first matching entry's; there is none only if no key matches. */
  lemma {:induction false} LookupIsFirst(dict: seq<Entry>, six: string, i: nat)
    requires i <= |dict| && forall k :: 0 <= k < i ==> KeyBytes(dict[k].key) != six
    requires i < |dict| ==> KeyBytes(dict[i].key) == six
    ensures Lookup(dict, six) == if i < |dict| then dict[i].desc else ""
  {
    hide KeyBytes;
    if i == 0 {
    } else {
      assert forall k :: 0 <= k < i - 1 ==> dict[1..][k] == dict[k + 1];
      LookupIsFirst(dict[1..], six, i - 1);
    }
  }

  // ----- one line -----

  predicate IsItem(line: string)
  {
    |line| >= 2 && line[1] == 'I'
  }

  predicate Blank(c: char)
  {
    c == '\"' || c == '/'
  }

  /**
   * What the program relies on in an Item line: a first desc=, a first name= with its
   * first letter before that, and the six bytes it looks up before that, too.
   */
  predicate WellFormedItem(line: string)
  {
    match (Search(line, DESC), Search(line, NAME))
    case (Some(d), Some(n)) =>
      && 2 <= d && n + 6 < d <= |line|
      && if Blank(line[n + 6]) then
           match Search(line[..d], VALUE)
           case Some(v) => v + 13 <= d
           case None => false
         else n + 12 <= d
    case _ => false
  }

  /** The part of an Item line that is kept. */
  function Kept(line: string): string
    requires WellFormedItem(line)
  {
    line[..Search(line, DESC).value]
  }

  /** The six bytes that are looked up: of the name, or of the value when the name is blank. */
  function LookedUp(line: string): string
    requires WellFormedItem(line)
  {
    var n := Search(line, NAME).value;
    if Blank(line[n + 6]) then
      var v := Search(Kept(line), VALUE).value;
      line[v + 7..v + 13]
    else line[n + 6..n + 12]
  }

  function Attribute(desc: string): string
  {
    DESC + "\"" + desc + "\"/>\n"
  }

  function Rewrite(line: string, dict: seq<Entry>): string
    requires IsItem(line) ==> WellFormedItem(line)
  {
    if IsItem(line) then Kept(line) + Attribute(Lookup(dict, LookedUp(line))) else line
  }

  /** Descriptions come from words, so they hold no line end and no terminator. */
  predicate CleanDict(dict: seq<Entry>)
  {
    forall k :: 0 <= k < |dict| ==> NEWLINE !in dict[k].desc && NUL !in dict[k].desc
  }

  lemma {:induction false} LookupIsClean(dict: seq<Entry>, six: string)
    requires CleanDict(dict)
    ensures NEWLINE !in Lookup(dict, six) && NUL !in Lookup(dict, six)
  {
    if dict == [] {
    } else {
      assert forall k :: 0 <= k < |dict| - 1 ==> dict[1..][k] == dict[k + 1];
      LookupIsClean(dict[1..], six);
    }
  }

  /** Two lines that agree up to their first desc= are alike to the program. */
  lemma SameKeptPart(line: string, other: string)
    requires WellFormedItem(line)
    requires var d := Search(line, DESC).value;
             Search(other, DESC) == Some(d) && d <= |other| && other[..d] == line[..d]
    ensures WellFormedItem(other)
    ensures Kept(other) == Kept(line) && LookedUp(other) == LookedUp(line)
    ensures IsItem(other) == IsItem(line)
  {
    hide SearchFrom;
    var d, n := Search(line, DESC).value, Search(line, NAME).value;
    assert line[..n + 5] == line[..d][..n + 5] == other[..n + 5];
    SearchKept(line, other, NAME);
    hide Search, OccursAt;
    assert line[n + 6] == line[..d][n + 6] == other[n + 6];
    assert line[1] == line[..d][1] == other[1];
    if Blank(line[n + 6]) {
      var v := Search(line[..d], VALUE).value;
      assert line[v + 7..v + 13] == line[..d][v + 7..v + 13] == other[v + 7..v + 13];
    } else {
      assert line[n + 6..n + 12] == line[..d][n + 6..n + 12] == other[n + 6..n + 12];
    }
  }

  /** The old description has no influence. */
  lemma OldDescriptionIsIrrelevant(line: string, other: string, dict: seq<Entry>)
    requires IsItem(line) && WellFormedItem(line)
    requires var d := Search(line, DESC).value;
             Search(other, DESC) == Some(d) && d <= |other| && other[..d] == line[..d]
    ensures WellFormedItem(other) && Rewrite(other, dict) == Rewrite(line, dict)
  {
    SameKeptPart(line, other);
  }

  lemma Middle(a: string, b: string, c: string)
    ensures (a + b + c)[|a|..|a| + |b|] == b
  {
  }

  /** An Item with a name is described by the first entry for the name's six letters. */
  lemma DescribedByName(pre: string, six: string, mid: string, oldDesc: string, dict: seq<Entry>)
    requires |six| == 6 && !Blank(six[0])
    requires var line := pre + NAME + "\"" + six + mid + DESC + oldDesc;
             && IsItem(line) && Search(line, NAME) == Some(|pre|)
             && Search(line, DESC) == Some(|pre| + 12 + |mid|)
    ensures var line := pre + NAME + "\"" + six + mid + DESC + oldDesc;
            && WellFormedItem(line)
            && Rewrite(line, dict) == pre + NAME + "\"" + six + mid + Attribute(Lookup(dict, six))
  {
    hide Search, Attribute, Lookup;
    var front := pre + NAME + "\"" + six + mid;
    var line := front + DESC + oldDesc;
    assert line == pre + NAME + "\"" + six + mid + DESC + oldDesc;
    assert line[..|front|] == front;
    var n := |pre|;
    assert line == (pre + NAME + "\"") + six + (mid + DESC + oldDesc);
    Middle(pre + NAME + "\"", six, mid + DESC + oldDesc);
    assert line[n + 6] == line[n + 6..n + 12][0];
  }

  /** An Item whose name is empty or a path is described by six letters of its value. */
  lemma DescribedByValue(pre: string, six: string, rest: string, oldDesc: string, dict: seq<Entry>)
    requires |six| == 6
    requires var front := pre + VALUE + "\"" + six + rest;
             var line := front + DESC + oldDesc;
             && IsItem(line) && Search(line, DESC) == Some(|front|)
             && Search(front, VALUE) == Some(|pre|)
             && Search(line, NAME).Some? && Search(line, NAME).value + 6 < |front|
             && Blank(line[Search(line, NAME).value + 6])
    ensures var front := pre + VALUE + "\"" + six + rest;
            var line := front + DESC + oldDesc;
            && WellFormedItem(line)
            && Rewrite(line, dict) == front + Attribute(Lookup(dict, six))
  {
    hide Search, Attribute, Lookup;
    var front := pre + VALUE + "\"" + six + rest;
    var line := front + DESC + oldDesc;
    assert line[..|front|] == front;
    assert line == (pre + VALUE + "\"") + six + (rest + DESC + oldDesc);
    Middle(pre + VALUE + "\"", six, rest + DESC + oldDesc);
  }

  /** The printed line, in full: the description of the first entry for the name, or none. */
  lemma NamedItem(pre: string, six: string, mid: string, oldDesc: string, dict: seq<Entry>, i: nat)
    requires |six| == 6 && six[0] != '\"' && six[0] != '/'
    requires var line := pre + "name=" + "\"" + six + mid + "desc=" + oldDesc;
             && |line| >= 2 && line[1] == 'I'
             && Search(line, "name=") == Some(|pre|) && Search(line, "desc=") == Some(|pre| + 12 + |mid|)
    requires i <= |dict| && forall k :: 0 <= k < i ==> KeyBytes(dict[k].key) != six
    requires i < |dict| ==> KeyBytes(dict[i].key) == six
    ensures var line := pre + "name=" + "\"" + six + mid + "desc=" + oldDesc;
            && WellFormedItem(line)
            && Rewrite(line, dict) == pre + "name=" + "\"" + six + mid
                                      + ("desc=" + "\"" + (if i < |dict| then dict[i].desc else "") + "\"/>\n")
  {
    DescribedByName(pre, six, mid, oldDesc, dict);
    LookupIsFirst(dict, six, i);
    hide Search, Rewrite, Lookup, KeyBytes, WellFormedItem;
  }

  lemma ValuedItem(pre: string, six: string, rest: string, oldDesc: string, dict: seq<Entry>, i: nat)
    requires |six| == 6
    requires var front := pre + "value=" + "\"" + six + rest;
             var line := front + "desc=" + oldDesc;
             && |line| >= 2 && line[1] == 'I' && Search(line, "desc=") == Some(|front|)
             && Search(front, "value=") == Some(|pre|)
             && Search(line, "name=").Some? && Search(line, "name=").value + 6 < |front|
             && (line[Search(line, "name=").value + 6] == '\"' || line[Search(line, "name=").value + 6] == '/')
    requires i <= |dict| && forall k :: 0 <= k < i ==> KeyBytes(dict[k].key) != six
    requires i < |dict| ==> KeyBytes(dict[i].key) == six
    ensures var front := pre + "value=" + "\"" + six + rest;
            var line := front + "desc=" + oldDesc;
            && WellFormedItem(line)
            && Rewrite(line, dict)
               == front + ("desc=" + "\"" + (if i < |dict| then dict[i].desc else "") + "\"/>\n")
  {
    DescribedByValue(pre, six, rest, oldDesc, dict);
    LookupIsFirst(dict, six, i);
    hide Search, Rewrite, Lookup, KeyBytes, WellFormedItem;
  }

  lemma OtherLinesStay(line: string, dict: seq<Entry>)
    requires |line| < 2 || line[1] != 'I'
    ensures Rewrite(line, dict) == line
  {
  }

  /** A rewritten Item line keeps everything before desc=, which is still the first one. */
  lemma RewriteKeeps(line: string, dict: seq<Entry>)
    requires IsItem(line) && WellFormedItem(line)
    ensures var r := Rewrite(line, dict);
            && Search(r, DESC) == Search(line, DESC)
            && Kept(line) <= r
  {
    var d := Search(line, DESC).value;
    var r := Rewrite(line, dict);
    assert OccursAt(line, DESC, d);
    assert r[..d] == line[..d];
    assert r[..d + 5] == line[..d] + DESC == line[..d + 5];
    SearchKept(line, r, DESC);
  }

  /** Rewriting a rewritten line changes nothing. */
  lemma RewriteTwice(line: string, dict: seq<Entry>)
    requires IsItem(line) ==> WellFormedItem(line)
    ensures var r := Rewrite(line, dict);
            (IsItem(r) ==> WellFormedItem(r)) && Rewrite(r, dict) == r
  {
    if IsItem(line) {
      RewriteKeeps(line, dict);
      OldDescriptionIsIrrelevant(line, Rewrite(line, dict), dict);
    }
  }

  // ----- a whole file -----

  predicate Rewritable(lines: seq<string>)
  {
    forall k :: 0 <= k < |lines| ==>
      && |lines[k]| < TEMP_SIZE && NUL !in lines[k]
      && (IsItem(lines[k]) ==> WellFormedItem(lines[k]))
  }

  function RewriteLines(lines: seq<string>, dict: seq<Entry>): (r: seq<string>)
    requires Rewritable(lines)
    ensures |r| == |lines| && forall k :: 0 <= k < |r| ==> r[k] == Rewrite(lines[k], dict)
  {
    seq(|lines|, k requires 0 <= k < |lines| => Rewrite(lines[k], dict))
  }

  function RewriteFile(file: string, dict: seq<Entry>): string
    requires Rewritable(Lines(file))
  {
    Flatten(RewriteLines(Lines(file), dict))
  }

  /** A rewritten line is still one line: full if it was, or if it is an Item. */
  lemma RewriteIsLine(line: string, dict: seq<Entry>)
    requires (IsItem(line) ==> WellFormedItem(line)) && LineShaped(line) && CleanDict(dict) && NUL !in line
    ensures var r := Rewrite(line, dict);
            LineShaped(r) && NUL !in r && (FullLine(line) ==> FullLine(r))
  {
    if IsItem(line) {
      var d := Search(line, DESC).value;
      assert OccursAt(line, DESC, d);
      hide Search, LookedUp;
      var desc := Lookup(dict, LookedUp(line));
      LookupIsClean(dict, LookedUp(line));
      var r := line[..d] + Attribute(desc);
      forall k | 0 <= k < |r|
        ensures r[k] != NUL && (r[k] == NEWLINE ==> k == |r| - 1)
      {
        if k < d {
          assert r[k] == line[k];
        } else {
          assert r[k] == Attribute(desc)[k - d];
        }
      }
      assert Attribute(desc)[|Attribute(desc)| - 1] == NEWLINE;
      IndexOfIs(r, NEWLINE, |r| - 1);
    }
  }

  lemma LinesOfOutput(file: string, dict: seq<Entry>)
    requires Rewritable(Lines(file)) && CleanDict(dict)
    ensures Lines(RewriteFile(file, dict)) == RewriteLines(Lines(file), dict)
  {
    var lines := Lines(file);
    var r := RewriteLines(lines, dict);
    LinesAreLines(file);
    hide Rewrite, Lines;
    forall k | 0 <= k < |r|
      ensures LineShaped(r[k]) && (k < |r| - 1 ==> FullLine(r[k]))
    {
      RewriteIsLine(lines[k], dict);
    }
    LinesOfFlat(r);
  }

  lemma LinesOfFlat(r: seq<string>)
    requires AllLines(r)
    ensures Lines(Flatten(r)) == r
  {
    if r != [] {
      hide Lines, Flatten;
      var n := |r| - 1;
      FlattenSnoc(r[..n], r[n]);
      assert r == r[..n] + [r[n]];
      LinesFlatten(r[..n], r[n]);
      OneLine(r[n]);
    }
  }

  lemma OneLine(l: string)
    requires LineShaped(l)
    ensures Lines(l) == [l]
  {
    if IndexOf(l, NEWLINE) == |l| - 1 {
      assert l[..|l|] == l && l[|l|..] == "";
    }
  }

  lemma {:induction false} FlattenSnoc(ls: seq<string>, l: string)
    ensures Flatten(ls + [l]) == Flatten(ls) + l
  {
    if ls == [] {
      FlattenOne(l);
    } else {
      FlattenSnoc(ls[1..], l);
      assert (ls + [l])[1..] == ls[1..] + [l];
      assert ls[0] + (Flatten(ls[1..]) + l) == ls[0] + Flatten(ls[1..]) + l;
    }
  }

  /** The rewrite is idempotent over whole files, as long as its output fits the buffer, too. */
  lemma FileRewriteIsIdempotent(file: string, dict: seq<Entry>)
    requires Rewritable(Lines(file)) && CleanDict(dict)
    requires forall k :: 0 <= k < |Lines(file)| ==> |Rewrite(Lines(file)[k], dict)| < TEMP_SIZE
    ensures Rewritable(Lines(RewriteFile(file, dict)))
    ensures RewriteFile(RewriteFile(file, dict), dict) == RewriteFile(file, dict)
  {
    var lines := Lines(file);
    var r := RewriteLines(lines, dict);
    LinesOfOutput(file, dict);
    LinesAreLines(file);
    hide Rewrite, Lines, WellFormedItem, LineShaped, FullLine;
    forall k | 0 <= k < |r|
      ensures NUL !in r[k] && (IsItem(r[k]) ==> WellFormedItem(r[k])) && Rewrite(r[k], dict) == r[k]
    {
      RewriteIsLine(lines[k], dict);
      RewriteTwice(lines[k], dict);
    }
    FixedLines(r, dict);
  }

  lemma FixedLines(r: seq<string>, dict: seq<Entry>)
    requires Rewritable(r) && forall k :: 0 <= k < |r| ==> Rewrite(r[k], dict) == r[k]
    ensures RewriteLines(r, dict) == r
  {
    hide Rewrite;
  }

  // ----- the program -----

  class DescTool {
    const dict: array2<string>
    var count: nat

    ghost predicate Valid()
      reads this
    {
      dict.Length0 == DICT_SIZE && dict.Length1 == 2 && count <= DICT_SIZE
    }

    ghost function Entries(): seq<Entry>
      requires Valid()
      reads this, dict
    {
      seq(count, k requires 0 <= k < count reads this, dict
                   requires Valid() => Entry(dict[k, 0], dict[k, 1]))
    }

    constructor ()
      ensures Valid() && fresh(dict) && count == 0
      ensures forall i, j :: 0 <= i < DICT_SIZE && 0 <= j < 2 ==> dict[i, j] == ""
    {
      dict := new string[DICT_SIZE, 2]((_, _) => "");
      count := 0;
    }

    /** The fscanf loop over the words of the dictionary file. */
    method Load(words: seq<string>)
      requires Valid()
      requires forall i, j :: 0 <= i < DICT_SIZE && 0 <= j < 2 ==> dict[i, j] == ""
      requires |words| <= 2 * DICT_SIZE && forall k :: 0 <= k < |words| ==> |words[k]| < WORD_SIZE
      modifies this`count, dict
      ensures Valid() && Entries() == DictOf(words)
    {
      count := 0;
      while 2 * count < |words|
        invariant Valid() && 2 * count <= |words| + 1
        invariant forall i, j :: count <= i < DICT_SIZE && 0 <= j < 2 ==> dict[i, j] == ""
        invariant forall k :: 0 <= k < count ==> Entry(dict[k, 0], dict[k, 1]) == EntryAt(words, k)
        decreases |words| - 2 * count
      {
        dict[count, 0] := words[2 * count];
        if 2 * count + 1 < |words| {
          dict[count, 1] := words[2 * count + 1];
        }
        count := count + 1;
      }
    }

    /** get_desc(temp + off). */
    method GetDesc(temp: array<char>, off: nat) returns (desc: string)
      requires Valid() && off + 6 <= temp.Length
      ensures desc == Lookup(Entries(), temp[off..off + 6])
    {
      ghost var six := temp[off..off + 6];
      for i := 0 to count
        invariant forall k :: 0 <= k < i ==> KeyBytes(Entries()[k].key) != six
      {
        if temp[off..off + 6] == KeyBytes(dict[i, 0]) {
          LookupIsFirst(Entries(), six, i);
          return dict[i, 1];
        }
      }
      LookupIsFirst(Entries(), six, count);
      return "";
    }

    /** The loop body for an Item line in `temp`; what it prints. */
    method RewriteItem(temp: array<char>) returns (text: string)
      requires Valid() && temp.Length == TEMP_SIZE && NUL in temp[..]
      requires IsItem(CStr(temp[..])) && WellFormedItem(CStr(temp[..]))
      modifies temp
      ensures text == Rewrite(old(CStr(temp[..])), Entries())
    {
      ghost var line := CStr(temp[..]);
      ItemOffsets(line);
      hide Search, WellFormedItem, Kept, LookedUp, Attribute;
      var name := StrStr(temp, NAME);
      name := name + 6;
      var desc := StrStr(temp, DESC);
      CutAt(temp, desc);
      text := PrintItem(temp, name, line);
    }

    /** The rest of the body, with `temp` cut at desc= and `name` behind name=". */
    method PrintItem(temp: array<char>, name: nat, ghost line: string) returns (text: string)
      requires Valid() && temp.Length == TEMP_SIZE && NUL in temp[..]
      requires IsItem(line) && WellFormedItem(line) && CStr(temp[..]) == Kept(line)
      requires name == Search(line, NAME).value + 6
      ensures text == Rewrite(line, Entries())
    {
      var p := Described(temp, name, line);
      hide Search, WellFormedItem, Kept, LookedUp, Attribute, Lookup, KeyBytes, CStr;
      var found := GetDesc(temp, p);
      assert temp[..] == temp[0..];
      var l := StrLen(temp, 0);
      text := temp[..l] + Attribute(found);
    }

    /** Where the six bytes are that are looked up: behind name=", or behind value=" of what is left. */
    method Described(temp: array<char>, name: nat, ghost line: string) returns (p: nat)
      requires NUL in temp[..] && WellFormedItem(line) && CStr(temp[..]) == Kept(line)
      requires name == Search(line, NAME).value + 6
      ensures p + 6 <= temp.Length && temp[p..p + 6] == LookedUp(line)
    {
      ItemOffsets(line);
      hide Search, WellFormedItem, Kept, LookedUp, CStr;
      ghost var kept := Kept(line);
      StartOfLine(temp[..], kept, line);
      p := name;
      if temp[name] == '\"' || temp[name] == '/' {
        p := StrStr(temp, VALUE);
        p := p + 7;
      }
      assert temp[p..p + 6] == temp[..][p..p + 6];
      SliceOfLine(temp[..], line, |kept|, p);
    }

    /** *(temp + i) = 0 */
    method CutAt(temp: array<char>, i: nat)
      requires NUL in temp[..] && i < |CStr(temp[..])|
      modifies temp
      ensures NUL in temp[..] && CStr(temp[..]) == old(CStr(temp[..]))[..i]
    {
      ghost var line := CStr(temp[..]);
      temp[i] := NUL;
      assert temp[..][..i] == line[..i];
      CStrIs(temp[..], line[..i]);
      assert temp[i] == NUL;
    }

    /** The main loop; `oput` is the output file. */
    method RewriteAll(iput: string) returns (oput: string)
      requires Valid() && NUL !in iput && Rewritable(Lines(iput))
      ensures oput == RewriteFile(iput, Entries())
    {
      hide Lines, WellFormedItem, Kept, LookedUp, Attribute;
      var temp := new char[TEMP_SIZE];
      oput := "";
      var pos := 0;
      ghost var n := 0;
      assert iput[0..] == iput;
      while true
        invariant AtLine(iput, pos, n)
        invariant oput == Flatten(RewriteLines(Lines(iput), Entries())[..n])
        decreases |iput| - pos
      {
        var more, next := FGetsLine(temp, TEMP_SIZE, iput, pos, n);
        if !more {
          assert RewriteLines(Lines(iput), Entries())[..n] == RewriteLines(Lines(iput), Entries());
          break;
        }
        ghost var line := Lines(iput)[n];
        var l := StrLen(temp, 0);
        var text := temp[..l];
        if l >= 2 && temp[1] == 'I' {
          text := RewriteItem(temp);
        }
        OneMoreLine(RewriteLines(Lines(iput), Entries()), n);
        oput := oput + text;
        pos, n := next, n + 1;
      }
    }
  }

  lemma StartOfLine(buf: string, kept: string, line: string)
    requires CStr(buf) == kept && kept <= line
    ensures |kept| <= |buf| && forall k :: 0 <= k < |kept| ==> buf[k] == line[k]
  {
  }

  lemma SliceOfLine(buf: string, line: string, n: nat, p: nat)
    requires n <= |buf| && n <= |line| && (forall k :: 0 <= k < n ==> buf[k] == line[k]) && p + 6 <= n
    ensures buf[p..p + 6] == line[p..p + 6]
  {
  }

  lemma OneMoreLine(ls: seq<string>, n: nat)
    requires n < |ls|
    ensures Flatten(ls[..n + 1]) == Flatten(ls[..n]) + ls[n]
  {
    FlattenSnoc(ls[..n], ls[n]);
    assert ls[..n + 1] == ls[..n] + [ls[n]];
  }

  /** The offsets of a well-formed Item line are where the program's pointers go. */
  lemma ItemOffsets(line: string)
    requires WellFormedItem(line)
    ensures Search(line, DESC).Some? && Search(line, NAME).Some?
    ensures var d, n := Search(line, DESC).value, Search(line, NAME).value;
            && n + 6 < d < |line|
            && (Blank(line[n + 6]) ==>
                  Search(line[..d], VALUE).Some? && Search(line[..d], VALUE).value + 13 <= d)
            && (!Blank(line[n + 6]) ==> n + 12 <= d)
            && Kept(line) == line[..d]
            && LookedUp(line) ==
               (if Blank(line[n + 6]) then
                  var v := Search(line[..d], VALUE).value;
                  line[v + 7..v + 13]
                else line[n + 6..n + 12])
  {
    hide SearchFrom;
    assert OccursAt(line, DESC, Search(line, DESC).value);
  }
}
