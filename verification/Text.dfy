// Byte strings shared by every component: C strings, first occurrences, lines, and
// separated fields.

module Text {

  datatype Option<+T> = None | Some(value: T)

  const NUL: char := '\0'
  const NEWLINE: char := '\n'

  /** The offset of the first `c` in `s`, or |s| when there is none. */
  function IndexOf(s: string, c: char): (i: nat)
    ensures i <= |s| && forall k :: 0 <= k < i ==> s[k] != c
    ensures i < |s| ==> s[i] == c
  {
    if c in s then
      FirstExists(s, c);
      var i :| IsFirst(s, c, i);
      i
    else |s|
  }

  predicate IsFirst(s: string, c: char, i: int)
  {
    0 <= i < |s| && s[i] == c && forall k :: 0 <= k < i ==> s[k] != c
  }

  lemma {:induction false} FirstExists(s: string, c: char)
    requires c in s
    ensures exists i :: IsFirst(s, c, i)
  {
    var n := |s| - 1;
    if c in s[..n] {
      FirstExists(s[..n], c);
      var i :| IsFirst(s[..n], c, i);
      assert IsFirst(s, c, i);
    } else {
      assert forall k :: 0 <= k < n ==> s[k] == s[..n][k] != c;
      assert IsFirst(s, c, n);
    }
  }

  lemma IndexOfIs(s: string, c: char, i: nat)
    requires i <= |s| && forall k :: 0 <= k < i ==> s[k] != c
    requires i < |s| ==> s[i] == c
    ensures IndexOf(s, c) == i
  {
  }

  /** The C string held at the start of a buffer: everything before the first terminator. */
  function CStr(s: string): (r: string)
    ensures NUL !in r && r <= s
  {
    s[..IndexOf(s, NUL)]
  }

  /** A terminated buffer holds `t` when `t`, then a terminator, are its first bytes. */
  lemma CStrIs(s: string, t: string)
    requires NUL !in t && |t| < |s| && s[..|t|] == t && s[|t|] == NUL
    ensures CStr(s) == t && IndexOf(s, NUL) == |t|
  {
    IndexOfIs(s, NUL, |t|);
  }

  predicate OccursAt(s: string, p: string, i: int)
  {
    0 <= i <= |s| - |p| && s[i..i + |p|] == p
  }

  /** The least offset, from `i` on, at which `p` occurs in `s`. */
  function SearchFrom(s: string, p: string, i: nat): (r: Option<nat>)
    ensures r.Some? ==> i <= r.value && OccursAt(s, p, r.value)
    ensures r.Some? ==> forall j :: i <= j < r.value ==> !OccursAt(s, p, j)
    ensures r.None? ==> forall j :: i <= j ==> !OccursAt(s, p, j)
    decreases |s| - i
  {
    if |s| < i + |p| then None
    else if OccursAt(s, p, i) then Some(i)
    else if i == |s| then None
    else SearchFrom(s, p, i + 1)
  }

  function Search(s: string, p: string): Option<nat>
  {
    SearchFrom(s, p, 0)
  }

  lemma SearchIs(s: string, p: string, i: nat)
    requires OccursAt(s, p, i)
    requires forall j :: 0 <= j < i ==> !OccursAt(s, p, j)
    ensures Search(s, p) == Some(i)
  {
  }

  lemma NotFound(s: string, p: string)
    requires forall j :: 0 <= j <= |s| - |p| ==> !OccursAt(s, p, j)
    ensures Search(s, p) == None
  {
  }

  /** A first occurrence depends only on the text up to its own end. */
  lemma SearchKept(s: string, t: string, p: string)
    requires Search(s, p).Some?
    requires var e := Search(s, p).value + |p|; e <= |t| && s[..e] == t[..e]
    ensures Search(t, p) == Search(s, p)
  {
    var i := Search(s, p).value;
    var e := i + |p|;
    forall j | 0 <= j <= i
      ensures OccursAt(t, p, j) == OccursAt(s, p, j)
    {
      assert t[j..j + |p|] == t[..e][j..j + |p|] == s[..e][j..j + |p|] == s[j..j + |p|];
    }
    SearchIs(t, p, i);
  }

  // ----- lines -----

  /** The lines of a text, each with its newline; only the last one may lack it. */
  function Lines(s: string): (ls: seq<string>)
  {
    if s == "" then []
    else
      var i := IndexOf(s, NEWLINE);
      if i == |s| then [s] else [s[..i + 1]] + Lines(s[i + 1..])
  }

  function Flatten(ls: seq<string>): string
  {
    if ls == [] then "" else ls[0] + Flatten(ls[1..])
  }

  /** A line as `Lines` delivers it when it is not the last: one newline, at the end. */
  predicate FullLine(l: string)
  {
    l != "" && IndexOf(l, NEWLINE) == |l| - 1
  }

  predicate AllFull(ls: seq<string>)
  {
    forall k :: 0 <= k < |ls| ==> FullLine(ls[k])
  }

  lemma FlattenCons(l: string, ls: seq<string>)
    ensures Flatten([l] + ls) == l + Flatten(ls)
  {
    assert ([l] + ls)[1..] == ls;
  }

  lemma FlattenOne(l: string)
    ensures Flatten([l]) == l
  {
    assert Flatten([l]) == l + Flatten([]);
  }

  lemma {:induction false} FlattenLines(s: string)
    ensures Flatten(Lines(s)) == s
  {
    if s == "" {
    } else {
      var i := IndexOf(s, NEWLINE);
      if i == |s| {
        FlattenOne(s);
      } else {
        FlattenLines(s[i + 1..]);
        FlattenCons(s[..i + 1], Lines(s[i + 1..]));
        Halves(s, i + 1);
      }
    }
  }

  lemma LinesCons(l: string, s: string)
    requires FullLine(l)
    ensures Lines(l + s) == [l] + Lines(s)
  {
    var i := |l| - 1;
    assert (l + s)[..i] == l[..i];
    IndexOfIs(l + s, NEWLINE, i);
    assert (l + s)[..i + 1] == l && (l + s)[i + 1..] == s;
  }

  lemma {:induction false} LinesFlatten(ls: seq<string>, tail: string)
    requires AllFull(ls)
    ensures Lines(Flatten(ls) + tail) == ls + Lines(tail)
  {
    if ls == [] {
      assert Flatten(ls) + tail == tail;
    } else {
      var rest := Flatten(ls[1..]) + tail;
      assert Flatten(ls) + tail == ls[0] + rest;
      LinesFlatten(ls[1..], tail);
      LinesCons(ls[0], rest);
      SplitHead(ls, Lines(tail));
    }
  }

  lemma SplitHead<T>(a: seq<T>, b: seq<T>)
    requires a != []
    ensures a + b == [a[0]] + (a[1..] + b)
  {
  }

  lemma Regroup<T>(a: seq<T>, b: seq<T>, c: seq<T>, d: seq<T>)
    ensures a + b + c + d == a + (b + (c + d))
  {
  }

  lemma Halves<T>(a: seq<T>, i: nat)
    requires i <= |a|
    ensures a == a[..i] + a[i..]
  {
  }

  lemma HeadTail<T>(a: seq<T>)
    requires a != []
    ensures a == [a[0]] + a[1..]
  {
  }

  /** One full line, or a last one without its newline. */
  predicate LineShaped(l: string)
  {
    l != "" && IndexOf(l, NEWLINE) >= |l| - 1
  }

  predicate AllLines(ls: seq<string>)
  {
    forall k :: 0 <= k < |ls| ==> LineShaped(ls[k]) && (k < |ls| - 1 ==> FullLine(ls[k]))
  }

  lemma LineCons(l: string, ls: seq<string>)
    requires FullLine(l) && AllLines(ls)
    ensures AllLines([l] + ls)
  {
  }

  lemma {:induction false} LinesAreLines(s: string)
    ensures AllLines(Lines(s))
  {
    if s == "" || IndexOf(s, NEWLINE) == |s| {
    } else {
      var i := IndexOf(s, NEWLINE);
      LinesAreLines(s[i + 1..]);
      IndexOfIs(s[..i + 1], NEWLINE, i);
      LineCons(s[..i + 1], Lines(s[i + 1..]));
    }
  }

  /** What fgets takes next: a line with its newline, but never more than `limit` bytes. */
  function NextChunk(s: string, limit: nat): (c: string)
    ensures c <= s && |c| <= limit
  {
    var i := IndexOf(s, NEWLINE);
    var l := if i < |s| then i + 1 else i;
    s[..if l <= limit then l else limit]
  }

  /** Reading on through a file whose lines fit: the next chunk is the next line. */
  lemma ChunkIsLine(file: string, pos: nat, lines: seq<string>, n: nat, limit: nat)
    requires pos <= |file| && n <= |lines| && Lines(file[pos..]) == lines[n..]
    requires forall k :: 0 <= k < |lines| ==> |lines[k]| <= limit
    ensures pos < |file| <==> n < |lines|
    ensures pos < |file| ==>
              var c := NextChunk(file[pos..], limit);
              c == lines[n] && c != "" && Lines(file[pos + |c|..]) == lines[n + 1..]
  {
    var s := file[pos..];
    if pos < |file| {
      var i := IndexOf(s, NEWLINE);
      var c := NextChunk(s, limit);
      assert |lines[n..][0]| == |lines[n]| <= limit;
      assert i == |s| ==> s[..i] == s;
      assert file[pos + |c|..] == s[|c|..];
      assert Lines(s) == [c] + Lines(s[|c|..]);
      assert lines[n + 1..] == lines[n..][1..];
    }
  }

  // ----- separated fields -----

  function Split(s: string, sep: char): (fs: seq<string>)
    ensures |fs| >= 1
  {
    var i := IndexOf(s, sep);
    if i == |s| then [s] else [s[..i]] + Split(s[i + 1..], sep)
  }

  function Join(fs: seq<string>, sep: char): string
    requires fs != []
  {
    if |fs| == 1 then fs[0] else fs[0] + [sep] + Join(fs[1..], sep)
  }

  /** How often `c` occurs in `s`. */
  function Count(s: string, c: char): nat
  {
    multiset(s)[c]
  }

  lemma CutAround(s: string, i: nat)
    requires i < |s|
    ensures s == s[..i] + [s[i]] + s[i + 1..]
  {
  }

  lemma CountAround(a: string, c: char, b: string)
    requires c !in a
    ensures Count(a + [c] + b, c) == 1 + Count(b, c)
  {
  }

  predicate SeparatorFree(fs: seq<string>, sep: char)
  {
    forall k :: 0 <= k < |fs| ==> sep !in fs[k]
  }
}
