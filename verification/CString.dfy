// The C library's string routines on character buffers, as the programs use them.

module CString {
  import opened Text

  /** strlen(a + from). */
  method StrLen(a: array<char>, from: nat) returns (l: nat)
    requires from <= a.Length && NUL in a[from..]
    ensures from + l < a.Length && l == |CStr(a[from..])|
  {
    ghost var text := CStr(a[from..]);
    assert a[from..][|text|] == a[from + |text|] == NUL;
    assert forall k :: 0 <= k < |text| ==> a[from + k] == text[k] != NUL;
    l := 0;
    while a[from + l] != NUL
      invariant l <= |text|
      decreases |text| - l
    {
      l := l + 1;
    }
  }

  /**
   * strcpy(dst, src + from), copying upwards byte by byte. The two may be the same
   * buffer: a left shift then reads every byte before it is overwritten.
   */
  method StrCpy(dst: array<char>, src: array<char>, from: nat)
    requires from <= src.Length && NUL in src[from..]
    requires |CStr(src[from..])| < dst.Length
    modifies dst
    ensures CStr(dst[..]) == old(CStr(src[from..]))
    ensures var l := old(|CStr(src[from..])|);
            dst[l] == NUL && forall k :: l < k < dst.Length ==> dst[k] == old(dst[k])
  {
    ghost var text := CStr(src[from..]);
    assert src[from..][|text|] == NUL;
    assert forall k :: 0 <= k < |text| ==> text[k] != NUL;
    var i := 0;
    while src[from + i] != NUL
      invariant i <= |text|
      invariant forall k :: 0 <= k < i ==> dst[k] == text[k]
      invariant forall k :: i <= k < dst.Length ==> dst[k] == old(dst[k])
      invariant forall k :: i <= k < src.Length - from ==> src[from + k] == old(src[from..])[k]
      decreases |text| - i
    {
      assert i < |text|;
      dst[i] := src[from + i];
      i := i + 1;
    }
    dst[i] := NUL;
    assert dst[..][..|text|] == text;
    CStrIs(dst[..], text);
  }

  /** fgets(buf, size, file) with `pos` bytes of the file already read. */
  method FGets(buf: array<char>, size: nat, file: string, pos: nat) returns (more: bool, next: nat)
    requires size > 0 && pos <= |file| && NUL !in file[pos..]
    requires pos < |file| ==> |NextChunk(file[pos..], size - 1)| < buf.Length
    modifies buf
    ensures more <==> pos < |file|
    ensures !more ==> next == pos && buf[..] == old(buf[..])
    ensures more ==>
      var c := NextChunk(file[pos..], size - 1);
      next == pos + |c| && NUL in buf[..] && CStr(buf[..]) == c
  {
    more, next := pos < |file|, pos;
    if more {
      ghost var rest := file[pos..];
      ghost var c := NextChunk(rest, size - 1);
      ghost var i := IndexOf(rest, NEWLINE);
      while next < |file| && next - pos < size - 1
        invariant 0 <= next - pos <= |c| && next - pos <= i
        invariant buf[..next - pos] == c[..next - pos]
        decreases |file| - next
      {
        assert file[next] == rest[next - pos];
        assert next - pos < i ==> rest[next - pos] == rest[..i][next - pos];
        buf[next - pos] := file[next];
        next := next + 1;
        if file[next - 1] == NEWLINE {
          break;
        }
      }
      assert next - pos == |c|;
      buf[next - pos] := NUL;
      assert buf[..][..|c|] == c;
      CStrIs(buf[..], c);
      assert buf[|c|] == NUL;
    }
  }

  /** fgets on a file whose lines fit the request: the n-th call delivers the n-th line. */
  method FGetsLine(buf: array<char>, size: nat, file: string, pos: nat, ghost n: nat)
    returns (more: bool, next: nat)
    requires size > 0 && NUL !in file && LinesShorter(Lines(file), size) && LinesShorter(Lines(file), buf.Length)
    requires AtLine(file, pos, n)
    modifies buf
    ensures more <==> n < |Lines(file)|
    ensures !more ==> next == pos
    ensures more ==>
      && NUL in buf[..] && CStr(buf[..]) == Lines(file)[n]
      && pos < next && AtLine(file, next, n + 1)
  {
    hide Lines, NextChunk;
    ChunkIsLine(file, pos, Lines(file), n, size - 1);
    more, next := FGets(buf, size, file, pos);
  }

  ghost predicate LinesShorter(lines: seq<string>, size: nat)
  {
    forall k :: 0 <= k < |lines| ==> |lines[k]| < size
  }

  /** Byte `pos` is where the n-th line of the file starts. */
  ghost predicate AtLine(file: string, pos: nat, n: nat)
  {
    pos <= |file| && n <= |Lines(file)| && Lines(file[pos..]) == Lines(file)[n..]
  }

  /** strstr(a, p): the offset of the first occurrence in the C string, or -1 for NULL. */
  method StrStr(a: array<char>, p: string) returns (r: int)
    requires NUL in a[..]
    ensures r == match Search(CStr(a[..]), p) case Some(i) => i case None => -1
  {
    hide Search;
    assert a[..] == a[0..];
    var l := StrLen(a, 0);
    ghost var text := CStr(a[..]);
    r := 0;
    while r <= l - |p|
      invariant 0 <= r && (r == 0 || r <= l - |p| + 1)
      invariant forall j :: 0 <= j < r ==> !OccursAt(text, p, j)
    {
      assert a[r..r + |p|] == text[r..r + |p|];
      if a[r..r + |p|] == p {
        SearchIs(text, p, r);
        return;
      }
      r := r + 1;
    }
    NotFound(text, p);
    r := -1;
  }
}
