// The batch client: loads a request template and sends it again and again, overwriting
// a note number and an amount in place.

module Patcher {
  import opened Text
  import opened Decimal

  const CACHE_SIZE: nat := 10240

  // ----- memstr -----

  /** The least offset of `src` in the first `count` bytes, or -1 for NULL. */
  method MemStr(dst: array<char>, src: string, count: nat) returns (r: int)
    requires |src| <= count <= dst.Length
    ensures r == match Search(dst[..count], src) case Some(i) => i case None => -1
  {
    hide Search;
    var len := |src|;
    var i := 0;
    while i <= count - len
      invariant i <= count - len + 1
      invariant forall j :: 0 <= j < i ==> !OccursAt(dst[..count], src, j)
    {
      assert dst[i..i + len] == dst[..count][i..i + len];
      if dst[i..i + len] == src {
        SearchIs(dst[..count], src, i);
        return i;
      }
      i := i + 1;
    }
    NotFound(dst[..count], src);
    return -1;
  }

  // ----- load_file -----

  /** An open file: the k-th read delivers at most `chunk(k)` bytes, and 0 is a failed read. */
  class Stream {
    const data: string
    const chunk: nat -> nat
    var pos: nat
    var calls: nat

    constructor (data: string, chunk: nat -> nat)
      ensures this.data == data && this.chunk == chunk && pos == 0 && calls == 0
    {
      this.data, this.chunk, pos, calls := data, chunk, 0, 0;
    }

    /** fread(buffer + off, 1, want, this): as many bytes as asked for, as are left, as come. */
    method Read(buffer: array<char>, off: nat, want: nat) returns (l: nat)
      requires pos <= |data| && off + (|data| - pos) <= buffer.Length
      modifies this, buffer
      ensures l == Min(Min(chunk(old(calls)), want), |data| - old(pos))
      ensures calls == old(calls) + 1 && pos == old(pos) + l <= |data|
      ensures forall k :: off <= k < off + l ==> buffer[k] == data[old(pos) + (k - off)]
      ensures forall k :: 0 <= k < buffer.Length && !(off <= k < off + l) ==> buffer[k] == old(buffer[k])
    {
      l := Min(Min(chunk(calls), want), |data| - pos);
      forall k | 0 <= k < l {
        buffer[off + k] := data[pos + k];
      }
      pos, calls := pos + l, calls + 1;
    }
  }

  function Min(a: nat, b: nat): nat
  {
    if a <= b then a else b
  }

  /** The bytes the first `n` reads ask for and get, in a file that does not end before. */
  function Delivered(chunk: nat -> nat, n: nat): nat
  {
    if n == 0 then 0 else Delivered(chunk, n - 1) + Min(chunk(n - 1), CACHE_SIZE)
  }

  /** Some number of reads delivers the whole file, and none of them fails. */
  ghost predicate Completes(chunk: nat -> nat, size: nat)
  {
    exists n: nat :: CompletesIn(chunk, size, n)
  }

  ghost predicate CompletesIn(chunk: nat -> nat, size: nat, n: nat)
  {
    Delivered(chunk, n) >= size && forall k :: 0 <= k < n && Delivered(chunk, k) < size ==> chunk(k) > 0
  }

  /**
   * load_file; a null stream is a file that cannot be opened. The buffer is allocated for
   * the length of the file, and every write is inside it.
   */
  method LoadFile(ipt: Stream?) returns (ok: bool, buffer: array<char>, length: nat)
    requires ipt != null ==> ipt.pos == 0 && ipt.calls == 0
    modifies ipt
    ensures fresh(buffer)
    ensures ok <==> ipt != null && Completes(ipt.chunk, |ipt.data|)
    ensures ok ==> length == |ipt.data| && buffer.Length == length && buffer[..] == ipt.data
  {
    if ipt == null {
      buffer := new char[0];
      return false, buffer, 0;
    }
    hide Delivered;
    length := |ipt.data|;
    buffer := new char[length];
    var len := 0;
    DeliveredStep(ipt.chunk, 0);
    while len < length
      invariant len == ipt.pos == Min(Delivered(ipt.chunk, ipt.calls), length)
      invariant forall k :: 0 <= k < len ==> buffer[k] == ipt.data[k]
      invariant forall k :: 0 <= k < ipt.calls ==> ipt.chunk(k) > 0
      decreases length - len
    {
      DeliveredStep(ipt.chunk, ipt.calls);
      var l := ipt.Read(buffer, len, CACHE_SIZE);
      if l <= 0 {
        break;
      }
      len := len + l;
    }
    if len < length {
      FailedRead(ipt.chunk, length, ipt.calls - 1);
      return false, buffer, length;
    }
    assert CompletesIn(ipt.chunk, length, ipt.calls);
    ok := true;
  }

  lemma DeliveredStep(chunk: nat -> nat, n: nat)
    ensures Delivered(chunk, 0) == 0
    ensures Delivered(chunk, n + 1) == Delivered(chunk, n) + Min(chunk(n), CACHE_SIZE)
  {
  }

  /** However much a read could deliver, it is asked for 10240 bytes. */
  lemma {:induction false} FullReads(chunk: nat -> nat, n: nat)
    requires forall k :: chunk(k) >= 10240
    ensures Delivered(chunk, n) == 10240 * n
  {
    if n == 0 {
    } else {
      FullReads(chunk, n - 1);
    }
  }

  lemma {:induction false} DeliveredGrows(chunk: nat -> nat, m: nat, n: nat)
    requires m <= n
    ensures Delivered(chunk, m) <= Delivered(chunk, n)
  {
    if m == n {
    } else {
      DeliveredGrows(chunk, m, n - 1);
    }
  }

  lemma FailedRead(chunk: nat -> nat, size: nat, n: nat)
    requires Delivered(chunk, n) < size && chunk(n) == 0
    ensures !Completes(chunk, size)
  {
    forall m: nat
      ensures !CompletesIn(chunk, size, m)
    {
      hide Delivered;
      if m <= n {
        DeliveredGrows(chunk, m, n);
      } else {
        assert Delivered(chunk, n) < size && chunk(n) == 0;
      }
    }
  }

  /** When every read delivers something, every file loads. */
  lemma {:induction false} PositiveReadsComplete(chunk: nat -> nat, size: nat)
    requires forall k :: chunk(k) > 0
    ensures Completes(chunk, size)
  {
    EachReadDelivers(chunk, size);
    assert CompletesIn(chunk, size, size);
  }

  lemma {:induction false} EachReadDelivers(chunk: nat -> nat, n: nat)
    requires forall k :: chunk(k) > 0
    ensures Delivered(chunk, n) >= n
  {
    if n == 0 {
    } else {
      EachReadDelivers(chunk, n - 1);
    }
  }

  // ----- the batch of requests -----

  const NOTE_PATTERN: string := "00000002"
  const AMOUNT_PATTERN: string := "10002.00"
  const INT_MAX: nat := 0x7fff_ffff

  /** `t` with the bytes of `w` written over it from `p` on. */
  function Overwrite(t: string, p: nat, w: string): (r: string)
    requires p + |w| <= |t|
    ensures |r| == |t|
    ensures forall k :: 0 <= k < |t| ==> r[k] == if p <= k < p + |w| then w[k - p] else t[k]
  {
    t[..p] + w + t[p + |w|..]
  }

  /** memcpy(dst + p, w, |w|). */
  method MemCpy(dst: array<char>, p: nat, w: string)
    requires p + |w| <= dst.Length
    modifies dst
    ensures dst[..] == Overwrite(old(dst[..]), p, w)
  {
    forall k | 0 <= k < |w| {
      dst[p + k] := w[k];
    }
  }

  /** What sprintf leaves in the first 8 bytes for "%08d" of 2 + i. */
  function NoteText(i: nat): (w: string)
    ensures |w| == 8
  {
    ZeroFill(Dec(2 + i), 8)[..8]
  }

  /** What sprintf leaves in the first 5 bytes for "%5d" of 10002 + i. */
  function AmountText(i: nat): (w: string)
    ensures |w| == 5
  {
    BlankFill(Dec(10002 + i), 5)[..5]
  }

  /** The i-th request, for a note number at `pn` and an amount at `ps`. */
  function Request(template: string, pn: nat, ps: nat, i: nat): (r: string)
    requires pn + 8 <= |template| && ps + 5 <= |template|
    ensures |r| == |template|
  {
    Overwrite(Overwrite(template, pn, NoteText(i)), ps, AmountText(i))
  }

  datatype Exit = LoadFailed | NoNote | NoAmount | Finished

  /** The exit and the requests sent, in order, for a template that was loaded. */
  function Batch(template: string, total: nat): (Exit, seq<string>)
  {
    match Search(template, NOTE_PATTERN)
    case None => (NoNote, [])
    case Some(pn) =>
      match Search(template, AMOUNT_PATTERN)
      case None => (NoAmount, [])
      case Some(ps) =>
        assert OccursAt(template, NOTE_PATTERN, pn) && OccursAt(template, AMOUNT_PATTERN, ps);
        (Finished, Requests(template, pn, ps, total))
  }

  function Requests(template: string, pn: nat, ps: nat, total: nat): (rs: seq<string>)
    requires pn + 8 <= |template| && ps + 5 <= |template|
    ensures |rs| == total && forall k :: 0 <= k < total ==> rs[k] == Request(template, pn, ps, k + 1)
  {
    seq(total, k requires 0 <= k => Request(template, pn, ps, k + 1))
  }

  /** Without one of the patterns nothing is sent; the note number is looked for first. */
  lemma NothingSent(template: string, total: nat)
    requires Search(template, "00000002").None? || Search(template, "10002.00").None?
    ensures Batch(template, total) == (if Search(template, "00000002").None? then NoNote else NoAmount, [])
  {
  }

  /** main for "bat.req". The outcome of sending a request does not matter to the next one. */
  method SendBatch(ipt: Stream?, total: nat) returns (exit: Exit, sent: seq<string>)
    requires ipt != null ==> ipt.pos == 0 && ipt.calls == 0 && |ipt.data| >= 8
    requires total + 10002 <= INT_MAX
    modifies ipt
    ensures (exit, sent) ==
            if ipt != null && Completes(ipt.chunk, |ipt.data|) then Batch(ipt.data, total)
            else (LoadFailed, [])
  {
    var ok, sendbuf, sendlen := LoadFile(ipt);
    if !ok {
      return LoadFailed, [];
    }
    assert sendbuf[..sendlen] == sendbuf[..];
    var pn := MemStr(sendbuf, NOTE_PATTERN, sendlen);
    if pn == -1 {
      return NoNote, [];
    }
    var ps := MemStr(sendbuf, AMOUNT_PATTERN, sendlen);
    if ps == -1 {
      return NoAmount, [];
    }
    sent := PatchLoop(sendbuf, pn, ps, total);
    exit := Finished;
  }

  method PatchLoop(sendbuf: array<char>, pn: nat, ps: nat, total: nat) returns (sent: seq<string>)
    requires pn + 8 <= sendbuf.Length && ps + 5 <= sendbuf.Length && total + 10002 <= INT_MAX
    modifies sendbuf
    ensures sent == Requests(old(sendbuf[..]), pn, ps, total)
  {
    hide NoteText, AmountText, Overwrite;
    ghost var template := sendbuf[..];
    sent := [];
    for i := 1 to total + 1
      invariant sendbuf[..] == if i == 1 then template else Request(template, pn, ps, i - 1)
      invariant sent == Requests(template, pn, ps, i - 1)
    {
      ghost var before := sendbuf[..];
      MemCpy(sendbuf, pn, NoteText(i));
      MemCpy(sendbuf, ps, AmountText(i));
      if i > 1 {
        Repatch(template, pn, ps, i - 1, i);
      }
      RequestsStep(template, pn, ps, i - 1);
      sent := sent + [sendbuf[..]];
    }
  }

  lemma RequestsStep(template: string, pn: nat, ps: nat, k: nat)
    requires pn + 8 <= |template| && ps + 5 <= |template|
    ensures Requests(template, pn, ps, k + 1) == Requests(template, pn, ps, k) + [Request(template, pn, ps, k + 1)]
  {
    hide Request;
  }

  /** Patching over the previous request is patching the template. */
  lemma Repatch(template: string, pn: nat, ps: nat, i: nat, j: nat)
    requires pn + 8 <= |template| && ps + 5 <= |template|
    ensures Request(Request(template, pn, ps, i), pn, ps, j) == Request(template, pn, ps, j)
  {
    hide NoteText, AmountText;
  }

  // ----- what the requests contain -----

  /** `pn` and `ps` are where the program finds its two patterns. */
  ghost predicate Found(template: string, pn: nat, ps: nat)
  {
    Search(template, NOTE_PATTERN) == Some(pn) && Search(template, AMOUNT_PATTERN) == Some(ps)
  }

  /** The patterns keep the windows apart; the nearest they come leaves the amount's '.' between. */
  lemma WindowsDisjoint(template: string, pn: nat, ps: nat)
    requires Found(template, pn, ps)
    ensures pn + 8 <= |template| && ps + 8 <= |template|
    ensures pn + 8 <= ps || ps + 6 <= pn
  {
    hide Search;
    PatternBytes(template, pn, ps);
  }

  lemma PatternBytes(template: string, pn: nat, ps: nat)
    requires Found(template, pn, ps)
    ensures pn + 8 <= |template| && ps + 8 <= |template|
    ensures forall j :: pn <= j < pn + 7 ==> template[j] == '0'
    ensures template[pn + 7] == '2'
    ensures template[ps] == '1' && template[ps + 4] == '2'
    ensures template[ps + 5] == '.' && template[ps + 6] == template[ps + 7] == '0'
  {
    assert OccursAt(template, NOTE_PATTERN, pn) && OccursAt(template, AMOUNT_PATTERN, ps);
    hide Search, OccursAt;
    var a, b := template[pn..pn + 8], template[ps..ps + 8];
    assert a == NOTE_PATTERN && b == AMOUNT_PATTERN;
    assert a[7] == '2' && b[0] == '1' && b[4] == '2' && b[5] == '.' && b[6] == '0' && b[7] == '0';
    forall j | pn <= j < pn + 7
      ensures template[j] == '0'
    {
      assert template[j] == a[j - pn];
    }
  }

  /**
   * The i-th request differs from the template in its two windows only. They read as the
   * numbers meant exactly while those numbers have no more than 8 and 5 digits.
   */
  lemma RequestContents(template: string, pn: nat, ps: nat, i: nat)
    requires Found(template, pn, ps)
    requires pn + 8 <= |template| && ps + 8 <= |template|
    ensures var r := Request(template, pn, ps, i);
            && |r| == |template|
            && (forall k :: 0 <= k < |r| && !(pn <= k < pn + 8) && !(ps <= k < ps + 5) ==> r[k] == template[k])
            && AllDigits(r[pn..pn + 8]) && AllDigits(r[ps..ps + 5])
            && (Value(r[pn..pn + 8]) == 2 + i <==> i <= 99_999_997)
            && (Value(r[ps..ps + 5]) == 10002 + i <==> i <= 89_997)
  {
    var r := Request(template, pn, ps, i);
    Windows(template, pn, ps, i);
    NoteDecodes(i);
    AmountDecodes(i);
  }

  lemma Windows(template: string, pn: nat, ps: nat, i: nat)
    requires Found(template, pn, ps)
    requires pn + 8 <= |template| && ps + 8 <= |template|
    ensures var r := Request(template, pn, ps, i);
            r[pn..pn + 8] == NoteText(i) && r[ps..ps + 5] == AmountText(i)
  {
    hide NoteText, AmountText;
    WindowsDisjoint(template, pn, ps);
  }

  lemma NoteDecodes(i: nat)
    ensures AllDigits(NoteText(i))
    ensures Value(NoteText(i)) == 2 + i <==> i <= 99_999_997
  {
    var d := Dec(2 + i);
    var w := ZeroFill(d, 8);
    ValueOfZeroFill(2 + i, 8);
    DecWidth(2 + i, 8);
    Pow10Is();
    if |d| <= 8 {
      assert w[..8] == w;
    } else {
      ValueOfPrefix(d, |d| - 8);
      LeadingShrinks(2 + i, |d| - 8);
    }
  }

  lemma AmountDecodes(i: nat)
    ensures AllDigits(AmountText(i))
    ensures Value(AmountText(i)) == 10002 + i <==> i <= 89_997
  {
    var d := Dec(10002 + i);
    ValueOfDec(10002 + i);
    DecWidth(10002 + i, 5);
    DecWidth(10002 + i, 4);
    Pow10Is();
    if |d| == 5 {
      assert d[..5] == d;
    } else {
      ValueOfPrefix(d, |d| - 5);
      LeadingShrinks(10002 + i, |d| - 5);
    }
  }

  /** The first numbers that do not fit: both windows of the next two requests hold the same. */
  lemma FirstRepetition()
    ensures NoteText(99_999_998) == NoteText(99_999_999) == Dec(10_000_000)
    ensures AmountText(99_999_998) == AmountText(99_999_999) == Dec(10_001)
    ensures AmountText(9_999_998) == Dec(10_010)
    ensures AmountText(89_998) == Dec(10_000)
  {
    Pow10Is();
    assert Pow10(1) == 10 && Pow10(3) == 1000 && Pow10(9) == 10 * Pow10(8);
    hide Dec, Pow10, Leading;
    LeadingDigits(100_000_000, 9, 1);
    LeadingDigits(100_000_001, 9, 1);
    LeadingDigits(100_010_000, 9, 4);
    LeadingDigits(100_010_001, 9, 4);
    LeadingDigits(10_010_000, 8, 3);
    LeadingDigits(100_000, 6, 1);
  }

  lemma LeadingDigits(n: nat, w: nat, k: nat)
    requires k < w && w >= 2 && Pow10(w - 1) <= n < Pow10(w)
    ensures |Dec(n)| == w && Dec(n)[..w - k] == Dec(Leading(n, k)) && Leading(n, k) == n / Pow10(k)
  {
    LeadingIsQuotient(n, k);
    DecWidth(n, w);
    DecWidth(n, w - 1);
    DecPrefix(n, k);
  }

  /** No two requests are equal up to the first whose note number has outgrown its window. */
  lemma RequestsDiffer(template: string, pn: nat, ps: nat, i: nat, j: nat)
    requires Found(template, pn, ps)
    requires pn + 8 <= |template| && ps + 8 <= |template|
    requires i < j <= 99_999_998
    ensures Request(template, pn, ps, i) != Request(template, pn, ps, j)
  {
    hide Request, NoteText, AmountText, Dec, Value;
    Windows(template, pn, ps, i);
    Windows(template, pn, ps, j);
    NoteDecodes(i);
    NoteDecodes(j);
    if j == 99_999_998 {
      FirstRepetition();
      ValueOfDec(10_000_000);
      ValueOfDec(10_001);
      ValueOfDec(10_010);
    }
  }

  /**
   * The whole batch: its requests are distinct exactly when there are at most 99999998 of
   * them, and every one carries its own note number 2 + i and amount 10002 + i exactly when
   * there are at most 89997.
   */
  lemma BatchIsSound(template: string, pn: nat, ps: nat, total: nat)
    requires Found(template, pn, ps)
    ensures Batch(template, total).0 == Finished && |Batch(template, total).1| == total
    ensures var sent := Batch(template, total).1;
            && ((forall i, j :: 0 <= i < j < total ==> sent[i] != sent[j]) <==> total <= 99_999_998)
            && ((forall i :: 0 <= i < total ==> Carries(sent[i], pn, ps, 3 + i, 10003 + i))
                <==> total <= 89_997)
  {
    hide Request;
    WindowsDisjoint(template, pn, ps);
    var sent := Batch(template, total).1;
    DistinctRequests(template, pn, ps, total);
    forall i | 0 <= i < total
      ensures Carries(sent[i], pn, ps, 3 + i, 10003 + i) <==> i < 89_997
    {
      RequestContents(template, pn, ps, i + 1);
      AmountKeepsCents(template, pn, ps, i + 1);
    }
    assert total > 89_997 ==> !Carries(sent[89_997], pn, ps, 3 + 89_997, 10003 + 89_997);
  }

  lemma DistinctRequests(template: string, pn: nat, ps: nat, total: nat)
    requires Found(template, pn, ps)
    requires pn + 8 <= |template| && ps + 8 <= |template|
    ensures var sent := Requests(template, pn, ps, total);
            (forall i, j :: 0 <= i < j < total ==> sent[i] != sent[j]) <==> total <= 99_999_998
  {
    var sent := Requests(template, pn, ps, total);
    if total <= 99_999_998 {
      hide Request;
      forall i, j | 0 <= i < j < total
        ensures sent[i] != sent[j]
      {
        RequestsDiffer(template, pn, ps, i + 1, j + 1);
      }
    } else {
      FirstRepetition();
      hide NoteText, AmountText;
      assert sent[99_999_997] == sent[99_999_998];
    }
  }

  /** The request reads `note` in its note window and "<amount>.00" at the amount. */
  ghost predicate Carries(r: string, pn: nat, ps: nat, note: nat, amount: nat)
  {
    && pn + 8 <= |r| && ps + 8 <= |r|
    && AllDigits(r[pn..pn + 8]) && Value(r[pn..pn + 8]) == note
    && AllDigits(r[ps..ps + 5]) && Value(r[ps..ps + 5]) == amount
    && r[ps + 5..ps + 8] == ".00"
  }

  /**
   * The bytes ".00" behind the amount are not part of a window, but the two zeros may also
   * be the note number's first ones. They survive exactly while those stay zeros.
   */
  lemma AmountKeepsCents(template: string, pn: nat, ps: nat, i: nat)
    requires Found(template, pn, ps)
    requires pn + 8 <= |template| && ps + 8 <= |template|
    ensures Request(template, pn, ps, i)[ps + 5..ps + 8] == ".00"
       <==> (pn == ps + 6 ==> i <= 999_997) && (pn == ps + 7 ==> i <= 9_999_997)
  {
    hide Search, NoteText, AmountText;
    WindowsDisjoint(template, pn, ps);
    PatternBytes(template, pn, ps);
    LeadingZeros(i);
    CentsBytes(template, pn, ps, i);
  }

  lemma CentsBytes(template: string, pn: nat, ps: nat, i: nat)
    requires pn + 8 <= |template| && ps + 8 <= |template|
    requires pn + 8 <= ps || ps + 6 <= pn
    requires template[ps + 5] == '.' && template[ps + 6] == template[ps + 7] == '0'
    ensures var n := NoteText(i);
            Request(template, pn, ps, i)[ps + 5..ps + 8]
            == if pn == ps + 6 then ['.', n[0], n[1]] else if pn == ps + 7 then ['.', '0', n[0]] else ".00"
  {
    hide NoteText, AmountText;
    var r := Request(template, pn, ps, i);
    assert r[ps + 5..ps + 8] == [r[ps + 5], r[ps + 6], r[ps + 7]];
  }

  lemma LeadingZeros(i: nat)
    ensures NoteText(i)[0] == '0' <==> i <= 9_999_997
    ensures NoteText(i)[0] == NoteText(i)[1] == '0' <==> i <= 999_997
  {
    var d := Dec(2 + i);
    Pow10Is();
    DecWidth(2 + i, 6);
    DecWidth(2 + i, 7);
    NoLeadingZero(2 + i);
    assert |d| < 8 ==> NoteText(i) == Repeat('0', 8 - |d|) + d;
  }

  /** The 89998th request asks for 10000.00 instead of 100000.00. */
  lemma FirstWrongAmount(template: string, pn: nat, ps: nat)
    requires Found(template, pn, ps) && pn + 8 <= |template| && ps + 8 <= |template|
    ensures var r := Request(template, pn, ps, 89_998);
            AllDigits(r[ps..ps + 5]) && Value(r[ps..ps + 5]) == 10_000
  {
    Windows(template, pn, ps, 89_998);
    FirstRepetition();
    ValueOfDec(10_000);
  }

  const SHARED_TWO: string := "10002.00000002"
  const SHARED_ONE: string := "10002.000000002"

  lemma SharedTemplates()
    ensures Found(SHARED_TWO, 6, 0) && Found(SHARED_ONE, 7, 0)
  {
    hide Search;
    var a, b := SHARED_TWO, SHARED_ONE;
    assert a[0..8] == AMOUNT_PATTERN && b[0..8] == AMOUNT_PATTERN;
    assert a[6..14] == NOTE_PATTERN && b[7..15] == NOTE_PATTERN;
    SearchIs(a, AMOUNT_PATTERN, 0);
    SearchIs(b, AMOUNT_PATTERN, 0);
    forall j | 0 <= j < 6
      ensures !OccursAt(a, NOTE_PATTERN, j) && !OccursAt(b, NOTE_PATTERN, j)
    {
      PointInside(a, j);
      PointInside(b, j);
    }
    assert b[6..14][7] != NOTE_PATTERN[7];
    SearchIs(a, NOTE_PATTERN, 6);
    SearchIs(b, NOTE_PATTERN, 7);
  }

  lemma PointInside(t: string, j: nat)
    requires j < 6 && |t| >= 14 && t[5] == '.'
    ensures !OccursAt(t, NOTE_PATTERN, j)
  {
    assert t[j..j + 8][5 - j] == '.' != NOTE_PATTERN[5 - j];
  }

  /** Templates in which the note number shares two zeros, or one, with the amount's cents. */
  lemma CentsOverwritten()
    ensures Found(SHARED_TWO, 6, 0) && Found(SHARED_ONE, 7, 0)
    ensures |SHARED_TWO| == 14 && |SHARED_ONE| == 15
    ensures Request(SHARED_TWO, 6, 0, 999_998)[5..8] != ".00"
    ensures Request(SHARED_ONE, 7, 0, 9_999_998)[5..8] != ".00"
  {
    SharedTemplates();
    hide Request, Search, OccursAt;
    AmountKeepsCents(SHARED_TWO, 6, 0, 999_998);
    AmountKeepsCents(SHARED_ONE, 7, 0, 9_999_998);
  }
}
