// The batch import: one agreement row per line of a file, unless its key is taken.

module BatchImport {
  import opened Text
  import opened CString
  import opened Decimal
  import opened Tokenizer

  const BUF_SIZE: nat := 1024
  const SEPARATOR: char := '|'
  const NODE_ID: int := 10

  // ----- rows -----

  /** The columns of `agreement` that the insert sets to something other than ''. */
  datatype Row = Row(
    nodeid: int, userid: string, username: string, payingacct: string, payer: string,
    bankid: string, psbankid: string, agreementid: string,
    operdate: string, enddate: string, state: string)

  datatype Key = Key(nodeid: int, agreementid: string, payingacct: string)

  function KeyOf(r: Row): Key
  {
    Key(r.nodeid, r.agreementid, r.payingacct)
  }

  /** select count(1) from agreement where nodeid, agreementid and payingacct match. */
  function CountKey(table: seq<Row>, key: Key): (n: nat)
    ensures n > 0 <==> HasKey(table, key)
  {
    if table == [] then 0
    else
      assert forall k :: 1 <= k < |table| ==> table[k] == table[1..][k - 1];
      (if KeyOf(table[0]) == key then 1 else 0) + CountKey(table[1..], key)
  }

  predicate HasKey(table: seq<Row>, key: Key)
  {
    exists k :: 0 <= k < |table| && KeyOf(table[k]) == key
  }

  /** The three columns of the where clause decide whether a row counts, and rows count one by one. */
  lemma {:induction false} CountIs(a: seq<Row>, r: Row, nodeid: int, agreementid: string, payingacct: string)
    ensures var key := Key(nodeid, agreementid, payingacct);
            && CountKey([], key) == 0
            && CountKey(a + [r], key)
               == CountKey(a, key)
                  + if r.nodeid == nodeid && r.agreementid == agreementid && r.payingacct == payingacct then 1 else 0
  {
    if a == [] {
      assert [] + [r] == [r] && [r][1..] == [];
    } else {
      CountIs(a[1..], r, nodeid, agreementid, payingacct);
      assert (a + [r])[1..] == a[1..] + [r];
    }
  }

  // ----- lines -----

  datatype Fields = Fields(userid: string, acct: string, agreement: string, name: string, bankno: string)

  /** The five values of a line, in terms of the fields between its separators. */
  function FieldsOf(line: string, trim: string -> string): Fields
  {
    var t := PadTo(Split(line, SEPARATOR), 5);
    Fields(trim(t[0]), trim(t[1]), trim(t[2]), trim(t[3]), trim(t[4]))
  }

  function RowOf(f: Fields): Row
  {
    Row(NODE_ID, f.userid, f.name, f.acct, f.name, f.bankno, f.bankno, f.agreement,
        "20120328", "20991231", "1")
  }

  function LineRow(line: string, trim: string -> string): Row
  {
    RowOf(FieldsOf(line, trim))
  }

  function LineKey(line: string, trim: string -> string): Key
  {
    KeyOf(LineRow(line, trim))
  }

  /** A line as a caller writes it: five values, separated. */
  function RenderLine(userid: string, acct: string, agreement: string, name: string, bankno: string): string
  {
    userid + "|" + acct + "|" + agreement + "|" + name + "|" + bankno
  }

  /** Where the five values of a line end up: name and bank number in two columns each. */
  lemma RenderedLineColumns(
    userid: string, acct: string, agreement: string, name: string, bankno: string, trim: string -> string)
    requires SeparatorFree([userid, acct, agreement, name, bankno], SEPARATOR)
    ensures var r := LineRow(RenderLine(userid, acct, agreement, name, bankno), trim);
            && r.nodeid == 10 && r.userid == trim(userid) && r.payingacct == trim(acct)
            && r.agreementid == trim(agreement) && r.username == r.payer == trim(name)
            && r.bankid == r.psbankid == trim(bankno)
            && r.operdate == "20120328" && r.enddate == "20991231" && r.state == "1"
  {
    var fs := [userid, acct, agreement, name, bankno];
    SplitOfJoin(fs, SEPARATOR);
    JoinFive(fs, SEPARATOR);
  }

  /** The columns that are the same for every line. */
  lemma FixedColumns(line: string, trim: string -> string)
    ensures var r := LineRow(line, trim);
            && r.nodeid == 10 && r.operdate == "20120328" && r.enddate == "20991231" && r.state == "1"
            && r.username == r.payer && r.bankid == r.psbankid
  {
  }

  lemma JoinFive(fs: seq<string>, sep: char)
    requires |fs| == 5
    ensures Join(fs, sep) == fs[0] + [sep] + fs[1] + [sep] + fs[2] + [sep] + fs[3] + [sep] + fs[4]
  {
    var j4 := [fs[4]];
    assert Join(j4, sep) == fs[4];
    JoinCons(fs[3], j4, sep);
    JoinCons(fs[2], [fs[3]] + j4, sep);
    JoinCons(fs[1], [fs[2]] + ([fs[3]] + j4), sep);
    JoinCons(fs[0], [fs[1]] + ([fs[2]] + ([fs[3]] + j4)), sep);
    assert fs == [fs[0]] + ([fs[1]] + ([fs[2]] + ([fs[3]] + j4)));
    hide Join;
    FiveParts(fs, sep);
  }

  lemma FiveParts(fs: seq<string>, sep: char)
    requires |fs| == 5
    ensures fs[0] + [sep] + (fs[1] + [sep] + (fs[2] + [sep] + (fs[3] + [sep] + fs[4])))
         == fs[0] + [sep] + fs[1] + [sep] + fs[2] + [sep] + fs[3] + [sep] + fs[4]
  {
  }

  /** What the fixed arrays of the program can hold. */
  predicate LineFits(line: string)
  {
    var t := PadTo(Split(line, SEPARATOR), 5);
    && NUL !in line && |line| < BUF_SIZE
    && |t[0]| <= 30 && |t[1]| <= 32 && |t[2]| <= 44 && |t[3]| <= 80 && |t[4]| <= 12
  }

  predicate FileFits(file: string)
  {
    NUL !in file && forall k :: 0 <= k < |Lines(file)| ==> LineFits(Lines(file)[k])
  }

  // ----- the database -----

  datatype Statement = Insert(row: Row) | Raw(text: string)

  /**
   * The return codes of the database, 0 for success: of the count query for the n-th
   * line, of inserting a row into a table, and of executing text that is no statement
   * of this program's. They are arbitrary, so any failure may happen at any line.
   */
  datatype Codes = Codes(
    query: nat -> int, insert: (nat, seq<Row>, Row) -> int, raw: (nat, string) -> int)

  class Database {
    var agreement: seq<Row>
    const codes: Codes

    constructor (table: seq<Row>, codes: Codes)
      ensures agreement == table && this.codes == codes
    {
      agreement, this.codes := table, codes;
    }

    /** db_query_str: the count arrives as text. */
    method QueryCount(n: nat, key: Key) returns (ret: int, text: string)
      ensures ret == codes.query(n)
      ensures ret == 0 ==> text == Dec(CountKey(agreement, key))
    {
      ret, text := codes.query(n), "";
      if ret == 0 {
        text := Dec(CountKey(agreement, key));
      }
    }

    method Exec(n: nat, stmt: Statement) returns (ret: int)
      modifies this`agreement
      ensures stmt.Insert? ==> ret == codes.insert(n, old(agreement), stmt.row)
      ensures stmt.Raw? ==> ret == codes.raw(n, stmt.text)
      ensures agreement ==
              if stmt.Insert? && ret == 0 then old(agreement) + [stmt.row] else old(agreement)
    {
      match stmt
      case Insert(row) =>
        ret := codes.insert(n, agreement, row);
        if ret == 0 {
          agreement := agreement + [row];
        }
      case Raw(text) =>
        ret := codes.raw(n, text);
    }
  }

  // ----- the import loop -----

  /** A run's result: the table, the program's return code, and how many lines it finished. */
  datatype Outcome = Outcome(table: seq<Row>, code: int, done: nat)

  /** One line: the table it leaves and a code that is not 0 when the program stops there. */
  function Step(line: string, n: nat, table: seq<Row>, codes: Codes, trim: string -> string): (seq<Row>, int)
  {
    var row := LineRow(line, trim);
    if codes.query(n) != 0 then (table, codes.query(n))
    else if HasKey(table, KeyOf(row)) then (table, codes.raw(n, line))
    else
      var c := codes.insert(n, table, row);
      (if c == 0 then table + [row] else table, c)
  }

  /** The run from line `n` on. */
  function Run(lines: seq<string>, n: nat, table: seq<Row>, codes: Codes, trim: string -> string): (o: Outcome)
    requires n <= |lines|
    ensures n <= o.done <= |lines|
    decreases |lines| - n
  {
    if n == |lines| then Outcome(table, 0, n)
    else
      var (t, c) := Step(lines[n], n, table, codes, trim);
      if c != 0 then Outcome(t, c, n) else Run(lines, n + 1, t, codes, trim)
  }

  /** One strcpy(field, StrTok(...)) into an array of the given width, then all_trim. */
  method ReadField(tok: StrTokState, source: array?<char>, width: nat, trim: string -> string)
    returns (field: string)
    requires tok.Valid()
    requires source != null ==>
      source != tok.srcstr && NUL in source[..] && |CStr(source[..])| < BUF_SIZE
    requires var text := if source == null then tok.Pending() else CStr(source[..]);
             |Token(text, SEPARATOR)| <= width
    modifies tok.srcstr, tok.retstr
    ensures tok.Valid()
    ensures var text := if source == null then old(tok.Pending()) else old(CStr(source[..]));
            field == trim(Token(text, SEPARATOR)) && tok.Pending() == Rest(text, SEPARATOR)
  {
    var ret := tok.StrTok(source, [SEPARATOR]);
    assert ret[..] == ret[0..];
    var a := new char[width + 1];
    StrCpy(a, ret, 0);
    var l := StrLen(a, 0);
    assert a[..] == a[0..];
    field := trim(a[..l]);
  }

  /** Five calls of StrTok; whatever earlier lines left behind in the tokenizer is lost. */
  method ReadLine(tok: StrTokState, buf: array<char>, trim: string -> string) returns (f: Fields)
    requires tok.Valid()
    requires buf != tok.srcstr && buf != tok.retstr
    requires NUL in buf[..] && LineFits(CStr(buf[..]))
    modifies tok.srcstr, tok.retstr
    ensures tok.Valid()
    ensures f == FieldsOf(CStr(buf[..]), trim)
  {
    ghost var line := CStr(buf[..]);
    ghost var t := Tokens(line, SEPARATOR, 5);
    TokensAreFields(line, SEPARATOR, 5);
    TokenAt(line, SEPARATOR, 5, 0);
    RemainingStep(line, SEPARATOR, 0);
    var userid := ReadField(tok, buf, 30, trim);
    TokenAt(line, SEPARATOR, 5, 1);
    RemainingStep(line, SEPARATOR, 1);
    var acct := ReadField(tok, null, 32, trim);
    TokenAt(line, SEPARATOR, 5, 2);
    RemainingStep(line, SEPARATOR, 2);
    var agreement := ReadField(tok, null, 44, trim);
    TokenAt(line, SEPARATOR, 5, 3);
    RemainingStep(line, SEPARATOR, 3);
    var name := ReadField(tok, null, 80, trim);
    TokenAt(line, SEPARATOR, 5, 4);
    RemainingStep(line, SEPARATOR, 4);
    var bankno := ReadField(tok, null, 12, trim);
    f := Fields(userid, acct, agreement, name, bankno);
  }

  /** The loop body, for the n-th line in `buf`. */
  method ImportLine(n: nat, db: Database, tok: StrTokState, buf: array<char>, trim: string -> string)
    returns (ret: int)
    requires tok.Valid()
    requires buf != tok.srcstr && buf != tok.retstr
    requires NUL in buf[..] && LineFits(CStr(buf[..]))
    modifies db`agreement, tok.srcstr, tok.retstr
    ensures tok.Valid()
    ensures (db.agreement, ret) == Step(CStr(buf[..]), n, old(db.agreement), db.codes, trim)
  {
    var f := ReadLine(tok, buf, trim);
    var row := RowOf(f);
    var sTmp;
    ret, sTmp := db.QueryCount(n, KeyOf(row));
    if ret == 0 {
      assert buf[..] == buf[0..];
      var l := StrLen(buf, 0);
      var stmt := Raw(buf[..l]);
      ValueOfDec(CountKey(db.agreement, KeyOf(row)));
      AtoiOfDigits(sTmp);
      if Atoi(sTmp) == 0 {
        stmt := Insert(row);
      }
      ret := db.Exec(n, stmt);
    }
  }

  lemma FittingLines(file: string)
    requires FileFits(file)
    ensures LinesShorter(Lines(file), BUF_SIZE) && LinesShorter(Lines(file), 4096)
  {
  }

  lemma RunStep(lines: seq<string>, n: nat, table: seq<Row>, codes: Codes, trim: string -> string)
    requires n <= |lines|
    ensures n == |lines| ==> Run(lines, n, table, codes, trim) == Outcome(table, 0, n)
    ensures n < |lines| ==>
              var (t, c) := Step(lines[n], n, table, codes, trim);
              Run(lines, n, table, codes, trim)
              == if c != 0 then Outcome(t, c, n) else Run(lines, n + 1, t, codes, trim)
  {
  }

  method ImportFile(file: string, db: Database, tok: StrTokState, trim: string -> string)
    returns (code: int, done: nat)
    requires tok.Valid() && FileFits(file)
    modifies db`agreement, tok.srcstr, tok.retstr
    ensures tok.Valid()
    ensures Outcome(db.agreement, code, done)
         == Run(Lines(file), 0, old(db.agreement), db.codes, trim)
  {
    hide Run, Step, Lines, LineFits;
    ghost var run := Run(Lines(file), 0, db.agreement, db.codes, trim);
    var buf := new char[BUF_SIZE];
    var pos := 0;
    done := 0;
    FittingLines(file);
    assert file[0..] == file;
    while true
      invariant tok.Valid() && buf != tok.srcstr && buf != tok.retstr
      invariant AtLine(file, pos, done)
      invariant Run(Lines(file), done, db.agreement, db.codes, trim) == run
      decreases |file| - pos
    {
      RunStep(Lines(file), done, db.agreement, db.codes, trim);
      var more, next := FGetsLine(buf, 4096, file, pos, done);
      if !more {
        return 0, done;
      }
      code := ImportLine(done, db, tok, buf, trim);
      if code != 0 {
        return;
      }
      pos, done := next, done + 1;
    }
  }

  // ----- whole runs -----

  function RowsOf(lines: seq<string>, trim: string -> string): (rows: seq<Row>)
    ensures |rows| == |lines| && forall k :: 0 <= k < |lines| ==> rows[k] == LineRow(lines[k], trim)
  {
    seq(|lines|, k requires 0 <= k < |lines| => LineRow(lines[k], trim))
  }

  /** The key is in the old table, or one of the first `n` lines has it. */
  predicate KeySeen(lines: seq<string>, n: nat, table: seq<Row>, key: Key, trim: string -> string)
    requires n <= |lines|
  {
    HasKey(table, key) || exists j :: 0 <= j < n && LineKey(lines[j], trim) == key
  }

  /** The key of the k-th line is taken when the line comes. */
  predicate KeyTaken(lines: seq<string>, k: nat, table: seq<Row>, trim: string -> string)
    requires k < |lines|
  {
    KeySeen(lines, k, table, LineKey(lines[k], trim), trim)
  }

  /** The rows of those among the first `m` lines whose key was new when they came, in file order. */
  function FreshRows(lines: seq<string>, m: nat, table: seq<Row>, trim: string -> string): (rows: seq<Row>)
    requires m <= |lines|
  {
    if m == 0 then []
    else
      var before := FreshRows(lines, m - 1, table, trim);
      if KeyTaken(lines, m - 1, table, trim) then before else before + [LineRow(lines[m - 1], trim)]
  }

  /** The table when the m-th line comes. */
  function TableAt(lines: seq<string>, m: nat, table: seq<Row>, trim: string -> string): seq<Row>
    requires m <= |lines|
  {
    table + FreshRows(lines, m, table, trim)
  }

  lemma TableAtStart(lines: seq<string>, table: seq<Row>, trim: string -> string)
    ensures TableAt(lines, 0, table, trim) == table
  {
  }

  lemma TableAtStep(lines: seq<string>, m: nat, table: seq<Row>, trim: string -> string)
    requires m < |lines|
    ensures TableAt(lines, m + 1, table, trim)
         == if KeyTaken(lines, m, table, trim) then TableAt(lines, m, table, trim)
            else TableAt(lines, m, table, trim) + [LineRow(lines[m], trim)]
  {
    hide KeyTaken, LineRow;
    var before := FreshRows(lines, m, table, trim);
    assert table + before + [LineRow(lines[m], trim)] == table + (before + [LineRow(lines[m], trim)]);
  }

  lemma HasKeySnoc(table: seq<Row>, row: Row, key: Key)
    ensures HasKey(table + [row], key) <==> HasKey(table, key) || KeyOf(row) == key
  {
    var t := table + [row];
    assert t[|table|] == row;
    assert forall i :: 0 <= i < |table| ==> t[i] == table[i];
  }

  lemma KeySeenStep(lines: seq<string>, n: nat, table: seq<Row>, key: Key, trim: string -> string)
    requires n < |lines|
    ensures KeySeen(lines, n + 1, table, key, trim)
       <==> KeySeen(lines, n, table, key, trim) || LineKey(lines[n], trim) == key
  {
    hide LineRow, HasKey;
  }

  /** A key is in the table of the n-th line exactly when it has been seen, whether or not it went in. */
  lemma {:induction false} SeenIsPresent(
    lines: seq<string>, n: nat, table: seq<Row>, key: Key, trim: string -> string)
    requires n <= |lines|
    ensures HasKey(TableAt(lines, n, table, trim), key) <==> KeySeen(lines, n, table, key, trim)
  {
    hide LineRow, HasKey, TableAt;
    if n == 0 {
      TableAtStart(lines, table, trim);
    } else {
      var m := n - 1;
      SeenIsPresent(lines, m, table, key, trim);
      KeySeenStep(lines, m, table, key, trim);
      TableAtStep(lines, m, table, trim);
      HasKeySnoc(TableAt(lines, m, table, trim), LineRow(lines[m], trim), key);
      hide KeySeen;
    }
  }

  /** The database refuses a statement at the k-th line, if the program gets there. */
  predicate Refused(lines: seq<string>, k: nat, table: seq<Row>, codes: Codes, trim: string -> string)
    requires k < |lines|
  {
    || codes.query(k) != 0
    || if KeyTaken(lines, k, table, trim) then codes.raw(k, lines[k]) != 0
       else codes.insert(k, TableAt(lines, k, table, trim), LineRow(lines[k], trim)) != 0
  }

  /** The code of the statement that is refused at the k-th line: of the query, or of what is executed. */
  function Refusal(lines: seq<string>, k: nat, table: seq<Row>, codes: Codes, trim: string -> string): int
    requires k < |lines|
  {
    if codes.query(k) != 0 then codes.query(k)
    else if KeyTaken(lines, k, table, trim) then codes.raw(k, lines[k])
    else codes.insert(k, TableAt(lines, k, table, trim), LineRow(lines[k], trim))
  }

  lemma StepIs(lines: seq<string>, k: nat, table: seq<Row>, codes: Codes, trim: string -> string)
    requires k < |lines|
    ensures var (t, c) := Step(lines[k], k, TableAt(lines, k, table, trim), codes, trim);
            && c == Refusal(lines, k, table, codes, trim)
            && (c != 0 <==> Refused(lines, k, table, codes, trim))
            && t == TableAt(lines, if c == 0 then k + 1 else k, table, trim)
  {
    hide LineRow, HasKey, TableAt, KeySeen;
    SeenIsPresent(lines, k, table, LineKey(lines[k], trim), trim);
    TableAtStep(lines, k, table, trim);
  }

  lemma {:induction false} RunFrom(
    lines: seq<string>, n: nat, table: seq<Row>, codes: Codes, trim: string -> string)
    requires n <= |lines|
    ensures var o := Run(lines, n, TableAt(lines, n, table, trim), codes, trim);
            && o.table == TableAt(lines, o.done, table, trim)
            && (forall k :: n <= k < o.done ==> !Refused(lines, k, table, codes, trim))
            && (o.code == 0 <==> o.done == |lines|)
            && (o.done < |lines| ==>
                  Refused(lines, o.done, table, codes, trim) && o.code == Refusal(lines, o.done, table, codes, trim))
    decreases |lines| - n
  {
    hide Step, Refused, Refusal, TableAt;
    if n == |lines| {
    } else {
      StepIs(lines, n, table, codes, trim);
      if !Refused(lines, n, table, codes, trim) {
        RunFrom(lines, n + 1, table, codes, trim);
      }
    }
  }

  /**
   * Every run, whatever the database answers: it finishes exactly the lines before the first
   * one at which a statement is refused, whose code it returns, and the table is then the old
   * one and a row for each finished line whose key was new when it came, in file order.
   */
  lemma RunSafety(lines: seq<string>, table: seq<Row>, codes: Codes, trim: string -> string)
    ensures var o := Run(lines, 0, table, codes, trim);
            && o.table == table + FreshRows(lines, o.done, table, trim)
            && (forall k :: 0 <= k < o.done ==> !Refused(lines, k, table, codes, trim))
            && (o.code == 0 <==> o.done == |lines|)
            && (o.done < |lines| ==>
                  Refused(lines, o.done, table, codes, trim) && o.code == Refusal(lines, o.done, table, codes, trim))
  {
    TableAtStart(lines, table, trim);
    hide Run, Refused, Refusal;
    RunFrom(lines, 0, table, codes, trim);
  }

  ghost predicate UniqueKeys(table: seq<Row>)
  {
    forall i, j :: 0 <= i < j < |table| ==> KeyOf(table[i]) != KeyOf(table[j])
  }

  /** Whatever the database answers, old rows stay in place and keys stay unique. */
  lemma {:induction false} RunKeepsKeysUnique(
    lines: seq<string>, n: nat, table: seq<Row>, codes: Codes, trim: string -> string)
    requires n <= |lines|
    ensures var o := Run(lines, n, table, codes, trim);
            table <= o.table && (UniqueKeys(table) ==> UniqueKeys(o.table))
    decreases |lines| - n
  {
    hide LineRow;
    if n == |lines| {
    } else {
      var (t, c) := Step(lines[n], n, table, codes, trim);
      assert UniqueKeys(table) ==> UniqueKeys(t);
      if c == 0 {
        RunKeepsKeysUnique(lines, n + 1, t, codes, trim);
      }
    }
  }

  lemma {:induction false} FreshWhenNoneTaken(
    lines: seq<string>, m: nat, table: seq<Row>, trim: string -> string)
    requires m <= |lines| && forall k :: 0 <= k < m ==> !KeyTaken(lines, k, table, trim)
    ensures FreshRows(lines, m, table, trim) == RowsOf(lines[..m], trim)
  {
    hide KeyTaken, LineRow;
    if m == 0 {
    } else {
      FreshWhenNoneTaken(lines, m - 1, table, trim);
      assert RowsOf(lines[..m], trim) == RowsOf(lines[..m - 1], trim) + [LineRow(lines[m - 1], trim)];
    }
  }

  lemma {:induction false} NothingFresh(lines: seq<string>, m: nat, table: seq<Row>, trim: string -> string)
    requires m <= |lines| && forall k :: 0 <= k < m ==> KeyTaken(lines, k, table, trim)
    ensures FreshRows(lines, m, table, trim) == []
  {
    hide KeyTaken, LineRow;
    if m == 0 {
    } else {
      NothingFresh(lines, m - 1, table, trim);
    }
  }

  // ----- what the database may answer -----

  /** The database refuses text that is not one of the program's own statements. */
  ghost predicate Rejects(codes: Codes)
  {
    forall n, text :: codes.raw(n, text) != 0
  }

  ghost predicate Queries(codes: Codes)
  {
    forall n :: codes.query(n) == 0
  }

  /** Queries and inserts never fail. */
  ghost predicate Healthy(codes: Codes)
  {
    Queries(codes) && forall n, table, row :: codes.insert(n, table, row) == 0
  }

  predicate HasAgreement(table: seq<Row>, id: string)
  {
    exists k :: 0 <= k < |table| && table[k].agreementid == id
  }

  /** An insert is refused exactly for an agreementid that is there: the unique index agreement_idx1. */
  ghost predicate Indexed(codes: Codes)
  {
    && Queries(codes)
    && forall n, table, row: Row :: codes.insert(n, table, row) == 0 <==> !HasAgreement(table, row.agreementid)
  }

  // ----- where a run stops -----

  lemma RefusedWhenHealthy(lines: seq<string>, k: nat, table: seq<Row>, codes: Codes, trim: string -> string)
    requires Healthy(codes) && k < |lines|
    ensures Refused(lines, k, table, codes, trim)
       <==> KeyTaken(lines, k, table, trim) && codes.raw(k, lines[k]) != 0
  {
    hide KeyTaken, LineRow, TableAt;
  }

  /**
   * Without failing queries and inserts: a finished line whose key was taken had its own text
   * accepted, and a run that stops early does so at a taken key whose text is refused.
   */
  lemma HealthyRun(lines: seq<string>, table: seq<Row>, codes: Codes, trim: string -> string)
    requires Healthy(codes)
    ensures var o := Run(lines, 0, table, codes, trim);
            && (forall k :: 0 <= k < o.done && KeyTaken(lines, k, table, trim) ==> codes.raw(k, lines[k]) == 0)
            && (o.done < |lines| ==> KeyTaken(lines, o.done, table, trim) && codes.raw(o.done, lines[o.done]) != 0)
  {
    var o := Run(lines, 0, table, codes, trim);
    hide Run, KeyTaken, Refused;
    RunSafety(lines, table, codes, trim);
    forall k | 0 <= k <= o.done && k < |lines|
      ensures Refused(lines, k, table, codes, trim)
         <==> KeyTaken(lines, k, table, trim) && codes.raw(k, lines[k]) != 0
    {
      RefusedWhenHealthy(lines, k, table, codes, trim);
    }
    assert forall k :: 0 <= k < o.done && KeyTaken(lines, k, table, trim) ==>
        !Refused(lines, k, table, codes, trim);
  }

  /**
   * After the count finds the key, the program still executes the line's own text. A run
   * stops at the first line whose key is taken exactly when the database refuses that text.
   */
  lemma TakenKeyStopsIffTextRefused(
    lines: seq<string>, m: nat, table: seq<Row>, codes: Codes, trim: string -> string)
    requires Healthy(codes) && m < |lines|
    requires KeyTaken(lines, m, table, trim) && forall k :: 0 <= k < m ==> !KeyTaken(lines, k, table, trim)
    ensures Run(lines, 0, table, codes, trim).done == m <==> codes.raw(m, lines[m]) != 0
  {
    hide Run, KeyTaken;
    HealthyRun(lines, table, codes, trim);
  }

  /** A database that accepts any text: the same line twice leaves one row, and success. */
  lemma AcceptedTextPassesTakenKey(line: string, codes: Codes, trim: string -> string)
    requires Healthy(codes) && forall n, text :: codes.raw(n, text) == 0
    ensures Run([line, line], 0, [], codes, trim) == Outcome([LineRow(line, trim)], 0, 2)
  {
    TwoLines(line, line, trim);
    hide Run, KeyTaken, Refused, LineRow, FreshRows;
    RunSafety([line, line], [], codes, trim);
    HealthyRun([line, line], [], codes, trim);
  }

  lemma TwoLines(a: string, b: string, trim: string -> string)
    ensures !KeyTaken([a, b], 0, [], trim)
    ensures KeyTaken([a, b], 1, [], trim) <==> LineKey(a, trim) == LineKey(b, trim)
    ensures [] + FreshRows([a, b], 2, [], trim)
         == if LineKey(a, trim) == LineKey(b, trim) then [LineRow(a, trim)] else [LineRow(a, trim), LineRow(b, trim)]
    ensures !AgreementTaken([a, b], 0, [], trim)
    ensures AgreementTaken([a, b], 1, [], trim) <==> LineRow(a, trim).agreementid == LineRow(b, trim).agreementid
  {
    hide LineRow;
    var lines := [a, b];
    assert lines[0] == a && lines[1] == b;
    assert FreshRows(lines, 1, [], trim) == [LineRow(a, trim)];
  }

  lemma RefusedWhenTaken(lines: seq<string>, k: nat, table: seq<Row>, codes: Codes, trim: string -> string)
    requires k < |lines| && KeyTaken(lines, k, table, trim)
    ensures Refused(lines, k, table, codes, trim) <==> codes.query(k) != 0 || codes.raw(k, lines[k]) != 0
  {
  }

  /** When such text is refused, every finished line had a new key and is a row of the table. */
  lemma OneRowPerLine(lines: seq<string>, table: seq<Row>, codes: Codes, trim: string -> string)
    requires Rejects(codes)
    ensures var o := Run(lines, 0, table, codes, trim);
            && (forall k :: 0 <= k < o.done ==> !KeyTaken(lines, k, table, trim))
            && o.table == table + RowsOf(lines[..o.done], trim)
  {
    var o := Run(lines, 0, table, codes, trim);
    hide Run, KeyTaken, Refused;
    RunSafety(lines, table, codes, trim);
    forall k | 0 <= k < o.done
      ensures !KeyTaken(lines, k, table, trim)
    {
      if KeyTaken(lines, k, table, trim) {
        RefusedWhenTaken(lines, k, table, codes, trim);
      }
    }
    FreshWhenNoneTaken(lines, o.done, table, trim);
  }

  /** And when nothing else is refused, the run stops exactly at the first line whose key is taken. */
  lemma StopsAtFirstTakenKey(lines: seq<string>, table: seq<Row>, codes: Codes, trim: string -> string)
    requires Rejects(codes) && Healthy(codes)
    ensures var o := Run(lines, 0, table, codes, trim);
            && (forall k :: 0 <= k < o.done ==> !KeyTaken(lines, k, table, trim))
            && (o.done < |lines| ==> KeyTaken(lines, o.done, table, trim))
            && o.table == table + RowsOf(lines[..o.done], trim)
  {
    hide Run, KeyTaken;
    OneRowPerLine(lines, table, codes, trim);
    HealthyRun(lines, table, codes, trim);
  }

  /** The agreementid of the k-th line is in the old table or on an earlier line. */
  predicate AgreementTaken(lines: seq<string>, k: nat, table: seq<Row>, trim: string -> string)
    requires k < |lines|
  {
    var id := LineRow(lines[k], trim).agreementid;
    HasAgreement(table, id) || exists j :: 0 <= j < k && LineRow(lines[j], trim).agreementid == id
  }

  lemma AgreementPresent(lines: seq<string>, k: nat, table: seq<Row>, trim: string -> string)
    requires k < |lines|
    ensures AgreementTaken(lines, k, table, trim)
       <==> HasAgreement(TableAt(lines, k, table, trim), LineRow(lines[k], trim).agreementid)
  {
    var id := LineRow(lines[k], trim).agreementid;
    hide LineRow, KeyTaken;
    if HasAgreement(table, id) {
      var i :| 0 <= i < |table| && table[i].agreementid == id;
      assert TableAt(lines, k, table, trim)[i].agreementid == id;
    } else if AgreementTaken(lines, k, table, trim) {
      var j :| 0 <= j < k && LineRow(lines[j], trim).agreementid == id;
      SeenIsPresent(lines, k, table, LineKey(lines[j], trim), trim);
      assert KeySeen(lines, k, table, LineKey(lines[j], trim), trim);
    }
    if HasAgreement(TableAt(lines, k, table, trim), id) {
      var rows := TableAt(lines, k, table, trim);
      var i :| 0 <= i < |rows| && rows[i].agreementid == id;
      assert rows[i] == TableAt(lines, k, table, trim)[i];
      SeenIsPresent(lines, k, table, KeyOf(rows[i]), trim);
      assert HasKey(rows, KeyOf(rows[i]));
      SeenAgreement(lines, k, table, KeyOf(rows[i]), trim);
    }
  }

  lemma SeenAgreement(lines: seq<string>, k: nat, table: seq<Row>, key: Key, trim: string -> string)
    requires k <= |lines| && KeySeen(lines, k, table, key, trim)
    ensures HasAgreement(table, key.agreementid)
         || exists j :: 0 <= j < k && LineRow(lines[j], trim).agreementid == key.agreementid
  {
    hide LineRow;
    if HasKey(table, key) {
      var i :| 0 <= i < |table| && KeyOf(table[i]) == key;
      assert table[i].agreementid == key.agreementid;
    } else {
      var j :| 0 <= j < k && LineKey(lines[j], trim) == key;
      assert LineRow(lines[j], trim).agreementid == key.agreementid;
    }
  }

  lemma TakenKeyTakesAgreement(lines: seq<string>, k: nat, table: seq<Row>, trim: string -> string)
    requires k < |lines| && KeyTaken(lines, k, table, trim)
    ensures AgreementTaken(lines, k, table, trim)
  {
    hide LineRow;
    SeenAgreement(lines, k, table, LineKey(lines[k], trim), trim);
  }

  /**
   * With the schema's own index on agreementid, whose columns are fewer than those the
   * program counts by: the run stops exactly at the first line whose agreementid is taken,
   * unless its whole key is and the database accepts the line's text.
   */
  lemma IndexedRun(lines: seq<string>, table: seq<Row>, codes: Codes, trim: string -> string)
    requires Indexed(codes)
    ensures var o := Run(lines, 0, table, codes, trim);
            && (forall k :: 0 <= k < o.done && AgreementTaken(lines, k, table, trim) ==>
                  KeyTaken(lines, k, table, trim) && codes.raw(k, lines[k]) == 0)
            && (o.done < |lines| ==>
                  && AgreementTaken(lines, o.done, table, trim)
                  && (KeyTaken(lines, o.done, table, trim) ==> codes.raw(o.done, lines[o.done]) != 0))
  {
    var o := Run(lines, 0, table, codes, trim);
    hide Run, KeyTaken, Refused, AgreementTaken;
    RunSafety(lines, table, codes, trim);
    forall k | 0 <= k <= o.done && k < |lines|
      ensures Refused(lines, k, table, codes, trim) == RefusedByIndex(lines, k, table, codes, trim)
      ensures KeyTaken(lines, k, table, trim) ==> AgreementTaken(lines, k, table, trim)
    {
      RefusedWhenIndexed(lines, k, table, codes, trim);
    }
    assert forall k :: 0 <= k < o.done && AgreementTaken(lines, k, table, trim) ==>
        !Refused(lines, k, table, codes, trim);
  }

  predicate RefusedByIndex(lines: seq<string>, k: nat, table: seq<Row>, codes: Codes, trim: string -> string)
    requires k < |lines|
  {
    if KeyTaken(lines, k, table, trim) then codes.raw(k, lines[k]) != 0 else AgreementTaken(lines, k, table, trim)
  }

  lemma RefusedWhenIndexed(lines: seq<string>, k: nat, table: seq<Row>, codes: Codes, trim: string -> string)
    requires Indexed(codes) && k < |lines|
    ensures Refused(lines, k, table, codes, trim) == RefusedByIndex(lines, k, table, codes, trim)
    ensures KeyTaken(lines, k, table, trim) ==> AgreementTaken(lines, k, table, trim)
  {
    AgreementPresent(lines, k, table, trim);
    if KeyTaken(lines, k, table, trim) {
      TakenKeyTakesAgreement(lines, k, table, trim);
    }
    hide KeyTaken, LineRow, TableAt, AgreementTaken, HasAgreement;
  }

  /** And when such text is refused, exactly at the first line whose agreementid is taken. */
  lemma StopsAtFirstTakenAgreement(lines: seq<string>, table: seq<Row>, codes: Codes, trim: string -> string)
    requires Rejects(codes) && Indexed(codes)
    ensures var o := Run(lines, 0, table, codes, trim);
            && (forall k :: 0 <= k < o.done ==> !AgreementTaken(lines, k, table, trim))
            && (o.done < |lines| ==> AgreementTaken(lines, o.done, table, trim))
            && o.table == table + RowsOf(lines[..o.done], trim)
  {
    var o := Run(lines, 0, table, codes, trim);
    hide Run, KeyTaken, AgreementTaken;
    OneRowPerLine(lines, table, codes, trim);
    IndexedRun(lines, table, codes, trim);
    assert forall k :: 0 <= k < o.done ==> AgreementTaken(lines, k, table, trim) ==> codes.raw(k, lines[k]) == 0;
  }

  /** Two accounts under one agreementid: the count finds no row, the insert fails, and the run stops. */
  lemma SecondAccountStops(one: string, two: string, codes: Codes, trim: string -> string)
    requires Indexed(codes)
    requires LineRow(one, trim).agreementid == LineRow(two, trim).agreementid
    requires LineRow(one, trim).payingacct != LineRow(two, trim).payingacct
    ensures var o := Run([one, two], 0, [], codes, trim);
            o.done == 1 && o.code != 0 && !KeyTaken([one, two], 1, [], trim)
  {
    hide Run, LineRow, KeyTaken, Refused, FreshRows, AgreementTaken;
    TwoLines(one, two, trim);
    RunSafety([one, two], [], codes, trim);
    IndexedRun([one, two], [], codes, trim);
  }

  /** Such as u|1|a|n|b and u|2|a|n|b. */
  lemma TwoAccountsOneAgreement(codes: Codes, trim: string -> string)
    requires Indexed(codes) && trim("1") != trim("2")
    ensures var lines := [RenderLine("u", "1", "a", "n", "b"), RenderLine("u", "2", "a", "n", "b")];
            Run(lines, 0, [], codes, trim).done == 1
  {
    RenderedLineColumns("u", "1", "a", "n", "b", trim);
    RenderedLineColumns("u", "2", "a", "n", "b", trim);
    hide *;
    SecondAccountStops(RenderLine("u", "1", "a", "n", "b"), RenderLine("u", "2", "a", "n", "b"), codes, trim);
  }

  /**
   * Importing a file again, whatever the database answers either time: as long as the second
   * run does not get further than the first, it adds nothing; and it stops at its first line
   * exactly when the query fails or that line's text is refused.
   */
  lemma SecondRunAddsNothing(
    lines: seq<string>, table: seq<Row>, codes: Codes, codes': Codes, trim: string -> string)
    ensures var o := Run(lines, 0, table, codes, trim);
            var again := Run(lines, 0, o.table, codes', trim);
            && (again.done <= o.done ==> again.table == o.table)
            && (o.done > 0 ==> (again.done == 0 <==> codes'.query(0) != 0 || codes'.raw(0, lines[0]) != 0))
  {
    var o := Run(lines, 0, table, codes, trim);
    var again := Run(lines, 0, o.table, codes', trim);
    hide Run, Refused, KeyTaken;
    RunSafety(lines, table, codes, trim);
    RunSafety(lines, o.table, codes', trim);
    forall k | 0 <= k < o.done
      ensures KeyTaken(lines, k, o.table, trim)
    {
      FinishedIsTaken(lines, k, o.done, table, trim);
    }
    if again.done <= o.done {
      NothingFresh(lines, again.done, o.table, trim);
    }
    if o.done > 0 {
      RefusedWhenTaken(lines, 0, o.table, codes', trim);
    }
  }

  lemma FinishedIsTaken(lines: seq<string>, k: nat, m: nat, table: seq<Row>, trim: string -> string)
    requires k < m <= |lines|
    ensures KeyTaken(lines, k, TableAt(lines, m, table, trim), trim)
  {
    hide LineRow, HasKey;
    SeenIsPresent(lines, m, table, LineKey(lines[k], trim), trim);
  }
}
