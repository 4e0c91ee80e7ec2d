/**
 The table builder of the load generator's plots (faasmspeed/graphs/tabulator.py): a log
 of comma-separated lines, each a header followed by label and value pairs, becomes a
 table with one row a record. A line is given by its cells; a record starts at a line
 headed "opts".
 */
module Tabulator {
  import opened Wrappers

  type Line = s: seq<string> | |s| >= 1 witness [""]

  /** A value and the name it was logged under; only the value is written out. */
  datatype Cell = Cell(name: string, value: string)

  /** The white space that Python strips. */
  predicate IsSpace(c: char) {
    || '\t' <= c <= '\r' || '\U{1C}' <= c <= ' ' || c == '\U{85}' || c == '\U{A0}' || c == '\U{1680}'
    || '\U{2000}' <= c <= '\U{200A}' || c == '\U{2028}' || c == '\U{2029}' || c == '\U{202F}'
    || c == '\U{205F}' || c == '\U{3000}'
  }

  function Strip(s: string): string {
    if s == "" then ""
    else if IsSpace(s[0]) then Strip(s[1..])
    else if IsSpace(Last(s)) then Strip(Init(s))
    else s
  }

  const OPTS := "opts"

  function Name(line: Line, i: nat): string
    requires i < |line|
  {
    Strip(line[0]) + "_" + line[i]
  }

  /** The names of the labels at odd positions below n; a last label without a value is
      among them. */
  function Labels(line: Line, n: nat): seq<string>
    requires n <= |line|
  {
    if n < 2 then []
    else if n % 2 == 0 then Labels(line, n - 1) + [Name(line, n - 1)] else Labels(line, n - 1)
  }

  /** The pairs among the first n cells. */
  function PairsBelow(line: Line, n: nat): seq<Cell>
    requires n <= |line|
  {
    if n < 3 then []
    else if n % 2 == 1 then PairsBelow(line, n - 2) + [Cell(Name(line, n - 2), line[n - 1])]
    else PairsBelow(line, n - 1)
  }

  function Pairs(line: Line): seq<Cell> {
    PairsBelow(line, |line|)
  }

  function Names(cells: seq<Cell>): (n: seq<string>)
    ensures |n| == |cells| && forall i :: 0 <= i < |n| ==> n[i] == cells[i].name
  {
    seq(|cells|, i requires 0 <= i < |cells| => cells[i].name)
  }

  // ---- Names and values by position

  /** The stripped text is what lies between the outer white space. */
  lemma {:induction false} StripIsInner(s: string) returns (i: nat, j: nat)
    ensures i <= j <= |s| && Strip(s) == s[i..j]
    ensures (forall k :: 0 <= k < i ==> IsSpace(s[k])) && (forall k :: j <= k < |s| ==> IsSpace(s[k]))
    ensures i < j ==> !IsSpace(s[i]) && !IsSpace(s[j - 1])
  {
    hide IsSpace;
    if s == "" {
      i, j := 0, 0;
    } else if IsSpace(s[0]) {
      var a, b := StripIsInner(s[1..]);
      i, j := a + 1, b + 1;
      SliceOfRest(s, a, b);
      forall k | 0 <= k < i || j <= k < |s| ensures IsSpace(s[k]) {
        assert k > 0 ==> s[k] == s[1..][k - 1];
      }
    } else if IsSpace(Last(s)) {
      i, j := StripIsInner(Init(s));
      assert Init(s)[i..j] == s[i..j];
      forall k | 0 <= k < i || j <= k < |s| ensures IsSpace(s[k]) {
        assert k < |s| - 1 ==> s[k] == Init(s)[k];
      }
    } else {
      i, j := 0, |s|;
      assert s[0..|s|] == s;
    }
  }

  lemma SliceOfRest(s: string, a: nat, b: nat)
    requires a <= b < |s|
    ensures s[1..][a..b] == s[a + 1..b + 1]
  {
  }

  lemma HalfSteps(n: nat)
    ensures n >= 3 ==> (n - 1) / 2 == (n - 3) / 2 + 1
    ensures n >= 2 && n % 2 == 0 ==> (n - 1) / 2 == (n - 2) / 2
    ensures n >= 3 && n % 2 == 1 ==> 2 * ((n - 3) / 2) + 3 == n
  {
  }

  lemma {:induction false} PairsBelowByPosition(line: Line, n: nat, j: nat)
    requires 1 <= n <= |line|
    ensures |PairsBelow(line, n)| == (n - 1) / 2
    ensures j < (n - 1) / 2 ==>
              PairsBelow(line, n)[j] == Cell(Strip(line[0]) + "_" + line[2 * j + 1], line[2 * j + 2])
    decreases n
  {
    hide Strip;
    HalfSteps(n);
    if n >= 3 && n % 2 == 1 {
      PairsBelowByPosition(line, n - 2, j);
      assert j == (n - 3) / 2 ==> n - 2 == 2 * j + 1;
    } else if n >= 3 {
      PairsBelowByPosition(line, n - 1, j);
    }
  }

  /** Pair j of a line is named by its header and the text at position 2j + 1, and its value
      is the text after that; a last label without a value is no pair. */
  lemma PairsByPosition(line: Line)
    ensures |Pairs(line)| == (|line| - 1) / 2
    ensures forall j :: 0 <= j < |Pairs(line)| ==>
              && Pairs(line)[j].name == Strip(line[0]) + "_" + line[2 * j + 1]
              && Pairs(line)[j].value == line[2 * j + 2]
  {
    hide Strip;
    PairsBelowByPosition(line, |line|, 0);
    forall j | 0 <= j < |Pairs(line)|
      ensures Pairs(line)[j] == Cell(Strip(line[0]) + "_" + line[2 * j + 1], line[2 * j + 2])
    {
      PairsBelowByPosition(line, |line|, j);
    }
  }

  lemma {:induction false} LabelsBelowByPosition(line: Line, n: nat, j: nat)
    requires n <= |line|
    ensures |Labels(line, n)| == n / 2
    ensures j < n / 2 ==> Labels(line, n)[j] == Strip(line[0]) + "_" + line[2 * j + 1]
  {
    hide Strip;
    if n >= 2 {
      LabelsBelowByPosition(line, n - 1, j);
    }
  }

  /** Column name j of a line is its header and the text at position 2j + 1. */
  lemma LabelsByPosition(line: Line)
    ensures |Labels(line, |line|)| == |line| / 2
    ensures forall j :: 0 <= j < |line| / 2 ==>
              Labels(line, |line|)[j] == Strip(line[0]) + "_" + line[2 * j + 1]
  {
    hide Strip;
    LabelsBelowByPosition(line, |line|, 0);
    forall j | 0 <= j < |line| / 2
      ensures Labels(line, |line|)[j] == Strip(line[0]) + "_" + line[2 * j + 1]
    {
      LabelsBelowByPosition(line, |line|, j);
    }
  }

  // ---- The columns

  /** Whether detection has stopped, and the fields so far. */
  function Detect(lines: seq<Line>): (r: (bool, seq<string>)) {
    if lines == [] then (false, [])
    else
      var (stopped, fields) := Detect(Init(lines));
      var line := Last(lines);
      if stopped || (fields != [] && line[0] == OPTS) then (true, fields)
      else (false, fields + Labels(line, |line|))
  }

  // ---- The rows

  /** The next column, and the cells written so far: row 0 continues the header line. */
  datatype Sheet = Sheet(fieldNo: nat, rows: seq<seq<Cell>>)

  /** None stands for the index error of a pair after the last column. */
  function EmitPair(s: Sheet, fields: seq<string>, c: Cell): (r: Option<Sheet>)
    requires s.rows != []
    ensures r.Some? ==> r.value.rows != []
  {
    if s.fieldNo >= |fields| then None
    else if fields[s.fieldNo] != c.name then Some(s)
    else Some(Sheet(s.fieldNo + 1, Init(s.rows) + [Last(s.rows) + [c]]))
  }

  function EmitPairs(s: Sheet, fields: seq<string>, cells: seq<Cell>): (r: Option<Sheet>)
    requires s.rows != []
    ensures r.Some? ==> r.value.rows != []
  {
    if cells == [] then Some(s)
    else
      match EmitPairs(s, fields, Init(cells))
      case None => None
      case Some(t) => EmitPair(t, fields, Last(cells))
  }

  function StartRow(s: Sheet, line: Line): (t: Sheet)
    requires s.rows != []
    ensures t.rows != []
  {
    if Strip(line[0]) == OPTS then Sheet(0, s.rows + [[]]) else s
  }

  function Emit(lines: seq<Line>, fields: seq<string>): (r: Option<Sheet>)
    ensures r.Some? ==> r.value.rows != []
  {
    if lines == [] then Some(Sheet(0, [[]]))
    else
      match Emit(Init(lines), fields)
      case None => None
      case Some(s) => EmitPairs(StartRow(s, Last(lines)), fields, Pairs(Last(lines)))
  }

  // ---- What the log says: the pairs of every record

  function Started(records: seq<seq<Cell>>, line: Line): (r: seq<seq<Cell>>)
    requires records != []
    ensures r != []
  {
    if Strip(line[0]) == OPTS then records + [[]] else records
  }

  function Lengthened(records: seq<seq<Cell>>, cells: seq<Cell>): (r: seq<seq<Cell>>)
    requires records != []
    ensures r != []
  {
    Init(records) + [Last(records) + cells]
  }

  function Records(lines: seq<Line>): (r: seq<seq<Cell>>)
    ensures r != []
  {
    if lines == [] then [[]] else Lengthened(Started(Records(Init(lines)), Last(lines)), Pairs(Last(lines)))
  }

  // ---- Alignment

  predicate Aligned(s: Sheet, fields: seq<string>) {
    && s.rows != [] && s.fieldNo == |Last(s.rows)|
    && forall k :: 0 <= k < |s.rows| ==> Names(s.rows[k]) <= fields
  }

  lemma {:induction false} EmitPairsAligned(s: Sheet, fields: seq<string>, cells: seq<Cell>)
    requires Aligned(s, fields)
    ensures var r := EmitPairs(s, fields, cells);
            r.Some? ==> Aligned(r.value, fields) && |r.value.rows| == |s.rows|
  {
    if cells != [] {
      EmitPairsAligned(s, fields, Init(cells));
      if EmitPairs(s, fields, cells).Some? {
        EmitPairAligned(EmitPairs(s, fields, Init(cells)).value, fields, Last(cells));
      }
    }
  }

  lemma EmitPairAligned(s: Sheet, fields: seq<string>, c: Cell)
    requires Aligned(s, fields)
    ensures var r := EmitPair(s, fields, c);
            r.Some? ==> Aligned(r.value, fields) && |r.value.rows| == |s.rows|
  {
    if s.fieldNo < |fields| && fields[s.fieldNo] == c.name {
      assert Names(Last(s.rows) + [c]) == Names(Last(s.rows)) + [c.name];
    }
  }

  /** In any log processed without an index error, the value in column j of every row was
      logged under the name of column j: misplaced pairs are dropped, never shifted. */
  lemma {:induction false} ValuesStayInTheirColumns(lines: seq<Line>, fields: seq<string>)
    requires Emit(lines, fields).Some?
    ensures var s := Emit(lines, fields).value;
            && Aligned(s, fields)
            && forall k, j :: 0 <= k < |s.rows| && 0 <= j < |s.rows[k]| ==>
                 j < |fields| && s.rows[k][j].name == fields[j]
  {
    if lines != [] {
      ValuesStayInTheirColumns(Init(lines), fields);
      var s := Emit(Init(lines), fields).value;
      var t := StartRow(s, Last(lines));
      assert Aligned(t, fields);
      EmitPairsAligned(t, fields, Pairs(Last(lines)));
    }
    AlignedColumns(Emit(lines, fields).value, fields);
  }

  lemma AlignedColumns(s: Sheet, fields: seq<string>)
    requires Aligned(s, fields)
    ensures forall k, j :: 0 <= k < |s.rows| && 0 <= j < |s.rows[k]| ==>
              j < |fields| && s.rows[k][j].name == fields[j]
  {
    forall k, j | 0 <= k < |s.rows| && 0 <= j < |s.rows[k]|
      ensures j < |fields| && s.rows[k][j].name == fields[j]
    {
      assert Names(s.rows[k])[j] == s.rows[k][j].name;
    }
  }

  /** a is b with some elements left out. */
  predicate Within(a: seq<Cell>, b: seq<Cell>) {
    a == [] || (b != [] && ((Last(a) == Last(b) && Within(Init(a), Init(b))) || Within(a, Init(b))))
  }

  lemma {:induction false} WithinGrows(a: seq<Cell>, b: seq<Cell>, c: Cell)
    requires Within(a, b)
    ensures Within(a, b + [c]) && Within(a + [c], b + [c])
  {
    assert Init(b + [c]) == b && Init(a + [c]) == a && Last(a + [c]) == c == Last(b + [c]);
  }

  lemma {:induction false} EmitKeepsOthers(s: Sheet, fields: seq<string>, cells: seq<Cell>)
    requires s.rows != []
    ensures var r := EmitPairs(s, fields, cells);
            r.Some? ==> |r.value.rows| == |s.rows| && Init(r.value.rows) == Init(s.rows)
  {
    if cells != [] {
      EmitKeepsOthers(s, fields, Init(cells));
    }
  }

  lemma EmitPairWithin(s: Sheet, fields: seq<string>, c: Cell, record: seq<Cell>)
    requires s.rows != [] && Within(Last(s.rows), record)
    ensures var r := EmitPair(s, fields, c);
            r.Some? ==> Within(Last(r.value.rows), record + [c])
  {
    WithinGrows(Last(s.rows), record, c);
  }

  lemma {:induction false} EmitPairsWithin(s: Sheet, fields: seq<string>, cells: seq<Cell>, record: seq<Cell>)
    requires s.rows != [] && Within(Last(s.rows), record)
    ensures var r := EmitPairs(s, fields, cells);
            r.Some? ==> Within(Last(r.value.rows), record + cells)
  {
    hide Within, EmitPair;
    if cells == [] {
      assert record + cells == record;
    } else {
      EmitPairsWithin(s, fields, Init(cells), record);
      if EmitPairs(s, fields, cells).Some? {
        assert record + cells == (record + Init(cells)) + [Last(cells)];
        EmitPairWithin(EmitPairs(s, fields, Init(cells)).value, fields, Last(cells), record + Init(cells));
      }
    }
  }

  predicate RowsWithin(rows: seq<seq<Cell>>, records: seq<seq<Cell>>) {
    |rows| == |records| && forall k :: 0 <= k < |rows| ==> Within(rows[k], records[k])
  }

  lemma StartWithin(s: Sheet, records: seq<seq<Cell>>, line: Line)
    requires s.rows != [] && RowsWithin(s.rows, records)
    ensures RowsWithin(StartRow(s, line).rows, Started(records, line))
  {
    hide Strip;
    assert Within([], []);
  }

  lemma LengthenWithin(s: Sheet, fields: seq<string>, records: seq<seq<Cell>>, cells: seq<Cell>)
    requires s.rows != [] && RowsWithin(s.rows, records)
    ensures var r := EmitPairs(s, fields, cells);
            r.Some? ==> RowsWithin(r.value.rows, Lengthened(records, cells))
  {
    hide Within;
    EmitKeepsOthers(s, fields, cells);
    EmitPairsWithin(s, fields, cells, Last(records));
    var r := EmitPairs(s, fields, cells);
    if r.Some? {
      forall k | 0 <= k < |r.value.rows| ensures Within(r.value.rows[k], Lengthened(records, cells)[k]) {
        if k < |s.rows| - 1 {
          assert r.value.rows[k] == Init(r.value.rows)[k] == s.rows[k];
        }
      }
    }
  }

  /** Every row holds pairs of its own record, in the record's order. */
  lemma {:induction false} RowsComeFromRecords(lines: seq<Line>, fields: seq<string>)
    requires Emit(lines, fields).Some?
    ensures RowsWithin(Emit(lines, fields).value.rows, Records(lines))
  {
    hide Strip, StartRow, EmitPairs, Pairs, Lengthened, Started;
    if lines != [] {
      RowsComeFromRecords(Init(lines), fields);
      var s, line := Emit(Init(lines), fields).value, Last(lines);
      StartWithin(s, Records(Init(lines)), line);
      LengthenWithin(StartRow(s, line), fields, Started(Records(Init(lines)), line), Pairs(line));
    }
  }

  // ---- Where the cells of a row come from

  /** The record of line n: how many lines up to it are headed "opts". */
  function RecordOf(lines: seq<Line>, n: nat): nat
    requires n < |lines|
  {
    (if n == 0 then 0 else RecordOf(lines, n - 1)) + if Strip(lines[n][0]) == "opts" then 1 else 0
  }

  /** The cell is a label of line n with the text after it. */
  predicate AtPosition(line: Line, c: Cell, i: nat) {
    2 * i + 2 < |line| && c.name == Strip(line[0]) + "_" + line[2 * i + 1] && c.value == line[2 * i + 2]
  }

  predicate InLine(line: Line, c: Cell) {
    exists i :: 0 <= i < |line| && AtPosition(line, c, i)
  }

  /** The cell is a pair of some line of record k. */
  predicate FromRecord(lines: seq<Line>, k: nat, c: Cell) {
    exists n :: 0 <= n < |lines| && RecordOf(lines, n) == k && InLine(lines[n], c)
  }

  lemma {:induction false} RecordOfPrefix(lines: seq<Line>, n: nat)
    requires lines != [] && n < |lines| - 1
    ensures RecordOf(Init(lines), n) == RecordOf(lines, n)
  {
    hide Strip;
    if n > 0 {
      RecordOfPrefix(lines, n - 1);
    }
  }

  lemma FromEarlierLines(lines: seq<Line>, k: nat, c: Cell)
    requires lines != [] && FromRecord(Init(lines), k, c)
    ensures FromRecord(lines, k, c)
  {
    hide Strip, InLine, RecordOf;
    var n :| 0 <= n < |Init(lines)| && RecordOf(Init(lines), n) == k && InLine(Init(lines)[n], c);
    RecordOfPrefix(lines, n);
    assert lines[n] == Init(lines)[n];
  }

  lemma PairsAreInLine(line: Line, c: Cell)
    requires c in Pairs(line)
    ensures InLine(line, c)
  {
    hide Strip, Pairs;
    PairsByPosition(line);
    var j :| 0 <= j < |Pairs(line)| && Pairs(line)[j] == c;
    assert AtPosition(line, c, j);
  }

  lemma {:induction false} PairsAppend(s: Sheet, fields: seq<string>, cells: seq<Cell>)
    requires s.rows != []
    ensures var r := EmitPairs(s, fields, cells);
            r.Some? ==>
              && Init(r.value.rows) == Init(s.rows) && Last(s.rows) <= Last(r.value.rows)
              && forall c :: c in Last(r.value.rows)[|Last(s.rows)|..] ==> c in cells
  {
    if cells != [] {
      PairsAppend(s, fields, Init(cells));
      assert cells == Init(cells) + [Last(cells)];
    }
  }

  lemma LineIsAppended(s: Sheet, fields: seq<string>, line: Line)
    requires s.rows != []
    ensures var r := EmitPairs(s, fields, Pairs(line));
            r.Some? ==>
              && Init(r.value.rows) == Init(s.rows) && Last(s.rows) <= Last(r.value.rows)
              && forall c :: c in Last(r.value.rows)[|Last(s.rows)|..] ==> InLine(line, c)
  {
    hide EmitPairs, Pairs, InLine;
    PairsAppend(s, fields, Pairs(line));
    forall c | c in Pairs(line) ensures InLine(line, c) {
      PairsAreInLine(line, c);
    }
  }

  /** The records are numbered by their header lines, and hold pairs of their lines only. */
  lemma {:induction false} RecordsComeFromLines(lines: seq<Line>, k: nat, c: Cell)
    ensures |Records(lines)| == 1 + if lines == [] then 0 else RecordOf(lines, |lines| - 1)
    ensures k < |Records(lines)| && c in Records(lines)[k] ==> FromRecord(lines, k, c)
  {
    hide Strip, Pairs, InLine, FromRecord, Lengthened, Started;
    if lines != [] {
      var line, before := Last(lines), Records(Init(lines));
      RecordsComeFromLines(Init(lines), k, c);
      OneMoreLine(before, line, Pairs(line));
      if |lines| > 1 {
        RecordOfPrefix(lines, |lines| - 2);
      }
      OneMoreMember(before, line, Pairs(line), k, c);
      if k < |Records(lines)| && c in Records(lines)[k] {
        if k < |before| && c in before[k] {
          FromEarlierLines(lines, k, c);
        } else {
          PairsAreInLine(line, c);
          LastLineIsFrom(lines, k, c);
        }
      }
    }
  }

  lemma OneMoreMember(before: seq<seq<Cell>>, line: Line, cells: seq<Cell>, k: nat, c: Cell)
    requires before != []
    ensures var after := Lengthened(Started(before, line), cells);
            k < |after| && c in after[k] ==> (k < |before| && c in before[k]) || (k == |after| - 1 && c in cells)
  {
    hide Strip;
    assert Init(before + [[]]) == before;
  }

  lemma LastLineIsFrom(lines: seq<Line>, k: nat, c: Cell)
    requires lines != [] && RecordOf(lines, |lines| - 1) == k && InLine(Last(lines), c)
    ensures FromRecord(lines, k, c)
  {
  }

  lemma {:induction false} WithinMembers(a: seq<Cell>, b: seq<Cell>, c: Cell)
    requires Within(a, b) && c in a
    ensures c in b
  {
    assert a == Init(a) + [Last(a)] && b == Init(b) + [Last(b)];
    if Last(a) == Last(b) && Within(Init(a), Init(b)) {
      if c in Init(a) {
        WithinMembers(Init(a), Init(b), c);
      }
    } else {
      WithinMembers(a, Init(b), c);
    }
  }

  /** The cell in column j of row k: the name of the column, and a label and the text after
      it from a line of record k of the log. */
  predicate CellIsRight(lines: seq<Line>, fields: seq<string>, rows: seq<seq<Cell>>, k: nat, j: nat)
    requires k < |rows| && j < |rows[k]|
  {
    j < |fields| && rows[k][j].name == fields[j] && FromRecord(lines, k, rows[k][j])
  }

  predicate CellsAreRight(lines: seq<Line>, fields: seq<string>, rows: seq<seq<Cell>>) {
    forall k, j :: 0 <= k < |rows| && 0 <= j < |rows[k]| ==> CellIsRight(lines, fields, rows, k, j)
  }

  lemma EveryCellIsRight(lines: seq<Line>, fields: seq<string>)
    ensures Emit(lines, fields).Some? ==> CellsAreRight(lines, fields, Emit(lines, fields).value.rows)
  {
    hide Emit, Records, Within, FromRecord;
    if Emit(lines, fields).Some? {
      var rows: seq<seq<Cell>> := Emit(lines, fields).value.rows;
      ValuesStayInTheirColumns(lines, fields);
      RowsComeFromRecords(lines, fields);
      forall k: int, j: int | 0 <= k < |rows| && 0 <= j < |rows[k]|
        ensures CellIsRight(lines, fields, rows, k, j)
      {
        assert Names(rows[k]) <= fields && Names(rows[k])[j] == rows[k][j].name;
        WithinMembers(rows[k], Records(lines)[k], rows[k][j]);
        RecordsComeFromLines(lines, k, rows[k][j]);
      }
    }
  }

  // ---- Completeness

  lemma {:induction false} EmitAllPairs(s: Sheet, fields: seq<string>, cells: seq<Cell>)
    requires s.rows != [] && s.fieldNo == |Last(s.rows)|
    requires Names(Last(s.rows) + cells) <= fields
    ensures EmitPairs(s, fields, cells)
         == Some(Sheet(s.fieldNo + |cells|, Init(s.rows) + [Last(s.rows) + cells]))
  {
    hide Names;
    var row := Last(s.rows);
    if cells == [] {
      assert row + cells == row && Init(s.rows) + [row] == s.rows;
    } else {
      assert Names(row + Init(cells)) == Names(row + cells)[..|row| + |cells| - 1];
      EmitAllPairs(s, fields, Init(cells));
      assert Names(row + cells)[|row| + |cells| - 1] == Last(cells).name;
      assert row + cells == (row + Init(cells)) + [Last(cells)];
    }
  }

  predicate AllPrefixes(records: seq<seq<Cell>>, fields: seq<string>) {
    forall k :: 0 <= k < |records| ==> Names(records[k]) <= fields
  }

  lemma PrefixesBefore(records: seq<seq<Cell>>, fields: seq<string>, line: Line)
    requires records != [] && AllPrefixes(Lengthened(Started(records, line), Pairs(line)), fields)
    ensures AllPrefixes(records, fields) && AllPrefixes(Started(records, line), fields)
    ensures Names(Last(Started(records, line)) + Pairs(line)) <= fields
  {
    hide Strip, Pairs;
    var started, cells := Started(records, line), Pairs(line);
    var after := Lengthened(started, cells);
    assert Last(started) + cells == after[|after| - 1];
    assert Names(Last(started)) == Names(Last(started) + cells)[..|Last(started)|];
    forall k | 0 <= k < |started| ensures Names(started[k]) <= fields {
      if k < |started| - 1 {
        assert after[k] == started[k];
      }
    }
    forall k | 0 <= k < |records| ensures Names(records[k]) <= fields {
      assert started[k] == records[k];
    }
  }

  lemma LineIsComplete(before: seq<seq<Cell>>, fields: seq<string>, line: Line)
    requires before != [] && Names(Last(Started(before, line)) + Pairs(line)) <= fields
    ensures var after := Lengthened(Started(before, line), Pairs(line));
            EmitPairs(StartRow(Sheet(|Last(before)|, before), line), fields, Pairs(line))
            == Some(Sheet(|Last(after)|, after))
  {
    hide Strip, Pairs, EmitPairs;
    EmitAllPairs(StartRow(Sheet(|Last(before)|, before), line), fields, Pairs(line));
  }

  lemma {:induction false} PrefixesAreComplete(lines: seq<Line>, fields: seq<string>)
    requires AllPrefixes(Records(lines), fields)
    ensures Emit(lines, fields) == Some(Sheet(|Last(Records(lines))|, Records(lines)))
  {
    hide Strip, Pairs, AllPrefixes, EmitPairs, StartRow, Started, Lengthened;
    if lines != [] {
      var line, before := Last(lines), Records(Init(lines));
      PrefixesBefore(before, fields, line);
      PrefixesAreComplete(Init(lines), fields);
      LineIsComplete(before, fields, line);
    }
  }

  /** No pair of the log is lost, and no index error happens, exactly when the names of
      every record are a prefix of the columns. */
  lemma CompleteExactly(lines: seq<Line>, fields: seq<string>)
    ensures (exists n :: Emit(lines, fields) == Some(Sheet(n, Records(lines))))
       <==> AllPrefixes(Records(lines), fields)
  {
    hide Emit, Records;
    if AllPrefixes(Records(lines), fields) {
      PrefixesAreComplete(lines, fields);
    }
    if n :| Emit(lines, fields) == Some(Sheet(n, Records(lines))) {
      ValuesStayInTheirColumns(lines, fields);
    }
  }

  // ---- Logs of one schema

  /** Every label has a value, and only clean "opts" headers start a record. */
  predicate WellPaired(lines: seq<Line>) {
    forall k :: 0 <= k < |lines| ==> |lines[k]| % 2 == 1 && (Strip(lines[k][0]) == OPTS ==> lines[k][0] == OPTS)
  }

  lemma {:induction false} LabelsArePairNames(line: Line, n: nat)
    requires n <= |line| && n % 2 == 1
    ensures Labels(line, n) == Names(PairsBelow(line, n))
  {
    if n >= 3 {
      LabelsArePairNames(line, n - 2);
      var c := Cell(Name(line, n - 2), line[n - 1]);
      assert Names(PairsBelow(line, n - 2) + [c]) == Names(PairsBelow(line, n - 2)) + [c.name];
    }
  }

  lemma OptsIsClean()
    ensures Strip(OPTS) == OPTS
  {
    assert OPTS[0] == 'o' && Last(OPTS) == 's';
  }

  /** In a log that starts with a record of at least one pair, the columns found are the
      names of the first record, whatever follows. */
  lemma {:induction false} ColumnsAreTheFirstRecord(lines: seq<Line>)
    requires WellPaired(lines) && lines != [] && lines[0][0] == OPTS && |lines[0]| > 1
    ensures |Records(lines)| >= 2 && Records(lines)[0] == []
    ensures Detect(lines) == (|Records(lines)| > 2, Names(Records(lines)[1])) && Records(lines)[1] != []
  {
    hide Strip, Pairs, Labels, Started, Lengthened;
    OptsIsClean();
    var line := Last(lines);
    var cells, before := Pairs(line), Records(Init(lines));
    LineNames(line);
    OneMoreLine(before, line, cells);
    if |lines| == 1 {
      assert Init(lines) == [] && before == [[]];
      assert [] + Labels(line, |line|) == Labels(line, |line|);
    } else {
      assert Init(lines)[0] == lines[0];
      ColumnsAreTheFirstRecord(Init(lines));
      NamesAppend(before[1], cells);
    }
  }

  lemma NamesAppend(a: seq<Cell>, b: seq<Cell>)
    ensures Names(a + b) == Names(a) + Names(b)
  {
  }

  lemma OneMoreLine(before: seq<seq<Cell>>, line: Line, cells: seq<Cell>)
    requires before != []
    ensures var after := Lengthened(Started(before, line), cells);
            && (Strip(line[0]) == OPTS ==> after == before + [cells])
            && (Strip(line[0]) != OPTS ==>
                  after == before[|before| - 1 := Last(before) + cells])
  {
    hide Strip;
    assert [] + cells == cells;
    assert Init(before + [[]]) == before;
  }

  lemma LineNames(line: Line)
    requires |line| % 2 == 1
    ensures Labels(line, |line|) == Names(Pairs(line)) && (|line| > 1 ==> Pairs(line) != [])
  {
    LabelsArePairNames(line, |line|);
  }

  /** If moreover every record has the first one's names, no pair is lost and every row
      has a value for every column. */
  lemma OneSchemaIsComplete(lines: seq<Line>)
    requires WellPaired(lines) && lines != [] && lines[0][0] == OPTS && |lines[0]| > 1
    requires forall k :: 1 <= k < |Records(lines)| ==> Names(Records(lines)[k]) == Names(Records(lines)[1])
    ensures var r := Emit(lines, Detect(lines).1);
            && r.Some? && r.value.rows == Records(lines)
            && forall k :: 1 <= k < |r.value.rows| ==> |r.value.rows[k]| == |Detect(lines).1|
  {
    hide Emit, Detect, Strip, WellPaired;
    ColumnsAreTheFirstRecord(lines);
    var records := Records(lines);
    forall k | 0 <= k < |records| ensures Names(records[k]) <= Names(records[1]) {
      if k == 0 {
        assert Names(records[0]) == [];
      }
    }
    PrefixesAreComplete(lines, Names(records[1]));
    forall k | 1 <= k < |records| ensures |records[k]| == |Names(records[1])| {
      assert |Names(records[k])| == |records[k]|;
    }
  }

  // ---- Labels without a value

  predicate CleanHeads(lines: seq<Line>) {
    forall k :: 0 <= k < |lines| ==> Strip(lines[k][0]) == OPTS ==> lines[k][0] == OPTS
  }

  /** The labels without a value in the lines of the first record. */
  function Dangling(lines: seq<Line>): nat {
    if lines == [] then 0
    else Dangling(Init(lines)) + if |Records(lines)| == 2 && |Last(lines)| % 2 == 0 then 1 else 0
  }

  lemma {:induction false} LabelCount(line: Line, n: nat)
    requires n <= |line|
    ensures |Labels(line, n)| == |PairsBelow(line, n)| + if n >= 2 && n % 2 == 0 then 1 else 0
  {
    if n >= 3 && n % 2 == 1 {
      LabelCount(line, n - 2);
    } else if n >= 2 {
      LabelCount(line, n - 1);
    }
  }

  /** The columns are as many as the pairs and the dangling labels of the first record,
      whatever follows. */
  lemma {:induction false} ColumnCount(lines: seq<Line>)
    requires CleanHeads(lines) && lines != [] && lines[0][0] == OPTS && |lines[0]| > 1
    ensures |Records(lines)| >= 2 && Records(lines)[0] == []
    ensures Detect(lines).0 == (|Records(lines)| > 2) && Detect(lines).1 != []
    ensures |Detect(lines).1| == |Records(lines)[1]| + Dangling(lines)
  {
    hide Strip, Pairs, Labels, Started, Lengthened;
    OptsIsClean();
    var line := Last(lines);
    var cells, before := Pairs(line), Records(Init(lines));
    LineLabels(line);
    OneMoreLine(before, line, cells);
    if |lines| == 1 {
      assert Init(lines) == [] && before == [[]] && Dangling([]) == 0;
      assert [] + Labels(line, |line|) == Labels(line, |line|);
    } else {
      assert Init(lines)[0] == lines[0];
      ColumnCount(Init(lines));
    }
  }

  lemma LineLabels(line: Line)
    ensures |Labels(line, |line|)| == |Pairs(line)| + if |line| % 2 == 0 then 1 else 0
    ensures |line| > 1 ==> Labels(line, |line|) != []
  {
    LabelCount(line, |line|);
  }

  lemma {:induction false} WithinIsShorter(a: seq<Cell>, b: seq<Cell>)
    requires Within(a, b)
    ensures |a| <= |b|
  {
    if a != [] {
      if Last(a) == Last(b) && Within(Init(a), Init(b)) {
        WithinIsShorter(Init(a), Init(b));
      } else {
        WithinIsShorter(a, Init(b));
      }
    }
  }

  /** A first record whose names are a prefix of the columns is written in full. */
  lemma {:induction false} FirstRowKept(lines: seq<Line>, fields: seq<string>)
    requires Emit(lines, fields).Some? && |Records(lines)| >= 2 && Records(lines)[0] == []
    requires Names(Records(lines)[1]) <= fields
    ensures var s := Emit(lines, fields).value;
            && |s.rows| == |Records(lines)| && s.rows[1] == Records(lines)[1]
            && (|s.rows| == 2 ==> s.fieldNo == |s.rows[1]|)
  {
    hide Strip, EmitPairs, Pairs, Lengthened, Started;
    var front, line := Init(lines), Last(lines);
    var s, before, cells := Emit(front, fields).value, Records(front), Pairs(line);
    OneMoreLine(before, line, cells);
    RowsComeFromRecords(front, fields);
    RowsComeFromRecords(lines, fields);
    var t := StartRow(s, line);
    StartWithin(s, before, line);
    EmitKeepsOthers(t, fields, cells);
    hide Within;
    if |before| == 1 {
      assert t == Sheet(0, s.rows + [[]]) && [] + cells == cells;
      EmitAllPairs(t, fields, cells);
    } else {
      if |before| == 2 && Strip(line[0]) != OPTS {
        assert Names(before[1]) == Names(before[1] + cells)[..|before[1]|];
        FirstRowKept(front, fields);
        EmitAllPairs(t, fields, cells);
      } else {
        FirstRowKept(front, fields);
        var rows := Emit(lines, fields).value.rows;
        assert rows[1] == Init(rows)[1] == Init(t.rows)[1];
      }
    }
  }

  /** In a processed log the first record fills all columns exactly if each of its labels
      has a value. A column of a label without a value can still be filled by later
      records. */
  lemma FirstRowIsFullExactly(lines: seq<Line>)
    requires CleanHeads(lines) && lines != [] && lines[0][0] == OPTS && |lines[0]| > 1
    ensures var r := Emit(lines, Detect(lines).1);
            r.Some? ==>
              |r.value.rows| >= 2 && (|r.value.rows[1]| == |Detect(lines).1| <==> Dangling(lines) == 0)
  {
    hide Strip, Emit, Detect, Records, CleanHeads;
    ColumnCount(lines);
    var fields := Detect(lines).1;
    if Emit(lines, fields).Some? {
      RowsComeFromRecords(lines, fields);
      WithinIsShorter(Emit(lines, fields).value.rows[1], Records(lines)[1]);
      if Dangling(lines) == 0 {
        NoDanglingLabels(lines);
        FirstRowKept(lines, fields);
      }
    }
  }

  lemma {:induction false} NoDanglingLabels(lines: seq<Line>)
    requires CleanHeads(lines) && lines != [] && lines[0][0] == OPTS && |lines[0]| > 1 && Dangling(lines) == 0
    ensures |Records(lines)| >= 2 && Detect(lines).1 == Names(Records(lines)[1])
  {
    hide Strip, Pairs, Labels, Started, Lengthened;
    OptsIsClean();
    ColumnCount(lines);
    var line := Last(lines);
    var cells, before := Pairs(line), Records(Init(lines));
    OneMoreLine(before, line, cells);
    if |line| % 2 == 1 {
      LineNames(line);
    }
    if |lines| == 1 {
      assert Init(lines) == [] && before == [[]];
      assert [] + Labels(line, |line|) == Labels(line, |line|);
    } else {
      assert Init(lines)[0] == lines[0];
      ColumnCount(Init(lines));
      NoDanglingLabels(Init(lines));
      NamesAppend(before[1], cells);
    }
  }

  // ---- The program

  lemma {:induction false} DetectStops(lines: seq<Line>, k: nat)
    requires k <= |lines| && Detect(lines[..k]).0
    ensures Detect(lines) == Detect(lines[..k])
    decreases |lines|
  {
    if k == |lines| {
      assert lines[..k] == lines;
    } else {
      assert Init(lines)[..k] == lines[..k];
      DetectStops(Init(lines), k);
    }
  }

  method AppendLabels(line: Line, before: seq<string>) returns (fields: seq<string>)
    ensures fields == before + Labels(line, |line|)
  {
    hide Name;
    fields := before;
    var i := 1;
    while i < |line|
      invariant i % 2 == 1 && i <= |line| + 1
      invariant fields == before + Labels(line, if i < |line| then i else |line|)
    {
      fields := fields + [Name(line, i)];
      assert Labels(line, i + 1) == Labels(line, i) + [Name(line, i)];
      i := i + 2;
    }
  }

  method DetectFields(lines: seq<Line>) returns (fields: seq<string>)
    ensures fields == Detect(lines).1
  {
    hide Labels;
    fields := [];
    var k := 0;
    while k < |lines|
      invariant k <= |lines| && Detect(lines[..k]) == (false, fields)
    {
      assert Init(lines[..k + 1]) == lines[..k];
      if fields != [] && lines[k][0] == OPTS {
        DetectStops(lines, k + 1);
        return;
      }
      fields := AppendLabels(lines[k], fields);
      k := k + 1;
    }
    assert lines[..k] == lines;
  }

  lemma {:induction false} PairsStop(s: Sheet, fields: seq<string>, line: Line, i: nat)
    requires s.rows != [] && i <= |line| && EmitPairs(s, fields, PairsBelow(line, i)).None?
    ensures EmitPairs(s, fields, Pairs(line)).None?
  {
    PairsStopBelow(s, fields, line, i, |line|);
  }

  lemma {:induction false} PairsStopBelow(s: Sheet, fields: seq<string>, line: Line, i: nat, n: nat)
    requires s.rows != [] && i <= n <= |line| && EmitPairs(s, fields, PairsBelow(line, i)).None?
    ensures EmitPairs(s, fields, PairsBelow(line, n)).None?
    decreases n
  {
    hide EmitPair, Name;
    if i < n {
      if n % 2 == 1 && n >= 3 {
        assert Init(PairsBelow(line, n)) == PairsBelow(line, n - 2);
        assert PairsBelow(line, n - 1) == PairsBelow(line, n - 2);
      }
      PairsStopBelow(s, fields, line, i, n - 1);
    }
  }

  lemma {:induction false} EmitStops(lines: seq<Line>, fields: seq<string>, k: nat)
    requires k <= |lines| && Emit(lines[..k], fields).None?
    ensures Emit(lines, fields).None?
    decreases |lines|
  {
    if k == |lines| {
      assert lines[..k] == lines;
    } else {
      assert Init(lines)[..k] == lines[..k];
      EmitStops(Init(lines), fields, k);
    }
  }

  /** The pairs of one line; a false result is the index error. */
  lemma NextPair(s: Sheet, fields: seq<string>, line: Line, i: nat)
    requires s.rows != [] && i % 2 == 1 && i + 2 <= |line|
    requires EmitPairs(s, fields, PairsBelow(line, i)).Some?
    ensures EmitPairs(s, fields, PairsBelow(line, i + 2))
         == EmitPair(EmitPairs(s, fields, PairsBelow(line, i)).value, fields, Cell(Name(line, i), line[i + 1]))
  {
    hide Name, EmitPair;
    assert Init(PairsBelow(line, i + 2)) == PairsBelow(line, i);
  }

  lemma AllPairsBelow(s: Sheet, fields: seq<string>, line: Line)
    requires s.rows != []
    ensures EmitPairs(s, fields, PairsBelow(line, 1)) == Some(s)
    ensures |line| % 2 == 0 ==> PairsBelow(line, |line| - 1) == Pairs(line)
  {
    hide Name;
  }

  method EmitLine(line: Line, fields: seq<string>, s: Sheet) returns (ok: bool, t: Sheet)
    requires s.rows != []
    ensures t.rows != [] && ok == EmitPairs(s, fields, Pairs(line)).Some?
    ensures ok ==> EmitPairs(s, fields, Pairs(line)) == Some(t)
    ensures ok ==> Init(t.rows) == Init(s.rows) && Last(s.rows) <= Last(t.rows)
    ensures ok ==> forall c :: c in Last(t.rows)[|Last(s.rows)|..] ==> InLine(line, c)
  {
    hide Name, InLine, EmitPairs, PairsBelow, Strip;
    LineIsAppended(s, fields, line);
    AllPairsBelow(s, fields, line);
    t := s;
    var i := 1;
    while i < |line| - 1
      invariant i % 2 == 1 && i <= |line|
      invariant t.rows != [] && EmitPairs(s, fields, PairsBelow(line, i)) == Some(t)
    {
      var c := Cell(Name(line, i), line[i + 1]);
      NextPair(s, fields, line, i);
      if t.fieldNo >= |fields| {
        PairsStop(s, fields, line, i + 2);
        return false, t;
      }
      if fields[t.fieldNo] == c.name {
        t := Sheet(t.fieldNo + 1, Init(t.rows) + [Last(t.rows) + [c]]);
      }
      i := i + 2;
    }
    ok := true;
  }

  method Tabulate(lines: seq<Line>) returns (fields: seq<string>, ok: bool, rows: seq<seq<Cell>>)
    ensures fields == Detect(lines).1
    ensures ok == Emit(lines, fields).Some?
    ensures ok ==> rows == Emit(lines, fields).value.rows && CellsAreRight(lines, fields, rows)
  {
    hide EmitPairs, Pairs, Detect;
    fields := DetectFields(lines);
    var s, k := Sheet(0, [[]]), 0;
    while k < |lines|
      invariant k <= |lines| && s.rows != [] && Emit(lines[..k], fields) == Some(s)
    {
      assert Init(lines[..k + 1]) == lines[..k];
      ok, s := EmitLine(lines[k], fields, StartRow(s, lines[k]));
      if !ok {
        EmitStops(lines, fields, k + 1);
        return fields, false, [];
      }
      k := k + 1;
    }
    assert lines[..k] == lines;
    EveryCellIsRight(lines, fields);
    ok, rows := true, s.rows;
  }
}
