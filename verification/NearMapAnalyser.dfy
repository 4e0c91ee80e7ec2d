/**
 The NearMAP log analyser (pin-NearMAP/analyse-results/src/main.rs): it reads
 the log of the tracer back into a list of phases and computes, per phase, the
 bytes read, written, written in vain and read for the first time.
 */
module NearMapAnalyser {
  import opened Wrappers
  import opened Text

  datatype AccessType = Read | Write | ReadWrite {
    predicate IsRead() {
      Read? || ReadWrite?
    }

    predicate IsWrite() {
      Write? || ReadWrite?
    }
  }

  function TryFromRw(isRead: bool, isWrite: bool): Option<AccessType> {
    match (isRead, isWrite)
    case (true, false) => Some(Read)
    case (false, true) => Some(Write)
    case (true, true) => Some(ReadWrite)
    case (false, false) => None
  }

  datatype TracePhase = TracePhase(
    name: string,
    pageSize: nat,
    startTime: nat,
    instructions: nat,
    ioBytes: nat,
    accesses: map<nat, AccessType>)

  // ---- Parsing

  /** The phases so far, and the name waiting for the next one. */
  datatype Parser = Parser(phases: seq<TracePhase>, nextPhase: string)

  function InitialParser(): Parser {
    Parser([], "pre-main")
  }

  predicate IsTraceLine(line: string) {
    "trace;" <= line
  }

  predicate IsPhaseLine(line: string) {
    "phase;" <= line
  }

  /** A trace line; None stands for the panic of a failed unwrap. */
  function ParseTrace(p: Parser, fields: seq<string>): Option<Parser> {
    if p.phases == [] || |fields| < 6 then None
    else
      match (ParseU64(fields[4]), TryFromRw('R' in fields[5], 'W' in fields[5]))
      case (Some(page), Some(access)) =>
        var last := Last(p.phases);
        Some(p.(phases := Init(p.phases) + [last.(accesses := last.accesses[page := access])]))
      case _ => None
  }

  function FieldOr(fields: seq<string>, i: nat, default: string): string {
    if i < |fields| then fields[i] else default
  }

  /** A phase line: the new phase takes the waiting name, and the name on the
      line waits for the phase after it. */
  function ParsePhase(p: Parser, fields: seq<string>): Option<Parser> {
    if |fields| < 5 then None
    else
      match (ParseU64(fields[1]), ParseU64(fields[2]), ParseU64(fields[3]),
             ParseU64(FieldOr(fields, 5, "0")), ParseU64(FieldOr(fields, 6, "0")))
      case (Some(pageSize), Some(start), Some(_), Some(instructions), Some(ioBytes)) =>
        Some(Parser(p.phases + [TracePhase(p.nextPhase, pageSize, start, instructions, ioBytes, map[])], fields[4]))
      case _ => None
  }

  function ParseLine(p: Parser, line: string): Option<Parser> {
    if IsTraceLine(line) then ParseTrace(p, Split(line, ';'))
    else if IsPhaseLine(line) then ParsePhase(p, Split(line, ';'))
    else Some(p)
  }

  function ParseFrom(p: Option<Parser>, lines: seq<string>): Option<Parser> {
    if lines == [] then p
    else
      match ParseFrom(p, Init(lines))
      case None => None
      case Some(q) => ParseLine(q, Last(lines))
  }

  /** The phases read from a log text; None if the analyser panics on it. */
  function ParsePhases(text: string): Option<seq<TracePhase>> {
    match ParseFrom(Some(InitialParser()), Lines(text))
    case None => None
    case Some(p) => Some(p.phases)
  }

  method ParseLog(text: string) returns (phases: Option<seq<TracePhase>>)
    ensures phases == ParsePhases(text)
  {
    hide Lines, ParseLine;
    var lines := Lines(text);
    var parser: Option<Parser> := Some(InitialParser());
    for i := 0 to |lines|
      invariant parser == ParseFrom(Some(InitialParser()), lines[..i])
    {
      assert Init(lines[..i + 1]) == lines[..i] && Last(lines[..i + 1]) == lines[i];
      if parser.Some? {
        parser := ParseLine(parser.value, lines[i]);
      }
    }
    assert lines[..|lines|] == lines;
    phases := if parser.None? then None else Some(parser.value.phases);
  }

  lemma {:induction false} ParseAppend(p: Option<Parser>, a: seq<string>, b: seq<string>)
    ensures ParseFrom(p, a + b) == ParseFrom(ParseFrom(p, a), b)
  {
    hide ParseLine;
    if b == [] {
      assert a + b == a;
    } else {
      assert Init(a + b) == a + Init(b);
      ParseAppend(p, a, Init(b));
    }
  }

  lemma ParseOne(p: Parser, line: string)
    ensures ParseFrom(Some(p), [line]) == ParseLine(p, line)
  {
    hide ParseLine;
    assert Init([line]) == [];
    assert ParseFrom(Some(p), Init([line])) == Some(p);
  }

  // ---- Analysis

  predicate ReadsPage(phase: TracePhase, page: nat) {
    page in phase.accesses && phase.accesses[page].IsRead()
  }

  predicate WritesPage(phase: TracePhase, page: nat) {
    page in phase.accesses && phase.accesses[page].IsWrite()
  }

  /** Read in phase i and in no way accessed before. */
  predicate IsNewRead(phases: seq<TracePhase>, i: nat, page: nat)
    requires i < |phases|
  {
    ReadsPage(phases[i], page) && forall j :: 0 <= j < i ==> page !in phases[j].accesses
  }

  /** Written in phase i and read in no later phase. */
  predicate IsDeadWrite(phases: seq<TracePhase>, i: nat, page: nat)
    requires i < |phases|
  {
    WritesPage(phases[i], page) && forall j :: i < j < |phases| ==> !ReadsPage(phases[j], page)
  }

  function ReadSet(phase: TracePhase): set<nat> {
    set page | page in phase.accesses && ReadsPage(phase, page)
  }

  function WriteSet(phase: TracePhase): set<nat> {
    set page | page in phase.accesses && WritesPage(phase, page)
  }

  function NewReadSet(phases: seq<TracePhase>, i: nat): set<nat>
    requires i < |phases|
  {
    set page | page in phases[i].accesses && IsNewRead(phases, i, page)
  }

  function DeadWriteSet(phases: seq<TracePhase>, i: nat): set<nat>
    requires i < |phases|
  {
    set page | page in phases[i].accesses && IsDeadWrite(phases, i, page)
  }

  datatype Row = Row(
    name: string,
    pageSize: nat,
    readBytes: nat,
    writtenBytes: nat,
    deadWrittenBytes: nat,
    newReadBytes: nat,
    ioBytes: nat,
    instructions: nat)

  function Bytes(pages: set<nat>, pageSize: nat): nat {
    |pages| * pageSize
  }

  function RowOf(phases: seq<TracePhase>, i: nat): Row
    requires i < |phases|
  {
    var phase := phases[i];
    Row(phase.name, phase.pageSize,
        Bytes(ReadSet(phase), phase.pageSize),
        Bytes(WriteSet(phase), phase.pageSize),
        Bytes(DeadWriteSet(phases, i), phase.pageSize),
        Bytes(NewReadSet(phases, i), phase.pageSize),
        phase.ioBytes, phase.instructions)
  }

  /** The analysis loop: one row per phase, counting over the access table in
      whatever order the hash map yields. */
  method Analyse(phases: seq<TracePhase>) returns (rows: seq<Row>)
    ensures |rows| == |phases|
    ensures forall i :: 0 <= i < |phases| ==> rows[i] == RowOf(phases, i)
  {
    rows := [];
    for i := 0 to |phases|
      invariant |rows| == i
      invariant forall k :: 0 <= k < i ==> rows[k] == RowOf(phases, k)
    {
      var phase := phases[i];
      var readPages, writtenPages, deadWrites, newReads := CountPages(phases, i);
      rows := rows + [Row(phase.name, phase.pageSize, readPages * phase.pageSize, writtenPages * phase.pageSize,
                          deadWrites * phase.pageSize, newReads * phase.pageSize, phase.ioBytes, phase.instructions)];
    }
  }

  method CountPages(phases: seq<TracePhase>, i: nat)
    returns (readPages: nat, writtenPages: nat, deadWrites: nat, newReads: nat)
    requires i < |phases|
    ensures readPages == |ReadSet(phases[i])| && writtenPages == |WriteSet(phases[i])|
    ensures deadWrites == |DeadWriteSet(phases, i)| && newReads == |NewReadSet(phases, i)|
  {
    hide ReadSet, WriteSet, NewReadSet, DeadWriteSet, ReadsPage;
    var phase := phases[i];
    readPages, writtenPages, deadWrites, newReads := 0, 0, 0, 0;
    ghost var readSet, writes, dead, news := ReadSet(phase), WriteSet(phase), DeadWriteSet(phases, i), NewReadSet(phases, i);
    var rest := phase.accesses.Keys;
    PageSetsInKeys(phases, i);
    while rest != {}
      invariant rest <= phase.accesses.Keys
      invariant readPages == |readSet - rest| && writtenPages == |writes - rest|
      invariant deadWrites == |dead - rest| && newReads == |news - rest|
      decreases |rest|
    {
      var page :| page in rest;
      var access := phase.accesses[page];
      PageSetMembers(phases, i, page);
      CountOne(readSet, rest, page);
      CountOne(writes, rest, page);
      CountOne(dead, rest, page);
      CountOne(news, rest, page);
      if access.IsRead() {
        readPages := readPages + 1;
        if forall j :: 0 <= j < i ==> page !in phases[j].accesses {
          newReads := newReads + 1;
        }
      }
      if access.IsWrite() {
        writtenPages := writtenPages + 1;
        if forall j :: i < j < |phases| ==> !ReadsPage(phases[j], page) {
          deadWrites := deadWrites + 1;
        }
      }
      rest := rest - {page};
    }
    NothingLeft(readSet, rest);
    NothingLeft(writes, rest);
    NothingLeft(dead, rest);
    NothingLeft(news, rest);
  }

  lemma NothingLeft(s: set<nat>, rest: set<nat>)
    requires rest == {}
    ensures s - rest == s
  {
  }

  lemma PageSetsInKeys(phases: seq<TracePhase>, i: nat)
    requires i < |phases|
    ensures var keys := phases[i].accesses.Keys;
            && ReadSet(phases[i]) - keys == {} && WriteSet(phases[i]) - keys == {}
            && NewReadSet(phases, i) - keys == {} && DeadWriteSet(phases, i) - keys == {}
  {
  }

  lemma PageSetMembers(phases: seq<TracePhase>, i: nat, page: nat)
    requires i < |phases| && page in phases[i].accesses
    ensures var access := phases[i].accesses[page];
            && (page in ReadSet(phases[i]) <==> access.IsRead())
            && (page in WriteSet(phases[i]) <==> access.IsWrite())
            && (page in NewReadSet(phases, i)
                <==> access.IsRead() && forall j :: 0 <= j < i ==> page !in phases[j].accesses)
            && (page in DeadWriteSet(phases, i)
                <==> access.IsWrite() && forall j :: i < j < |phases| ==> !ReadsPage(phases[j], page))
  {
  }

  lemma CountOne(s: set<nat>, rest: set<nat>, page: nat)
    requires page in rest
    ensures |s - (rest - {page})| == |s - rest| + if page in s then 1 else 0
  {
    if page in s {
      assert s - (rest - {page}) == (s - rest) + {page};
    } else {
      assert s - (rest - {page}) == s - rest;
    }
  }

  // ---- First reads and dead writes over all phases

  /** The earliest phase that accesses the page; |phases| if none does. */
  function FirstAccess(phases: seq<TracePhase>, page: nat): nat {
    if phases == [] || page in phases[0].accesses then 0 else 1 + FirstAccess(phases[1..], page)
  }

  /** The last phase that reads the page; -1 if none does. */
  function LastReading(phases: seq<TracePhase>, page: nat): int {
    if phases == [] then -1
    else if ReadsPage(Last(phases), page) then |phases| - 1
    else LastReading(Init(phases), page)
  }

  lemma {:induction false} FirstAccessIsFirst(phases: seq<TracePhase>, page: nat)
    ensures var f := FirstAccess(phases, page);
            && f <= |phases|
            && (f < |phases| ==> page in phases[f].accesses)
            && forall j :: 0 <= j < f ==> page !in phases[j].accesses
  {
    if phases != [] && page !in phases[0].accesses {
      FirstAccessIsFirst(phases[1..], page);
      var f := FirstAccess(phases, page);
      assert forall j :: 0 < j < f ==> phases[j] == phases[1..][j - 1];
    }
  }

  lemma {:induction false} LastReadingIsLast(phases: seq<TracePhase>, page: nat)
    ensures var r := LastReading(phases, page);
            && -1 <= r < |phases|
            && (r >= 0 ==> ReadsPage(phases[r], page))
            && forall j :: r < j < |phases| ==> !ReadsPage(phases[j], page)
  {
    if phases != [] && !ReadsPage(Last(phases), page) {
      LastReadingIsLast(Init(phases), page);
    }
  }

  /** A page is a new read in its earliest accessing phase, if that phase reads
      it, and in no other. */
  lemma NewReadOnlyAtFirstAccess(phases: seq<TracePhase>, i: nat, page: nat)
    requires i < |phases|
    ensures page in NewReadSet(phases, i) <==> i == FirstAccess(phases, page) && ReadsPage(phases[i], page)
  {
    FirstAccessIsFirst(phases, page);
  }

  /** A write is dead exactly in the writing phases at or after the last reading
      phase. */
  lemma DeadFromLastReading(phases: seq<TracePhase>, i: nat, page: nat)
    requires i < |phases|
    ensures page in DeadWriteSet(phases, i) <==> WritesPage(phases[i], page) && i >= LastReading(phases, page)
  {
    LastReadingIsLast(phases, page);
  }

  /** The dead writes of a page form a suffix of its writes, which reaches up to
      the final phase. */
  lemma DeadWritesAreASuffix(phases: seq<TracePhase>, i: nat, j: nat, page: nat)
    requires i <= j < |phases| && WritesPage(phases[j], page)
    ensures page in DeadWriteSet(phases, i) ==> page in DeadWriteSet(phases, j)
    ensures j == |phases| - 1 ==> page in DeadWriteSet(phases, j)
  {
    DeadFromLastReading(phases, i, page);
    DeadFromLastReading(phases, j, page);
    LastReadingIsLast(phases, page);
  }

  function NewReadTotal(phases: seq<TracePhase>, upTo: nat): nat
    requires upTo <= |phases|
  {
    if upTo == 0 then 0 else NewReadTotal(phases, upTo - 1) + |NewReadSet(phases, upTo - 1)|
  }

  /** The pages whose earliest accessing phase is below the bound and reads them. */
  function FirstReadPages(phases: seq<TracePhase>, upTo: nat): set<nat>
    requires upTo <= |phases|
  {
    set i, page | 0 <= i < upTo && page in phases[i].accesses
                  && FirstAccess(phases, page) == i && ReadsPage(phases[i], page) :: page
  }

  /** The new-read counts add up to the number of pages first accessed by a read:
      nothing is counted twice. */
  lemma {:induction false} NewReadsAddUp(phases: seq<TracePhase>, upTo: nat)
    requires upTo <= |phases|
    ensures NewReadTotal(phases, upTo) == |FirstReadPages(phases, upTo)|
  {
    if upTo > 0 {
      hide FirstAccess, ReadsPage, FirstReadPages, NewReadSet;
      NewReadsAddUp(phases, upTo - 1);
      var before, added := FirstReadPages(phases, upTo - 1), NewReadSet(phases, upTo - 1);
      forall page: nat
        ensures page in added <==> page in FirstReadPages(phases, upTo) && page !in before
        ensures page in before ==> page in FirstReadPages(phases, upTo)
      {
        NewReadOnlyAtFirstAccess(phases, upTo - 1, page);
        FirstReadMember(phases, upTo, page);
        FirstReadMember(phases, upTo - 1, page);
      }
      DisjointSum(before, added, FirstReadPages(phases, upTo));
    } else {
      assert FirstReadPages(phases, 0) == {};
    }
  }

  lemma FirstReadMember(phases: seq<TracePhase>, upTo: nat, page: nat)
    requires upTo <= |phases|
    ensures page in FirstReadPages(phases, upTo)
            <==> FirstAccess(phases, page) < upTo && ReadsPage(phases[FirstAccess(phases, page)], page)
  {
    hide FirstAccess;
  }

  lemma DisjointSum(a: set<nat>, b: set<nat>, c: set<nat>)
    requires forall page :: (page in b <==> page in c && page !in a) && (page in a ==> page in c)
    ensures |c| == |a| + |b|
  {
    assert c == a + b && a !! b;
  }

  lemma NewReadKeys(phases: seq<TracePhase>, i: nat, page: nat)
    requires i < |phases|
    ensures page in NewReadSet(phases, i) ==> page in phases[i].accesses
    ensures ReadsPage(phases[i], page) ==> page in phases[i].accesses
  {
  }
}
