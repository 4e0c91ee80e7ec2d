/**
 The log between the NearMAP tracer and its analyser. The analyser rebuilds the
 exact list of phases from the text the tracer wrote: the lemmas of this module
 say what that list is in terms of the raw events, and when the round trip
 works.
 */
module NearMapLog {
  import opened Wrappers
  import opened Text
  import opened NearMapTracer
  import opened NearMapIndex
  import A = NearMapAnalyser

  // ---- The phases of a run, from its raw events

  /** The accesses the log claims for phase number i: in the first phase every
      touched page is both read and written. */
  function PhaseAccesses(log2: nat, i: nat, slice: seq<Event>): map<nat, A.AccessType> {
    map page | page in TouchedPages(log2, slice) ::
      if i == 0 then A.ReadWrite
      else if page !in WrittenPages(log2, slice) then A.Read
      else if page !in ReadPages(log2, slice) then A.Write
      else A.ReadWrite
  }

  function InstructionTotal(events: seq<Event>): nat {
    if events == [] then 0
    else InstructionTotal(Init(events)) + if Last(events).Bbl? then Last(events).instructions else 0
  }

  function IoTotal(events: seq<Event>): nat {
    if events == [] then 0
    else IoTotal(Init(events)) + if Last(events).Io? then Last(events).bytes else 0
  }

  /** The name the open phase will get: that of the last phase event. */
  function OpenName(events: seq<Event>): string {
    if events == [] then "pre-main"
    else if Last(events).Phase? then Last(events).name
    else OpenName(Init(events))
  }

  function OpenPhase(log2: nat, events: seq<Event>): A.TracePhase {
    A.TracePhase(OpenName(events), Pow2(log2), OpenStart(events),
                 Wrap64(InstructionTotal(Tail(events))), Wrap64(IoTotal(Tail(events))),
                 PhaseAccesses(log2, |Slices(events)|, Tail(events)))
  }

  function ExpectedPhases(log2: nat, events: seq<Event>): seq<A.TracePhase> {
    if events == [] then []
    else if Last(events).Phase? then ExpectedPhases(log2, Init(events)) + [OpenPhase(log2, Init(events))]
    else ExpectedPhases(log2, Init(events))
  }

  predicate CleanName(name: string) {
    ';' !in name && '\n' !in name
  }

  predicate CleanNames(events: seq<Event>) {
    forall i :: 0 <= i < |events| && events[i].Phase? ==> CleanName(events[i].name)
  }

  function LogText(log2: nat, events: seq<Event>): string {
    Unlines(Run(log2, events).log)
  }

  // ---- Clean records

  predicate Plain(s: string) {
    ';' !in s && '\n' !in s
  }

  lemma DecimalPlain(n: nat)
    ensures Plain(Decimal(n)) && |Decimal(n)| > 0 && Last(Decimal(n)) != '\r'
  {
    DecimalDigits(n);
    var d := Decimal(n);
    forall i | 0 <= i < |d| ensures d[i] != ';' && d[i] != '\n' && d[i] != '\r' {
      assert IsDigit(d[i]);
    }
  }

  lemma PageSizePlain(log2: nat)
    ensures Plain(PageSizeText(log2))
  {
    if log2 < 31 {
      DecimalPlain(Pow2(log2));
    }
  }

  lemma FieldNoNewline(s: string, rest: string)
    requires '\n' !in s && '\n' !in rest
    ensures '\n' !in Field(s, rest)
  {
  }

  lemma FieldEnd(s: string, rest: string)
    ensures |Field(s, rest)| > 0 && Last(Field(s, rest)) == if rest == "" then ';' else Last(rest)
  {
  }

  lemma FieldClean(s: string, rest: string)
    requires '\n' !in s && CleanLine(rest)
    ensures CleanLine(Field(s, rest))
  {
    FieldNoNewline(s, rest);
    FieldEnd(s, rest);
  }

  lemma DecimalClean(n: nat)
    ensures CleanLine(Decimal(n)) && '\n' !in Decimal(n)
  {
    DecimalPlain(n);
  }

  lemma PhaseRecordClean(log2: nat, start: nat, end: nat, name: string, instructions: nat, ioBytes: nat)
    requires '\n' !in name
    ensures CleanLine(PhaseRecord(log2, start, end, name, instructions, ioBytes))
  {
    hide Field, CleanLine, Decimal, PageSizeText;
    DecimalClean(start);
    DecimalClean(end);
    DecimalClean(instructions);
    DecimalClean(ioBytes);
    PageSizePlain(log2);
    var f6 := Field(Decimal(instructions), Decimal(ioBytes));
    FieldClean(Decimal(instructions), Decimal(ioBytes));
    FieldClean(name, f6);
    FieldClean(Decimal(end), Field(name, f6));
    FieldClean(Decimal(start), Field(Decimal(end), Field(name, f6)));
    FieldClean(PageSizeText(log2), Field(Decimal(start), Field(Decimal(end), Field(name, f6))));
    FieldClean("phase", Field(PageSizeText(log2), Field(Decimal(start), Field(Decimal(end), Field(name, f6)))));
  }

  lemma LettersPlain(rw: RWTime, start: nat, end: nat)
    ensures Plain(Letters(rw, start, end))
    ensures 'R' in Letters(rw, start, end) <==> DidRead(rw, start, end)
    ensures 'W' in Letters(rw, start, end) <==> DidWrite(rw, start, end)
  {
    var r := if DidRead(rw, start, end) then "R" else "";
    var w := if DidWrite(rw, start, end) then "W" else "";
    assert Letters(rw, start, end) == r + w;
    assert forall c :: c in r + w <==> c in r || c in w;
  }

  lemma TraceRecordClean(rw: RWTime, page: nat, start: nat, end: nat)
    ensures CleanLine(TraceRecord(rw, page, start, end))
  {
    hide Field, CleanLine, Decimal, Letters;
    DecimalClean(start);
    DecimalClean(end);
    DecimalClean(page);
    LettersPlain(rw, start, end);
    EmptyClean();
    var f6 := Field(Letters(rw, start, end), "");
    FieldClean(Letters(rw, start, end), "");
    FieldClean(Decimal(page), f6);
    FieldClean(Decimal(end), Field(Decimal(page), f6));
    FieldClean(Decimal(start), Field(Decimal(end), Field(Decimal(page), f6)));
    FieldClean("", Field(Decimal(start), Field(Decimal(end), Field(Decimal(page), f6))));
    FieldClean("trace", Field("", Field(Decimal(start), Field(Decimal(end), Field(Decimal(page), f6)))));
  }

  lemma EmptyClean()
    ensures CleanLine("")
  {
  }

  lemma SummaryRecordClean(t: Tally)
    ensures CleanLine(SummaryRecord(t))
  {
    hide Field, CleanLine, Decimal;
    var total := t.ro + t.rw + t.wo;
    DecimalClean(t.ro);
    DecimalClean(t.rw);
    DecimalClean(t.wo);
    DecimalClean(total);
    FieldClean(Decimal(t.wo), Decimal(total));
    FieldClean(Decimal(t.rw), Field(Decimal(t.wo), Decimal(total)));
    FieldClean(Decimal(t.ro), Field(Decimal(t.rw), Field(Decimal(t.wo), Decimal(total))));
    FieldClean("summary-ro-rw-wo-tot-insn",
               Field(Decimal(t.ro), Field(Decimal(t.rw), Field(Decimal(t.wo), Decimal(total)))));
  }

  predicate CleanLines(lines: seq<string>) {
    forall i :: 0 <= i < |lines| ==> CleanLine(lines[i])
  }

  lemma {:induction false} TraceRecordsClean(pages: map<nat, RWTime>, order: seq<nat>, start: nat, end: nat)
    ensures CleanLines(TraceRecords(pages, order, start, end))
  {
    hide TraceRecord, CleanLine;
    if order != [] {
      TraceRecordsClean(pages, Init(order), start, end);
      TraceRecordClean(Lookup(pages, Last(order)), Last(order), start, end);
    }
  }

  lemma {:induction false} LogClean(log2: nat, events: seq<Event>)
    requires CleanNames(events)
    ensures CleanLines(Run(log2, events).log)
  {
    hide CleanLine, TraceRecords, PhaseRecord, SummaryRecord, Count;
    if events != [] {
      LogClean(log2, Init(events));
      var s := Run(log2, Init(events));
      match Last(events)
      case Phase(name, order) =>
        assert CleanName(events[|events| - 1].name);
        var start, end := Last(s.phaseTimes), Wrap64(s.time + 1);
        PhaseRecordClean(log2, start, end, name, s.instructions, s.ioBytes);
        TraceRecordsClean(s.pages, order, start, end);
        SummaryRecordClean(Count(s.pages, order, start, end));
      case Note(isIoStub) =>
        NoteClean(isIoStub);
      case _ =>
    }
  }

  lemma NoteClean(isIoStub: bool)
    ensures CleanLine(NoteRecord(isIoStub))
  {
  }

  // ---- Parsing one record

  /** The part of a phase line before the name. */
  function Header(log2: nat, start: nat, end: nat, rest: string): string {
    Field("phase", Field(PageSizeText(log2), Field(Decimal(start), Field(Decimal(end), rest))))
  }

  lemma HeaderFields(log2: nat, start: nat, end: nat, rest: string)
    ensures Split(Header(log2, start, end, rest), ';')
            == ["phase", PageSizeText(log2), Decimal(start), Decimal(end)] + Split(rest, ';')
  {
    hide Field, Split, Decimal, PageSizeText;
    PageSizePlain(log2);
    DecimalPlain(start);
    DecimalPlain(end);
    SplitField(Decimal(end), rest);
    SplitField(Decimal(start), Field(Decimal(end), rest));
    SplitField(PageSizeText(log2), Field(Decimal(start), Field(Decimal(end), rest)));
    SplitField("phase", Field(PageSizeText(log2), Field(Decimal(start), Field(Decimal(end), rest))));
  }

  lemma PhasePrefix(rest: string)
    ensures A.IsPhaseLine(Field("phase", rest)) && !A.IsTraceLine(Field("phase", rest))
  {
    assert Field("phase", rest)[..6] == "phase;";
    assert Field("phase", rest)[0] == 'p';
    assert "trace;"[0] == 't';
  }

  lemma TracePrefix(rest: string)
    ensures A.IsTraceLine(Field("trace", rest))
  {
    assert Field("trace", rest)[..6] == "trace;";
  }

  lemma Pow2Fits(log2: nat)
    requires log2 <= 31
    ensures Pow2(log2) <= TWO31
  {
    Pow2Monotone(log2, 31);
  }

  /** The fields of a phase line, in their order. */
  lemma PhaseRecordFields(log2: nat, start: nat, end: nat, name: string, instructions: nat, ioBytes: nat)
    requires ';' !in name
    ensures Split(PhaseRecord(log2, start, end, name, instructions, ioBytes), ';')
         == ["phase", PageSizeText(log2), Decimal(start), Decimal(end), name, Decimal(instructions), Decimal(ioBytes)]
  {
    hide Field, Split, Decimal, PageSizeText;
    var i, o := Decimal(instructions), Decimal(ioBytes);
    DecimalPlain(instructions);
    DecimalPlain(ioBytes);
    SplitPlain(o);
    SplitField(i, o);
    SplitField(name, Field(i, o));
    HeaderFields(log2, start, end, Field(name, Field(i, o)));
  }

  lemma ParsePhaseRecord(p: A.Parser, log2: nat, start: nat, end: nat, name: string, instructions: nat, ioBytes: nat)
    requires log2 <= 30 && ';' !in name
    requires start < TWO64 && end < TWO64 && instructions < TWO64 && ioBytes < TWO64
    ensures A.ParseLine(p, PhaseRecord(log2, start, end, name, instructions, ioBytes))
            == Some(A.Parser(p.phases + [A.TracePhase(p.nextPhase, Pow2(log2), start, instructions, ioBytes, map[])], name))
  {
    hide Field, Split, Decimal, Pow2, ParseU64, A.IsPhaseLine, A.IsTraceLine;
    var i, o := Decimal(instructions), Decimal(ioBytes);
    PhaseRecordFields(log2, start, end, name, instructions, ioBytes);
    PhasePrefix(Field(PageSizeText(log2), Field(Decimal(start), Field(Decimal(end), Field(name, Field(i, o))))));
    Pow2Fits(log2);
    DecimalRoundTrip(Pow2(log2));
    DecimalRoundTrip(start);
    DecimalRoundTrip(end);
    DecimalRoundTrip(instructions);
    DecimalRoundTrip(ioBytes);
  }

  /** A phase line of the older form, without counters, is read as one with zeros. */
  lemma OldPhaseLine(p: A.Parser, log2: nat, start: nat, end: nat, name: string)
    requires log2 <= 30 && ';' !in name && start < TWO64 && end < TWO64
    ensures A.ParseLine(p, Header(log2, start, end, name))
            == Some(A.Parser(p.phases + [A.TracePhase(p.nextPhase, Pow2(log2), start, 0, 0, map[])], name))
  {
    hide Field, Split, Decimal, Pow2, ParseU64, A.IsPhaseLine, A.IsTraceLine;
    SplitPlain(name);
    HeaderFields(log2, start, end, name);
    PhasePrefix(Field(PageSizeText(log2), Field(Decimal(start), Field(Decimal(end), name))));
    Pow2Fits(log2);
    DecimalRoundTrip(Pow2(log2));
    DecimalRoundTrip(start);
    DecimalRoundTrip(end);
    DecimalRoundTrip(0);
    DecimalByDigits(0, 0);
    assert "0" == ["0123456789"[0]];
  }

  function ClaimOf(rw: RWTime, start: nat, end: nat): Option<A.AccessType> {
    A.TryFromRw(DidRead(rw, start, end), DidWrite(rw, start, end))
  }

  /** The parser after one more access of the phase read last. */
  function Record(p: A.Parser, page: nat, access: A.AccessType): A.Parser
    requires p.phases != []
  {
    var last := Last(p.phases);
    p.(phases := Init(p.phases) + [last.(accesses := last.accesses[page := access])])
  }

  /** The fields of a trace line, in their order. */
  lemma TraceRecordFields(rw: RWTime, page: nat, start: nat, end: nat)
    ensures Split(TraceRecord(rw, page, start, end), ';')
         == ["trace", "", Decimal(start), Decimal(end), Decimal(page),
             (if DidRead(rw, start, end) then "R" else "") + (if DidWrite(rw, start, end) then "W" else ""), ""]
  {
    hide Field, Split, Decimal, DidRead, DidWrite;
    var letters := Letters(rw, start, end);
    DecimalPlain(start);
    DecimalPlain(end);
    DecimalPlain(page);
    LettersPlain(rw, start, end);
    SplitPlain("");
    SplitField(letters, "");
    SplitField(Decimal(page), Field(letters, ""));
    SplitField(Decimal(end), Field(Decimal(page), Field(letters, "")));
    SplitField(Decimal(start), Field(Decimal(end), Field(Decimal(page), Field(letters, ""))));
    var rest := Field(Decimal(start), Field(Decimal(end), Field(Decimal(page), Field(letters, ""))));
    SplitField("", rest);
    SplitField("trace", Field("", rest));
  }

  /** The fields of a summary line: pages only read, both, only written, and all. */
  lemma SummaryRecordFields(t: Tally)
    ensures Split(SummaryRecord(t), ';')
         == ["summary-ro-rw-wo-tot-insn", Decimal(t.ro), Decimal(t.rw), Decimal(t.wo), Decimal(t.ro + t.rw + t.wo)]
  {
    hide Field, Split, Decimal;
    var total := Decimal(t.ro + t.rw + t.wo);
    DecimalPlain(t.ro);
    DecimalPlain(t.rw);
    DecimalPlain(t.wo);
    DecimalPlain(t.ro + t.rw + t.wo);
    SplitPlain(total);
    SplitField(Decimal(t.wo), total);
    SplitField(Decimal(t.rw), Field(Decimal(t.wo), total));
    SplitField(Decimal(t.ro), Field(Decimal(t.rw), Field(Decimal(t.wo), total)));
    SplitField("summary-ro-rw-wo-tot-insn", Field(Decimal(t.ro), Field(Decimal(t.rw), Field(Decimal(t.wo), total))));
  }

  lemma ParseTraceRecord(p: A.Parser, rw: RWTime, page: nat, start: nat, end: nat)
    requires p.phases != [] && page < TWO64
    requires DidRead(rw, start, end) || DidWrite(rw, start, end)
    ensures A.ParseLine(p, TraceRecord(rw, page, start, end)) == Some(Record(p, page, ClaimOf(rw, start, end).value))
  {
    hide Field, Split, Decimal, ParseU64, A.IsTraceLine, DidRead, DidWrite;
    TraceRecordFields(rw, page, start, end);
    TracePrefix(Field("", Field(Decimal(start), Field(Decimal(end), Field(Decimal(page),
      Field(Letters(rw, start, end), ""))))));
    DecimalRoundTrip(page);
  }

  lemma SummaryIgnored(p: A.Parser, t: Tally)
    ensures A.ParseLine(p, SummaryRecord(t)) == Some(p)
  {
    hide Decimal;
    assert SummaryRecord(t)[0] == 's';
  }

  lemma NoteIgnored(p: A.Parser, isIoStub: bool)
    ensures A.ParseLine(p, NoteRecord(isIoStub)) == Some(p)
  {
    assert NoteRecord(isIoStub)[0] == if isIoStub then 'I' else 'P';
  }

  // ---- Parsing the records of a phase

  /** The accesses the trace records of a phase claim. */
  function Claims(pages: map<nat, RWTime>, order: seq<nat>, start: nat, end: nat): map<nat, A.AccessType> {
    if order == [] then map[]
    else
      var front, page := Claims(pages, Init(order), start, end), Last(order);
      match ClaimOf(Lookup(pages, page), start, end)
      case None => front
      case Some(access) => front[page := access]
  }

  lemma {:induction false} ParseTraceRecords(p: A.Parser, phase: A.TracePhase, pages: map<nat, RWTime>, order: seq<nat>,
                                             start: nat, end: nat)
    requires p.phases != [] && Last(p.phases) == phase && phase.accesses == map[]
    requires forall page :: page in order ==> page < TWO64
    ensures A.ParseFrom(Some(p), TraceRecords(pages, order, start, end))
            == Some(p.(phases := Init(p.phases) + [phase.(accesses := Claims(pages, order, start, end))]))
  {
    hide A.ParseLine, TraceRecord, DidRead, DidWrite;
    if order == [] {
      assert p.phases == Init(p.phases) + [phase];
    } else {
      var front, page := Init(order), Last(order);
      assert page == order[|order| - 1];
      forall other | other in front ensures other < TWO64 {
        assert other in order;
      }
      assert page in order;
      ParseTraceRecords(p, phase, pages, front, start, end);
      var rw := Lookup(pages, page);
      if DidRead(rw, start, end) || DidWrite(rw, start, end) {
        var q := p.(phases := Init(p.phases) + [phase.(accesses := Claims(pages, front, start, end))]);
        assert Init(q.phases) == Init(p.phases);
        ParseTraceRecord(q, rw, page, start, end);
        var records := TraceRecords(pages, order, start, end);
        assert Init(records) == TraceRecords(pages, front, start, end);
      }
    }
  }

  lemma {:induction false} ClaimsLookup(pages: map<nat, RWTime>, order: seq<nat>, start: nat, end: nat, page: nat)
    ensures var claims, claim := Claims(pages, order, start, end), ClaimOf(Lookup(pages, page), start, end);
            && (page in claims <==> page in order && claim.Some?)
            && (page in claims ==> claims[page] == claim.value)
  {
    hide DidRead, DidWrite;
    if order != [] {
      ClaimsLookup(pages, Init(order), start, end, page);
      assert order == Init(order) + [Last(order)];
    }
  }

  /** What the log claims about a phase is what its raw events say. */
  lemma ClaimsAreExact(log2: nat, events: seq<Event>, order: seq<nat>)
    requires ValidRun(log2, events) && Enumerates(order, Run(log2, events).pages.Keys)
    ensures var s := Run(log2, events);
            Claims(s.pages, order, Last(s.phaseTimes), s.time + 1)
            == PhaseAccesses(log2, |Slices(events)|, Tail(events))
  {
    hide Run, DidRead, DidWrite, ReadPages, WrittenPages, Claims, ValidRun;
    var s := Run(log2, events);
    var start, end := Last(s.phaseTimes), s.time + 1;
    var claims, expected := Claims(s.pages, order, start, end), PhaseAccesses(log2, |Slices(events)|, Tail(events));
    forall page: nat
      ensures page in claims <==> page in expected
      ensures page in claims ==> claims[page] == expected[page]
    {
      ClaimsLookup(s.pages, order, start, end, page);
      IndexExactAtPhaseEnd(log2, events, page);
    }
  }

  // ---- The round trip

  lemma WrapSum(a: nat, b: nat)
    ensures Wrap64(Wrap64(a) + b) == Wrap64(a + b)
  {
    var q, r := a / 0x1_0000_0000_0000_0000, Wrap64(a) + b;
    assert a + b == r + 0x1_0000_0000_0000_0000 * q;
    WrapShift(r, q);
  }

  lemma WrapShift(r: nat, q: nat)
    ensures Wrap64(r + 0x1_0000_0000_0000_0000 * q) == Wrap64(r)
  {
  }

  lemma {:induction false} OpenCounters(log2: nat, events: seq<Event>)
    ensures var s := Run(log2, events);
            && s.instructions == Wrap64(InstructionTotal(Tail(events)))
            && s.ioBytes == Wrap64(IoTotal(Tail(events)))
  {
    hide Step, Wrap64;
    WrapZero();
    if events != [] {
      var front, e := Init(events), Last(events);
      var tail := Tail(front);
      CountersStep(log2, Run(log2, front), e);
      OpenCounters(log2, front);
      assert Tail(events) == if e.Phase? then [] else tail + [e];
      assert Init(tail + [e]) == tail;
      if e.Bbl? {
        WrapSum(InstructionTotal(tail), e.instructions);
      } else if e.Io? {
        WrapSum(IoTotal(tail), e.bytes);
      }
    }
  }

  lemma CountersStep(log2: nat, s: State, e: Event)
    requires |s.phaseTimes| > 0
    ensures var r := Step(log2, s, e);
            && r.instructions
               == (if e.Phase? then 0 else if e.Bbl? then Wrap64(s.instructions + e.instructions) else s.instructions)
            && r.ioBytes == (if e.Phase? then 0 else if e.Io? then Wrap64(s.ioBytes + e.bytes) else s.ioBytes)
  {
    hide PhaseRecords, NoteRecord, Touch, Wrap64;
  }

  lemma WrapZero()
    ensures Wrap64(0) == 0
  {
  }

  lemma {:induction false} ShiftShrinks(x: nat, k: nat)
    ensures Shift(x, k) <= x
  {
    if k > 0 {
      ShiftShrinks(x / 2, k - 1);
    }
  }

  lemma {:induction false} AccessedPagesFit(log2: nat, events: seq<Event>, isWrite: bool, page: nat)
    requires ValidRun(log2, events) && page in AccessedPages(log2, events, isWrite)
    ensures page < TWO64
  {
    hide Run, Shift, Enumerates;
    if page in AccessedPages(log2, Init(events), isWrite) {
      AccessedPagesFit(log2, Init(events), isWrite, page);
    } else {
      var e := Last(events);
      var b :| e.addr <= b < e.addr + e.size && Shift(b, log2) == page;
      ShiftShrinks(b, log2);
    }
  }

  lemma PagesFit(log2: nat, events: seq<Event>, page: nat)
    requires ValidRun(log2, events) && page in Run(log2, events).pages
    ensures page < TWO64
  {
    hide Run, AccessedPages, ValidRun;
    KeysAreTouched(log2, events, page);
    AccessedPagesFit(log2, events, page in WrittenPages(log2, events), page);
  }

  /** The records of one phase add exactly the phase its raw events describe. */
  lemma ParsePhaseRecords(log2: nat, events: seq<Event>, p: A.Parser, name: string, order: seq<nat>)
    requires ValidRun(log2, events) && |events| + 1 < TWO64 && log2 <= 30 && ';' !in name
    requires Enumerates(order, Run(log2, events).pages.Keys)
    requires p.nextPhase == OpenName(events)
    ensures A.ParseFrom(Some(p), PhaseRecords(log2, Run(log2, events), name, order))
            == Some(A.Parser(p.phases + [OpenPhase(log2, events)], name))
  {
    hide Run, A.ParseLine, TraceRecords, PhaseRecord, SummaryRecord, Count, Claims, PhaseAccesses, ValidRun;
    var s := Run(log2, events);
    var start, end := Last(s.phaseTimes), Wrap64(s.time + 1);
    ClockCounts(log2, events);
    OpenCounters(log2, events);
    assert end == s.time + 1;
    var phase := A.TracePhase(p.nextPhase, Pow2(log2), start, s.instructions, s.ioBytes, map[]);
    var q := A.Parser(p.phases + [phase], name);
    var record, traces := PhaseRecord(log2, start, end, name, s.instructions, s.ioBytes), TraceRecords(s.pages, order, start, end);
    var summary := SummaryRecord(Count(s.pages, order, start, end));
    ParsePhaseRecord(p, log2, start, end, name, s.instructions, s.ioBytes);
    A.ParseOne(p, record);
    forall page | page in order ensures page < TWO64 {
      PagesFit(log2, events, page);
    }
    ParseTraceRecords(q, phase, s.pages, order, start, end);
    assert Init(q.phases) == p.phases;
    ClaimsAreExact(log2, events, order);
    var r := A.Parser(p.phases + [OpenPhase(log2, events)], name);
    A.ParseAppend(Some(p), [record], traces + [summary]);
    A.ParseAppend(Some(q), traces, [summary]);
    A.ParseOne(r, summary);
    SummaryIgnored(r, Count(s.pages, order, start, end));
  }

  lemma {:induction false} ParsesRecords(log2: nat, events: seq<Event>)
    requires ValidRun(log2, events) && (log2 <= 30 || Slices(events) == []) && CleanNames(events)
    ensures A.ParseFrom(Some(A.InitialParser()), Run(log2, events).log)
            == Some(A.Parser(ExpectedPhases(log2, events), OpenName(events)))
  {
    hide PhaseRecords, NoteRecord, A.ParseLine, OpenPhase;
    if events != [] {
      var front, e := Init(events), Last(events);
      ParsesRecords(log2, front);
      var s, p := Run(log2, front), A.Parser(ExpectedPhases(log2, front), OpenName(front));
      match e
      case Phase(name, order) =>
        assert CleanName(events[|events| - 1].name);
        ParsePhaseRecords(log2, front, p, name, order);
        A.ParseAppend(Some(A.InitialParser()), s.log, PhaseRecords(log2, s, name, order));
      case Note(isIoStub) =>
        A.ParseAppend(Some(A.InitialParser()), s.log, [NoteRecord(isIoStub)]);
        A.ParseOne(p, NoteRecord(isIoStub));
        NoteIgnored(p, isIoStub);
      case _ =>
    }
  }

  /** For every run whose phase names hold no semicolon and no newline, and
      every page size up to 2^30, the analyser reads the exact list of phases
      back out of the text of the log. */
  lemma RoundTrip(log2: nat, events: seq<Event>)
    requires ValidRun(log2, events) && log2 <= 30 && CleanNames(events)
    ensures A.ParsePhases(LogText(log2, events)) == Some(ExpectedPhases(log2, events))
  {
    hide Run, Unlines, A.ParseFrom;
    var log := Run(log2, events).log;
    LogClean(log2, events);
    LinesUnlines(log, "");
    assert Unlines(log) + "" == Unlines(log);
    assert log + [] == log;
    ParsesRecords(log2, events);
  }

  // ---- When the round trip fails

  lemma StripField(s: string, rest: string)
    ensures StripCR(Field(s, rest)) == Field(s, StripCR(rest))
  {
    FieldEnd(s, rest);
    if rest != "" && Last(rest) == '\r' {
      assert Init(Field(s, rest)) == Field(s, Init(rest));
    }
  }

  lemma StripHeader(log2: nat, start: nat, end: nat, rest: string)
    ensures StripCR(Header(log2, start, end, rest)) == Header(log2, start, end, StripCR(rest))
  {
    hide Field, StripCR, Decimal, PageSizeText;
    StripField(Decimal(end), rest);
    StripField(Decimal(start), Field(Decimal(end), rest));
    StripField(PageSizeText(log2), Field(Decimal(start), Field(Decimal(end), rest)));
    StripField("phase", Field(PageSizeText(log2), Field(Decimal(start), Field(Decimal(end), rest))));
  }

  lemma HeaderNoNewline(log2: nat, start: nat, end: nat, rest: string)
    requires '\n' !in rest
    ensures '\n' !in Header(log2, start, end, rest)
  {
    hide Field, Decimal, PageSizeText;
    PageSizePlain(log2);
    DecimalPlain(start);
    DecimalPlain(end);
    FieldNoNewline(Decimal(end), rest);
    FieldNoNewline(Decimal(start), Field(Decimal(end), rest));
    FieldNoNewline(PageSizeText(log2), Field(Decimal(start), Field(Decimal(end), rest)));
    FieldNoNewline("phase", Field(PageSizeText(log2), Field(Decimal(start), Field(Decimal(end), rest))));
  }

  lemma FieldAppend(s: string, a: string, b: string)
    ensures Field(s, a) + b == Field(s, a + b)
  {
  }

  lemma HeaderAppend(log2: nat, start: nat, end: nat, a: string, b: string)
    ensures Header(log2, start, end, a) + b == Header(log2, start, end, a + b)
  {
    hide Field, Decimal, PageSizeText;
    FieldAppend(Decimal(end), a, b);
    FieldAppend(Decimal(start), Field(Decimal(end), a), b);
    FieldAppend(PageSizeText(log2), Field(Decimal(start), Field(Decimal(end), a)), b);
    FieldAppend("phase", Field(PageSizeText(log2), Field(Decimal(start), Field(Decimal(end), a))), b);
  }

  lemma NegativeNotParsed()
    ensures ParseU64("-2147483648") == None
  {
    assert "-2147483648"[0] == '-' && !IsDigit('-');
  }

  /** A phase line whose page size is negative does not parse, and one whose name
      is cut short leaves another name waiting. */
  lemma BadHeader(p: A.Parser, log2: nat, start: nat, end: nat, rest: string, name: string)
    requires log2 >= 31 || |Split(rest, ';')[0]| < |name|
    ensures var r := A.ParseLine(p, Header(log2, start, end, rest));
            r.Some? ==> log2 < 31 && |r.value.phases| == |p.phases| + 1 && r.value.nextPhase != name
  {
    hide Field, Split, Decimal, ParseU64, A.IsPhaseLine, A.IsTraceLine;
    HeaderFields(log2, start, end, rest);
    PhasePrefix(Field(PageSizeText(log2), Field(Decimal(start), Field(Decimal(end), rest))));
    NegativeNotParsed();
  }

  lemma SplitFirstShort(s: string, rest: string)
    requires ';' in s
    ensures |Split(s + rest, ';')[0]| < |s|
  {
    SplitFirst(s + rest);
    var k :| 0 <= k < |s| && s[k] == ';';
    assert (s + rest)[k] == ';';
    IndexOfAtMost(s + rest, ';', k);
  }

  lemma {:induction false} IndexOfAtMost(s: string, c: char, k: nat)
    requires k < |s| && s[k] == c
    ensures IndexOf(s, c) <= k
  {
    if s[0] != c {
      IndexOfAtMost(s[1..], c, k - 1);
    }
  }

  lemma SplitFirstLength(s: string)
    ensures |Split(s, ';')[0]| <= |s|
  {
    SplitFirst(s);
  }

  /** The first line the analyser sees of a phase record with a bad page size or
      a bad name. */
  lemma BadFirstLine(p: A.Parser, log2: nat, start: nat, end: nat, name: string, i: string, o: string, rest: string)
    returns (line: string, others: seq<string>)
    requires log2 >= 31 || !CleanName(name)
    requires CleanLine(i) && CleanLine(o)
    ensures Lines(Header(log2, start, end, Field(name, Field(i, o))) + "\n" + rest) == [line] + others
    ensures var r := A.ParseLine(p, line);
            r.Some? ==> log2 < 31 && |r.value.phases| == |p.phases| + 1 && r.value.nextPhase != name
  {
    hide Header, Split, A.ParseLine, CleanName, Lines;
    var tail := Field(name, Field(i, o));
    if '\n' in name {
      var j := IndexOf(name, '\n');
      var cut, after := name[..j], name[j + 1..];
      var more := after + ";" + Field(i, o);
      line, others := StripCR(Header(log2, start, end, cut)), Lines(more + "\n" + rest);
      assert name == cut + "\n" + after;
      NewlineInName(cut, after, i, o, rest);
      HeaderAppend(log2, start, end, tail, "\n" + rest);
      HeaderAppend(log2, start, end, cut, "\n" + (more + "\n" + rest));
      AppendAssoc(Header(log2, start, end, tail), "\n", rest);
      AppendAssoc(Header(log2, start, end, cut), "\n", more + "\n" + rest);
      HeaderNoNewline(log2, start, end, cut);
      LinesHead(Header(log2, start, end, cut), more + "\n" + rest);
      StripHeader(log2, start, end, cut);
      SplitFirstLength(StripCR(cut));
      BadHeader(p, log2, start, end, StripCR(cut), name);
    } else {
      line, others := Header(log2, start, end, tail), Lines(rest);
      FieldClean(i, o);
      FieldClean(name, Field(i, o));
      HeaderNoNewline(log2, start, end, tail);
      LinesHead(line, rest);
      StripHeader(log2, start, end, tail);
      if ';' in name {
        SplitFirstShort(name, ";" + Field(i, o));
        AppendAssoc(name, ";", Field(i, o));
      }
      assert log2 < 31 ==> ';' in name by {
        CleanNameParts(name);
      }
      BadHeader(p, log2, start, end, tail, name);
    }
  }

  lemma CleanNameParts(name: string)
    ensures CleanName(name) <==> ';' !in name && '\n' !in name
  {
  }

  lemma NewlineInName(cut: string, after: string, i: string, o: string, rest: string)
    ensures Field(cut + "\n" + after, Field(i, o)) + ("\n" + rest)
            == cut + ("\n" + ((after + ";" + Field(i, o)) + "\n" + rest))
  {
    hide Field;
    var f := Field(i, o);
    assert Field(cut + "\n" + after, f) == cut + "\n" + after + ";" + f by {
      FieldIs(cut + "\n" + after, f);
    }
  }

  lemma FieldIs(s: string, rest: string)
    ensures Field(s, rest) == s + ";" + rest
  {
  }

  /** Names once read are final, and the waiting name goes to the next phase. */
  lemma {:induction false} NamesAreFinal(p: A.Parser, lines: seq<string>)
    ensures var r := A.ParseFrom(Some(p), lines);
            r.Some? ==>
              && |r.value.phases| >= |p.phases|
              && (|r.value.phases| == |p.phases| ==> r.value.nextPhase == p.nextPhase)
              && (|r.value.phases| > |p.phases| ==> r.value.phases[|p.phases|].name == p.nextPhase)
  {
    hide Split, ParseU64, A.IsPhaseLine, A.IsTraceLine;
    if lines != [] {
      NamesAreFinal(p, Init(lines));
    }
  }

  lemma {:induction false} RunPrefix(log2: nat, events: seq<Event>, k: nat) returns (more: seq<string>)
    requires ValidRun(log2, events) && k <= |events|
    ensures ValidRun(log2, events[..k])
    ensures Run(log2, events).log == Run(log2, events[..k]).log + more
    ensures |ExpectedPhases(log2, events[..k])| <= |ExpectedPhases(log2, events)|
    ensures |ExpectedPhases(log2, events[..k])| < |ExpectedPhases(log2, events)| ==>
              ExpectedPhases(log2, events)[|ExpectedPhases(log2, events[..k])|].name == OpenName(events[..k])
    ensures |ExpectedPhases(log2, events[..k])| == |ExpectedPhases(log2, events)| ==>
              OpenName(events[..k]) == OpenName(events)
  {
    hide PhaseRecords, NoteRecord, PhaseAccesses, Enumerates;
    if k == |events| {
      assert events[..k] == events;
      more := [];
    } else {
      more := RunPrefix(log2, Init(events), k);
      assert Init(events)[..k] == events[..k];
      match Last(events)
      case Phase(name, order) => more := more + PhaseRecords(log2, Run(log2, Init(events)), name, order);
      case Note(isIoStub) => more := more + [NoteRecord(isIoStub)];
      case _ =>
    }
  }

  lemma {:induction false} ParseNothing(lines: seq<string>)
    ensures A.ParseFrom(None, lines) == None
  {
    if lines != [] {
      ParseNothing(Init(lines));
    }
  }

  /** The lines of a log in which a clean part is followed by a bad phase record. */
  lemma BadRecordLines(log2: nat, clean: seq<string>, s: State, name: string, rest: seq<string>, p: A.Parser)
    returns (line: string, others: seq<string>)
    requires |s.phaseTimes| > 0 && CleanLines(clean)
    requires log2 >= 31 || !CleanName(name)
    ensures var record := PhaseRecord(log2, Last(s.phaseTimes), Wrap64(s.time + 1), name, s.instructions, s.ioBytes);
            Lines(Unlines(clean + ([record] + rest))) == clean + ([line] + others)
    ensures var r := A.ParseLine(p, line);
            r.Some? ==> log2 < 31 && |r.value.phases| == |p.phases| + 1 && r.value.nextPhase != name
  {
    hide Field, Lines, A.ParseLine, CleanName, Decimal, CleanLine;
    var start, end, i, o := Last(s.phaseTimes), Wrap64(s.time + 1), Decimal(s.instructions), Decimal(s.ioBytes);
    var record := PhaseRecord(log2, start, end, name, s.instructions, s.ioBytes);
    DecimalClean(s.instructions);
    DecimalClean(s.ioBytes);
    line, others := BadFirstLine(p, log2, start, end, name, i, o, Unlines(rest));
    UnlinesAppend(clean, [record] + rest);
    UnlinesAppend([record], rest);
    UnlinesOne(record);
    LinesUnlines(clean, record + "\n" + Unlines(rest));
  }

  lemma UnlinesOne(record: string)
    ensures Unlines([record]) == record + "\n"
  {
    assert Init([record]) == [];
  }

  /** A run whose event k is the first phase event with a bad page size or a bad
      name: the analyser panics, or gets the name of the next phase wrong. */
  lemma BadPhaseBreaks(log2: nat, events: seq<Event>, k: nat)
    requires ValidRun(log2, events) && k < |events| && events[k].Phase?
    requires CleanNames(events[..k]) && (log2 <= 30 || Slices(events[..k]) == [])
    requires log2 >= 31 || !CleanName(events[k].name)
    requires log2 < 31 ==> |ExpectedPhases(log2, events[..k + 1])| < |ExpectedPhases(log2, events)|
    ensures A.ParsePhases(LogText(log2, events)) != Some(ExpectedPhases(log2, events))
  {
    hide PhaseRecord, SummaryRecords, Lines, Unlines, A.ParseLine, A.ParseFrom, CleanName, PhaseAccesses, ValidRun;
    hide Slices, CleanNames, CleanLine, Decimal, TraceRecords, A.ParsePhase, A.ParseTrace;
    var front, upTo, name := events[..k], events[..k + 1], events[k].name;
    assert Init(upTo) == front && Last(upTo) == events[k];
    var noMore := RunPrefix(log2, events, k);
    var more := RunPrefix(log2, events, k + 1);
    var s, p := Run(log2, front), A.Parser(ExpectedPhases(log2, front), OpenName(front));
    var records := PhaseRecords(log2, s, name, events[k].order);
    var rest := records[1..] + more;
    LogClean(log2, front);
    ParsesRecords(log2, front);
    var line, others := BadRecordLines(log2, s.log, s, name, rest, p);
    assert Run(log2, events).log == s.log + ([records[0]] + rest);
    var initial := Some(A.InitialParser());
    A.ParseAppend(initial, s.log, [line] + others);
    BadLineBreaks(p, line, others, name, ExpectedPhases(log2, events));
  }

  /** A first bad line is fatal, or leaves a wrong name waiting: the next phase, if one
      comes, gets it. */
  lemma BadLineBreaks(p: A.Parser, line: string, others: seq<string>, name: string, expected: seq<A.TracePhase>)
    requires var r := A.ParseLine(p, line);
             r.Some? ==>
               && |r.value.phases| == |p.phases| + 1 && r.value.nextPhase != name
               && |p.phases| + 1 < |expected| && expected[|p.phases| + 1].name == name
    ensures var end := A.ParseFrom(Some(p), [line] + others);
            end.Some? ==> end.value.phases != expected
  {
    hide A.ParseLine, A.ParseFrom;
    A.ParseAppend(Some(p), [line], others);
    A.ParseOne(p, line);
    var r := A.ParseLine(p, line);
    if r.None? {
      ParseNothing(others);
    } else {
      NamesAreFinal(r.value, others);
    }
  }

  predicate FinishedRun(events: seq<Event>) {
    events != [] && Last(events).Phase? && Last(events).name == "program-finish"
  }

  predicate BadPhase(log2: nat, e: Event) {
    e.Phase? && (log2 >= 31 || !CleanName(e.name))
  }

  lemma {:induction false} FirstBadPhase(log2: nat, events: seq<Event>, i: nat) returns (k: nat)
    requires i < |events| && BadPhase(log2, events[i])
    ensures k < |events| && BadPhase(log2, events[k])
    ensures forall j :: 0 <= j < k ==> !BadPhase(log2, events[j])
  {
    hide CleanName;
    if j :| 0 <= j < i && BadPhase(log2, events[j]) {
      k := FirstBadPhase(log2, events, j);
    } else {
      k := i;
    }
  }

  lemma FinishNameClean()
    ensures CleanName("program-finish")
  {
  }

  /** For a finished run the round trip gives back the exact list of phases if
      the page size is at most 2^30 and no phase name holds a semicolon or a
      newline, and in no other case. */
  lemma RoundTripExactly(log2: nat, events: seq<Event>)
    requires ValidRun(log2, events) && log2 <= 31 && FinishedRun(events)
    ensures A.ParsePhases(LogText(log2, events)) == Some(ExpectedPhases(log2, events))
            <==> log2 <= 30 && CleanNames(events)
  {
    hide LogText, A.ParsePhases, OpenPhase, CleanName, Enumerates, Run;
    FinishNameClean();
    if log2 <= 30 && CleanNames(events) {
      RoundTrip(log2, events);
    } else {
      var i := |events| - 1;
      if log2 <= 30 {
        i :| 0 <= i < |events| && events[i].Phase? && !CleanName(events[i].name);
      }
      var k := FirstBadPhase(log2, events, i);
      var front := events[..k];
      FirstPhaseTail(front);
      if log2 < 31 {
        assert k < |events| - 1;
        var more := RunPrefix(log2, Init(events), k + 1);
        assert Init(events)[..k + 1] == events[..k + 1];
      }
      BadPhaseBreaks(log2, events, k);
    }
  }

  // ---- Conservation

  function TotalInstructions(phases: seq<A.TracePhase>): nat {
    if phases == [] then 0 else TotalInstructions(Init(phases)) + Last(phases).instructions
  }

  function TotalIoBytes(phases: seq<A.TracePhase>): nat {
    if phases == [] then 0 else TotalIoBytes(Init(phases)) + Last(phases).ioBytes
  }

  /** What the last event adds to the phases and to the open phase. */
  lemma LastEvent(log2: nat, events: seq<Event>)
    requires events != []
    ensures var front, e := Init(events), Last(events);
            var open := OpenPhase(log2, front);
            && Tail(events) == (if e.Phase? then [] else Tail(front) + [e])
            && ExpectedPhases(log2, events) == ExpectedPhases(log2, front) + (if e.Phase? then [open] else [])
            && open.instructions == Wrap64(InstructionTotal(Tail(front)))
            && open.ioBytes == Wrap64(IoTotal(Tail(front)))
  {
  }

  lemma TotalsSnoc(phases: seq<A.TracePhase>, p: A.TracePhase)
    ensures TotalInstructions(phases + [p]) == TotalInstructions(phases) + p.instructions
    ensures TotalIoBytes(phases + [p]) == TotalIoBytes(phases) + p.ioBytes
  {
    assert Init(phases + [p]) == phases;
  }

  lemma EventTotalsSnoc(events: seq<Event>, e: Event)
    ensures InstructionTotal(events + [e]) == InstructionTotal(events) + if e.Bbl? then e.instructions else 0
    ensures IoTotal(events + [e]) == IoTotal(events) + if e.Io? then e.bytes else 0
  {
    assert Init(events + [e]) == events;
  }

  /** Instructions and IO bytes are neither lost nor counted twice: summed over
      the phases of the log and the phase still open they are those of all the
      calls, as 64-bit numbers. */
  lemma {:induction false} CountersAreConserved(log2: nat, events: seq<Event>)
    ensures Wrap64(TotalInstructions(ExpectedPhases(log2, events)) + InstructionTotal(Tail(events)))
            == Wrap64(InstructionTotal(events))
    ensures Wrap64(TotalIoBytes(ExpectedPhases(log2, events)) + IoTotal(Tail(events))) == Wrap64(IoTotal(events))
  {
    hide OpenPhase, Wrap64, ExpectedPhases, Tail, TotalInstructions, TotalIoBytes, InstructionTotal, IoTotal;
    if events == [] {
      NoEvents(log2);
    } else {
      var front, e, tail := Init(events), Last(events), Tail(Init(events));
      var phases, open := ExpectedPhases(log2, front), OpenPhase(log2, front);
      CountersAreConserved(log2, front);
      LastEvent(log2, events);
      assert front + [e] == events;
      EventTotalsSnoc(front, e);
      if e.Phase? {
        NoEvents(log2);
        TotalsSnoc(phases, open);
        WrapSum(InstructionTotal(tail), TotalInstructions(phases));
        WrapSum(IoTotal(tail), TotalIoBytes(phases));
      } else {
        assert phases + [] == phases;
        EventTotalsSnoc(tail, e);
        WrapMore(TotalInstructions(phases) + InstructionTotal(tail), InstructionTotal(front),
                 if e.Bbl? then e.instructions else 0);
        WrapMore(TotalIoBytes(phases) + IoTotal(tail), IoTotal(front), if e.Io? then e.bytes else 0);
      }
    }
  }

  lemma NoEvents(log2: nat)
    ensures ExpectedPhases(log2, []) == [] && Tail([]) == [] && TotalInstructions([]) == TotalIoBytes([]) == 0
    ensures InstructionTotal([]) == IoTotal([]) == 0
  {
  }

  lemma WrapMore(a: nat, b: nat, n: nat)
    requires Wrap64(a) == Wrap64(b)
    ensures Wrap64(a + n) == Wrap64(b + n)
  {
    WrapSum(a, n);
    WrapSum(b, n);
  }
}
