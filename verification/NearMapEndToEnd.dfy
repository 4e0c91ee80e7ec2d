/**
 From the raw events of a traced program to the table the analyser prints: every
 byte count of every row equals one defined directly on the events.
 */
module NearMapEndToEnd {
  import opened Wrappers
  import opened NearMapTracer
  import opened NearMapIndex
  import opened NearMapLog
  import A = NearMapAnalyser

  // ---- The table, from the raw events

  /** The first phase claims every touched page as read; later phases are exact. */
  function PagesReadIn(log2: nat, slices: seq<seq<Event>>, i: nat): set<nat>
    requires i < |slices|
  {
    if i == 0 then TouchedPages(log2, slices[0]) else ReadPages(log2, slices[i])
  }

  function PagesWrittenIn(log2: nat, slices: seq<seq<Event>>, i: nat): set<nat>
    requires i < |slices|
  {
    if i == 0 then TouchedPages(log2, slices[0]) else WrittenPages(log2, slices[i])
  }

  /** The pages some event of a later phase reads. */
  function PagesReadAfter(log2: nat, slices: seq<seq<Event>>, i: nat): set<nat> {
    set j, page | i < j < |slices| && page in ReadPages(log2, slices[j]) :: page
  }

  /** The pages some event of an earlier phase touches. */
  function PagesTouchedBefore(log2: nat, slices: seq<seq<Event>>, i: nat): set<nat> {
    set j, page | 0 <= j < i && j < |slices| && page in TouchedPages(log2, slices[j]) :: page
  }

  function PhaseNames(events: seq<Event>): seq<string> {
    if events == [] then []
    else if Last(events).Phase? then PhaseNames(Init(events)) + [Last(events).name]
    else PhaseNames(Init(events))
  }

  /** Row i of the table. The event that ends a phase names the phase after it,
      so the first row is called pre-main and the last name is never used. */
  function RawRow(log2: nat, events: seq<Event>, i: nat): A.Row
    requires i < |Slices(events)| == |PhaseNames(events)|
  {
    var slices, pageSize := Slices(events), Pow2(log2);
    A.Row(
      if i == 0 then "pre-main" else PhaseNames(events)[i - 1],
      pageSize,
      A.Bytes(PagesReadIn(log2, slices, i), pageSize),
      A.Bytes(PagesWrittenIn(log2, slices, i), pageSize),
      A.Bytes(PagesWrittenIn(log2, slices, i) - PagesReadAfter(log2, slices, i), pageSize),
      A.Bytes(PagesReadIn(log2, slices, i) - PagesTouchedBefore(log2, slices, i), pageSize),
      Wrap64(IoTotal(slices[i])),
      Wrap64(InstructionTotal(slices[i])))
  }

  // ---- The expected phases, one by one

  lemma {:induction false} NamesInOrder(events: seq<Event>)
    ensures |PhaseNames(events)| == |Slices(events)|
    ensures OpenName(events) == if PhaseNames(events) == [] then "pre-main" else Last(PhaseNames(events))
  {
    if events != [] {
      NamesInOrder(Init(events));
    }
  }

  lemma {:induction false} ExpectedPhaseAt(log2: nat, events: seq<Event>, i: nat)
    requires i < |Slices(events)|
    ensures |ExpectedPhases(log2, events)| == |Slices(events)| == |PhaseNames(events)|
    ensures var phase, slice := ExpectedPhases(log2, events)[i], Slices(events)[i];
            && phase.name == (if i == 0 then "pre-main" else PhaseNames(events)[i - 1])
            && phase.pageSize == Pow2(log2)
            && phase.instructions == Wrap64(InstructionTotal(slice))
            && phase.ioBytes == Wrap64(IoTotal(slice))
            && phase.accesses == PhaseAccesses(log2, i, slice)
  {
    hide PhaseAccesses, Tail, InstructionTotal, IoTotal, Pow2;
    SameLength(log2, events);
    NamesInOrder(events);
    var front := Init(events);
    SameLength(log2, front);
    NamesInOrder(front);
    if i < |Slices(front)| {
      ExpectedPhaseAt(log2, front, i);
    }
  }

  lemma {:induction false} SameLength(log2: nat, events: seq<Event>)
    ensures |ExpectedPhases(log2, events)| == |Slices(events)|
  {
    hide OpenPhase, Tail;
    if events != [] {
      SameLength(log2, Init(events));
    }
  }

  lemma AccessesMean(log2: nat, i: nat, slice: seq<Event>, phase: A.TracePhase, page: nat)
    requires phase.accesses == PhaseAccesses(log2, i, slice)
    ensures page in phase.accesses <==> page in TouchedPages(log2, slice)
    ensures A.ReadsPage(phase, page)
            <==> if i == 0 then page in TouchedPages(log2, slice) else page in ReadPages(log2, slice)
    ensures A.WritesPage(phase, page)
            <==> if i == 0 then page in TouchedPages(log2, slice) else page in WrittenPages(log2, slice)
  {
    hide AccessedPages;
  }

  lemma SetsMean(log2: nat, events: seq<Event>, i: nat, page: nat)
    requires i < |Slices(events)|
    ensures |ExpectedPhases(log2, events)| == |Slices(events)|
    ensures var phases, slices := ExpectedPhases(log2, events), Slices(events);
            && (page in A.ReadSet(phases[i]) <==> page in PagesReadIn(log2, slices, i))
            && (page in A.WriteSet(phases[i]) <==> page in PagesWrittenIn(log2, slices, i))
            && (page in A.DeadWriteSet(phases, i)
                <==> page in PagesWrittenIn(log2, slices, i) - PagesReadAfter(log2, slices, i))
            && (page in A.NewReadSet(phases, i)
                <==> page in PagesReadIn(log2, slices, i) - PagesTouchedBefore(log2, slices, i))
  {
    hide ExpectedPhases, Slices, PhaseAccesses, TouchedPages, ReadPages, WrittenPages, A.ReadsPage, A.WritesPage;
    var phases, slices := ExpectedPhases(log2, events), Slices(events);
    SameLength(log2, events);
    forall j | 0 <= j < |slices|
      ensures page in phases[j].accesses <==> page in TouchedPages(log2, slices[j])
      ensures A.ReadsPage(phases[j], page)
              <==> if j == 0 then page in TouchedPages(log2, slices[j]) else page in ReadPages(log2, slices[j])
      ensures A.WritesPage(phases[j], page)
              <==> if j == 0 then page in TouchedPages(log2, slices[j]) else page in WrittenPages(log2, slices[j])
    {
      ExpectedPhaseAt(log2, events, j);
      AccessesMean(log2, j, slices[j], phases[j], page);
    }
    A.NewReadKeys(phases, i, page);
    WriteKeys(phases[i], page);
  }

  lemma WriteKeys(phase: A.TracePhase, page: nat)
    ensures A.WritesPage(phase, page) ==> page in phase.accesses
  {
  }

  /** Reading the log of any finished run back and analysing it gives, row by
      row, the bytes read, written, dead-written and newly read that its raw
      events determine. */
  lemma AnalysisMatchesEvents(log2: nat, events: seq<Event>, i: nat)
    requires ValidRun(log2, events) && log2 <= 30 && CleanNames(events) && i < |Slices(events)|
    ensures |PhaseNames(events)| == |Slices(events)|
    ensures var parsed := A.ParsePhases(LogText(log2, events));
            && parsed.Some? && |parsed.value| == |Slices(events)|
            && A.RowOf(parsed.value, i) == RawRow(log2, events, i)
  {
    hide LogText, A.ParsePhases, PagesReadIn, PagesWrittenIn, PagesReadAfter, PagesTouchedBefore;
    hide A.ReadSet, A.WriteSet, A.NewReadSet, A.DeadWriteSet, ValidRun;
    hide ExpectedPhases, Slices, PhaseNames;
    RoundTrip(log2, events);
    ExpectedPhaseAt(log2, events, i);
    var phases, slices := ExpectedPhases(log2, events), Slices(events);
    forall page: nat
      ensures page in A.ReadSet(phases[i]) <==> page in PagesReadIn(log2, slices, i)
      ensures page in A.WriteSet(phases[i]) <==> page in PagesWrittenIn(log2, slices, i)
      ensures page in A.DeadWriteSet(phases, i)
              <==> page in PagesWrittenIn(log2, slices, i) - PagesReadAfter(log2, slices, i)
      ensures page in A.NewReadSet(phases, i)
              <==> page in PagesReadIn(log2, slices, i) - PagesTouchedBefore(log2, slices, i)
    {
      SetsMean(log2, events, i, page);
    }
    assert A.ReadSet(phases[i]) == PagesReadIn(log2, slices, i);
    assert A.WriteSet(phases[i]) == PagesWrittenIn(log2, slices, i);
    assert A.DeadWriteSet(phases, i) == PagesWrittenIn(log2, slices, i) - PagesReadAfter(log2, slices, i);
    assert A.NewReadSet(phases, i) == PagesReadIn(log2, slices, i) - PagesTouchedBefore(log2, slices, i);
  }
}
