/**
 The NearMAP tracer (pin-NearMAP/NearMAP.cpp): for every page it keeps only the
 time of the last read and the time of the last write, and at the end of each
 phase it writes the log records that claim which pages were read or written in
 that phase.

 The first half of the module is the tracer as a function on values, the class
 Tracer is its imperative form, and the rest proves what the two timestamps per
 page know about the full sequence of events.
 */
module NearMapTracer {
  import opened Wrappers
  import opened Text

  datatype RWTime = RWTime(lastRead: nat, lastWrite: nat)

  /** One call into the tracer. A phase event carries the order in which the
      page table happens to be iterated when the phase is summarised. */
  datatype Event =
    | Access(isWrite: bool, addr: nat, size: nat)
    | Bbl(instructions: nat)
    | Io(bytes: nat)
    | Phase(name: string, order: seq<nat>)
    | Note(isIoStub: bool)

  datatype State = State(
    time: nat,
    ioBytes: nat,
    instructions: nat,
    pages: map<nat, RWTime>,
    phaseTimes: seq<nat>,
    log: seq<string>)

  const INITIAL_STATE := State(0, 0, 0, map[], [0], [])

  // ---- Single calls

  /** The right shift that turns an address into a page number. */
  function Shift(x: nat, k: nat): nat {
    if k == 0 then x else Shift(x / 2, k - 1)
  }

  function FirstPage(log2: nat, addr: nat): nat {
    Shift(addr, log2)
  }

  function LastPage(log2: nat, addr: nat, size: nat): nat {
    Shift(Wrap64(addr + size - 1), log2)
  }

  function Stamp(rw: RWTime, time: nat, isWrite: bool): RWTime {
    if isWrite then rw.(lastWrite := time) else rw.(lastRead := time)
  }

  function Lookup(pages: map<nat, RWTime>, page: nat): RWTime {
    if page in pages then pages[page] else RWTime(0, 0)
  }

  /** The page table after every page in [lo, hi) was stamped. */
  function Touch(pages: map<nat, RWTime>, lo: nat, hi: nat, time: nat, isWrite: bool): map<nat, RWTime> {
    if hi <= lo then pages
    else
      var front := Touch(pages, lo, hi - 1, time, isWrite);
      front[hi - 1 := Stamp(Lookup(front, hi - 1), time, isWrite)]
  }

  predicate DidRead(rw: RWTime, start: nat, end: nat) {
    start <= rw.lastRead < end
  }

  predicate DidWrite(rw: RWTime, start: nat, end: nat) {
    start <= rw.lastWrite < end
  }

  function Letters(rw: RWTime, start: nat, end: nat): string {
    (if DidRead(rw, start, end) then "R" else "") + (if DidWrite(rw, start, end) then "W" else "")
  }

  function TraceRecord(rw: RWTime, page: nat, start: nat, end: nat): string {
    Field("trace", Field("", Field(Decimal(start), Field(Decimal(end),
      Field(Decimal(page), Field(Letters(rw, start, end), ""))))))
  }

  /** The trace records of a phase, in iteration order. */
  function TraceRecords(pages: map<nat, RWTime>, order: seq<nat>, start: nat, end: nat): seq<string> {
    if order == [] then []
    else
      var front := TraceRecords(pages, Init(order), start, end);
      var rw := Lookup(pages, Last(order));
      if DidRead(rw, start, end) || DidWrite(rw, start, end)
      then front + [TraceRecord(rw, Last(order), start, end)]
      else front
  }

  datatype Tally = Tally(ro: nat, rw: nat, wo: nat)

  function Count(pages: map<nat, RWTime>, order: seq<nat>, start: nat, end: nat): Tally {
    if order == [] then Tally(0, 0, 0)
    else
      var t := Count(pages, Init(order), start, end);
      var rw := Lookup(pages, Last(order));
      Counted(t, DidRead(rw, start, end), DidWrite(rw, start, end))
  }

  function Counted(t: Tally, didRead: bool, didWrite: bool): Tally {
    match (didRead, didWrite)
    case (false, false) => t
    case (true, false) => t.(ro := t.ro + 1)
    case (true, true) => t.(rw := t.rw + 1)
    case (false, true) => t.(wo := t.wo + 1)
  }

  lemma OneMorePage(pages: map<nat, RWTime>, order: seq<nat>, page: nat, start: nat, end: nat)
    requires page in pages
    ensures var didRead, didWrite := DidRead(pages[page], start, end), DidWrite(pages[page], start, end);
            && Count(pages, order + [page], start, end) == Counted(Count(pages, order, start, end), didRead, didWrite)
            && TraceRecords(pages, order + [page], start, end)
               == TraceRecords(pages, order, start, end)
                  + (if didRead || didWrite then [TraceRecord(pages[page], page, start, end)] else [])
  {
    hide TraceRecord, DidRead, DidWrite;
    assert Init(order + [page]) == order && Last(order + [page]) == page;
  }

  /** The pages of the table that were read, or not, and written, or not, in the interval. */
  function PagesWith(pages: map<nat, RWTime>, start: nat, end: nat, didRead: bool, didWrite: bool): set<nat> {
    set page | page in pages
               && DidRead(pages[page], start, end) == didRead && DidWrite(pages[page], start, end) == didWrite
  }

  /** Those among the pages of a list. */
  function ListedWith(pages: map<nat, RWTime>, order: seq<nat>, start: nat, end: nat, didRead: bool, didWrite: bool): set<nat>
  {
    set page | page in order && page in PagesWith(pages, start, end, didRead, didWrite)
  }

  lemma OneMoreListed(pages: map<nat, RWTime>, order: seq<nat>, start: nat, end: nat, didRead: bool, didWrite: bool)
    requires order != [] && Last(order) !in Init(order) && Last(order) in pages
    ensures var page := Last(order);
            |ListedWith(pages, order, start, end, didRead, didWrite)|
            == |ListedWith(pages, Init(order), start, end, didRead, didWrite)|
               + if page in PagesWith(pages, start, end, didRead, didWrite) then 1 else 0
  {
    hide DidRead, DidWrite;
    var page := Last(order);
    var before := ListedWith(pages, Init(order), start, end, didRead, didWrite);
    var after := ListedWith(pages, order, start, end, didRead, didWrite);
    assert order == Init(order) + [page];
    if page in PagesWith(pages, start, end, didRead, didWrite) {
      assert after == before + {page};
    } else {
      assert after == before;
    }
  }

  lemma {:induction false} CountsListed(pages: map<nat, RWTime>, order: seq<nat>, start: nat, end: nat)
    requires forall page :: page in order ==> page in pages
    requires forall i, j :: 0 <= i < j < |order| ==> order[i] != order[j]
    ensures Count(pages, order, start, end)
         == Tally(|ListedWith(pages, order, start, end, true, false)|,
                  |ListedWith(pages, order, start, end, true, true)|,
                  |ListedWith(pages, order, start, end, false, true)|)
  {
    hide DidRead, DidWrite, ListedWith;
    if order == [] {
      NoneListed(pages, start, end, true, false);
      NoneListed(pages, start, end, true, true);
      NoneListed(pages, start, end, false, true);
    } else {
      assert forall page :: page in Init(order) ==> page in order;
      CountsListed(pages, Init(order), start, end);
      OneMoreListed(pages, order, start, end, true, false);
      OneMoreListed(pages, order, start, end, true, true);
      OneMoreListed(pages, order, start, end, false, true);
    }
  }

  lemma NoneListed(pages: map<nat, RWTime>, start: nat, end: nat, didRead: bool, didWrite: bool)
    ensures ListedWith(pages, [], start, end, didRead, didWrite) == {}
  {
  }

  /** The three counts are the numbers of pages only read, both read and written, and only
      written in the interval, in whatever order the table is visited. */
  lemma TallyCountsPages(pages: map<nat, RWTime>, order: seq<nat>, start: nat, end: nat)
    requires Enumerates(order, pages.Keys)
    ensures Count(pages, order, start, end)
         == Tally(|PagesWith(pages, start, end, true, false)|, |PagesWith(pages, start, end, true, true)|,
                  |PagesWith(pages, start, end, false, true)|)
  {
    hide DidRead, DidWrite, Count;
    CountsListed(pages, order, start, end);
    assert ListedWith(pages, order, start, end, true, false) == PagesWith(pages, start, end, true, false);
    assert ListedWith(pages, order, start, end, true, true) == PagesWith(pages, start, end, true, true);
    assert ListedWith(pages, order, start, end, false, true) == PagesWith(pages, start, end, false, true);
  }

  function SummaryRecord(t: Tally): string {
    Field("summary-ro-rw-wo-tot-insn", Field(Decimal(t.ro), Field(Decimal(t.rw), Field(Decimal(t.wo),
      Decimal(t.ro + t.rw + t.wo)))))
  }

  function SummaryRecords(pages: map<nat, RWTime>, order: seq<nat>, start: nat, end: nat): seq<string> {
    TraceRecords(pages, order, start, end) + [SummaryRecord(Count(pages, order, start, end))]
  }

  /** The page size is printed as a signed 32-bit shift, so a shift by 31 comes out negative. */
  function PageSizeText(log2: nat): string {
    if log2 < 31 then Decimal(Pow2(log2)) else "-2147483648"
  }

  function PhaseRecord(log2: nat, start: nat, end: nat, name: string, instructions: nat, ioBytes: nat): string {
    Field("phase", Field(PageSizeText(log2), Field(Decimal(start), Field(Decimal(end),
      Field(name, Field(Decimal(instructions), Decimal(ioBytes)))))))
  }

  function NoteRecord(isIoStub: bool): string {
    if isIoStub then "IO stub found and instrumented" else "Phase stub found and instrumented"
  }

  /** Everything the end of a phase writes to the log. */
  function PhaseRecords(log2: nat, s: State, name: string, order: seq<nat>): seq<string>
    requires |s.phaseTimes| > 0
  {
    var start, end := Last(s.phaseTimes), Wrap64(s.time + 1);
    [PhaseRecord(log2, start, end, name, s.instructions, s.ioBytes)]
    + SummaryRecords(s.pages, order, start, end)
  }

  function Step(log2: nat, s: State, e: Event): (r: State)
    requires |s.phaseTimes| > 0
    ensures |r.phaseTimes| > 0
  {
    match e
    case Access(isWrite, addr, size) =>
      s.(time := Wrap64(s.time + 1),
         pages := Touch(s.pages, FirstPage(log2, addr), LastPage(log2, addr, size) + 1, s.time, isWrite))
    case Bbl(n) =>
      s.(instructions := Wrap64(s.instructions + n))
    case Io(bytes) =>
      s.(time := Wrap64(s.time + 1), ioBytes := Wrap64(s.ioBytes + bytes))
    case Phase(name, order) =>
      var end := Wrap64(s.time + 1);
      s.(time := end, ioBytes := 0, instructions := 0, phaseTimes := s.phaseTimes + [end],
         log := s.log + PhaseRecords(log2, s, name, order))
    case Note(isIoStub) =>
      s.(log := s.log + [NoteRecord(isIoStub)])
  }

  function Run(log2: nat, events: seq<Event>): (s: State)
    ensures |s.phaseTimes| > 0
  {
    if events == [] then INITIAL_STATE else Step(log2, Run(log2, Init(events)), Last(events))
  }

  // ---- The imperative tracer

  /** Lists each key exactly once, in some order. */
  ghost predicate Enumerates(order: seq<nat>, keys: set<nat>) {
    && (forall i, j :: 0 <= i < j < |order| ==> order[i] != order[j])
    && (forall page :: page in order <==> page in keys)
  }

  class Tracer {
    const log2: nat
    var currTime: nat
    var ioBytes: nat
    var pageLastAccesses: map<nat, RWTime>
    var phaseTimes: seq<nat>
    var instructionCounter: nat
    var out: string
    ghost var records: seq<string>

    /** The output file holds the records written so far, a line each. */
    ghost predicate Valid()
      reads this
    {
      |phaseTimes| > 0 && out == Unlines(records)
    }

    ghost function Now(): State
      reads this
    {
      State(currTime, ioBytes, instructionCounter, pageLastAccesses, phaseTimes, records)
    }

    /** The page size knob is rounded down to a power of two, by shifting. */
    constructor (knobPageSize: nat)
      requires knobPageSize < TWO32
      ensures Valid() && Now() == INITIAL_STATE
      ensures log2 < 32
      ensures knobPageSize <= 1 ==> log2 == 0
      ensures knobPageSize >= 1 ==> Pow2(log2) <= knobPageSize < 2 * Pow2(log2)
    {
      currTime, ioBytes, pageLastAccesses, phaseTimes, instructionCounter, out, records := 0, 0, map[], [0], 0, "", [];
      var rest, shift := knobPageSize, 0;
      ghost var size := 1;
      while rest > 1
        invariant size == Pow2(shift) && size > 0
        invariant knobPageSize >= 1 ==> rest >= 1 && rest * size <= knobPageSize < (rest + 1) * size
        invariant knobPageSize == 0 ==> rest == 0 && shift == 0
      {
        HalvingBounds(rest, size, knobPageSize);
        rest := rest / 2;
        shift := shift + 1;
        size := size * 2;
      }
      log2 := shift;
      if shift >= 32 {
        Pow2Monotone(32, shift);
        assert false;
      }
    }

    method OnRead(addr: nat, size: nat)
      requires Valid() && LastPage(log2, addr, size) + 1 < TWO64
      modifies this
      ensures Valid() && Now() == Step(log2, old(Now()), Access(false, addr, size))
    {
      StampPages(FirstPage(log2, addr), LastPage(log2, addr, size), false);
    }

    method OnWrite(addr: nat, size: nat)
      requires Valid() && LastPage(log2, addr, size) + 1 < TWO64
      modifies this
      ensures Valid() && Now() == Step(log2, old(Now()), Access(true, addr, size))
    {
      StampPages(FirstPage(log2, addr), LastPage(log2, addr, size), true);
    }

    /** The common page loop. It ends because the last page is not the largest
        64-bit number. */
    method StampPages(first: nat, last: nat, isWrite: bool)
      requires last + 1 < TWO64
      modifies `currTime, `pageLastAccesses
      ensures currTime == Wrap64(old(currTime) + 1)
      ensures pageLastAccesses == Touch(old(pageLastAccesses), first, last + 1, old(currTime), isWrite)
    {
      var time := currTime;
      currTime := Wrap64(currTime + 1);
      var page := first;
      ghost var before := pageLastAccesses;
      while page <= last
        invariant first <= page && (page <= last + 1 || page == first)
        invariant currTime == Wrap64(time + 1)
        invariant pageLastAccesses == Touch(before, first, page, time, isWrite)
        decreases last + 1 - page
      {
        pageLastAccesses := pageLastAccesses[page := Stamp(Lookup(pageLastAccesses, page), time, isWrite)];
        page := page + 1;
      }
    }

    method CountBbl(instructions: nat)
      requires Valid()
      modifies this
      ensures Valid() && Now() == Step(log2, old(Now()), Bbl(instructions))
    {
      instructionCounter := Wrap64(instructionCounter + instructions);
    }

    method IoStub(bytes: nat)
      requires Valid()
      modifies this
      ensures Valid() && Now() == Step(log2, old(Now()), Io(bytes))
    {
      currTime := Wrap64(currTime + 1);
      ioBytes := Wrap64(ioBytes + bytes);
    }

    method WriteRecord(record: string)
      requires Valid()
      modifies `out, `records
      ensures Valid() && records == old(records) + [record]
    {
      out := out + record + "\n";
      records := records + [record];
      SnocParts(old(records), record);
    }

    method RoutineFound(isIoStub: bool)
      requires Valid()
      modifies this
      ensures Valid() && Now() == Step(log2, old(Now()), Note(isIoStub))
    {
      WriteRecord(NoteRecord(isIoStub));
    }

    /** The iteration order is whatever the hash table yields; the method
        reports it as a ghost result. */
    method PhaseStub(name: string) returns (ghost order: seq<nat>)
      requires Valid()
      modifies this
      ensures Valid() && Enumerates(order, old(pageLastAccesses.Keys))
      ensures Now() == Step(log2, old(Now()), Phase(name, order))
    {
      hide PhaseRecord, SummaryRecord, TraceRecords, Count, Unlines;
      currTime := Wrap64(currTime + 1);
      var now, prev := currTime, Last(phaseTimes);
      var record := PhaseRecord(log2, prev, now, name, instructionCounter, ioBytes);
      WriteRecord(record);
      phaseTimes := phaseTimes + [now];
      ioBytes := 0;
      order := SummarizeLastAccesses(prev, now);
      instructionCounter := 0;
      AppendAssoc(old(records), [record], SummaryRecords(pageLastAccesses, order, prev, now));
    }

    method SummarizeLastAccesses(start: nat, end: nat) returns (ghost order: seq<nat>)
      requires Valid()
      modifies `out, `records
      ensures Valid() && Enumerates(order, pageLastAccesses.Keys)
      ensures records == old(records) + SummaryRecords(pageLastAccesses, order, start, end)
    {
      hide PhaseRecord, SummaryRecord, TraceRecord, TraceRecords, Count, DidRead, DidWrite, Unlines;
      NoPages(pageLastAccesses, start, end);
      var tally := Tally(0, 0, 0);
      var rest := pageLastAccesses.Keys;
      order := [];
      while rest != {}
        invariant Valid() && rest <= pageLastAccesses.Keys
        invariant Enumerates(order, pageLastAccesses.Keys - rest)
        invariant tally == Count(pageLastAccesses, order, start, end)
        invariant records == old(records) + TraceRecords(pageLastAccesses, order, start, end)
        decreases |rest|
      {
        var page :| page in rest;
        rest := rest - {page};
        EnumeratesSnoc(order, pageLastAccesses.Keys - rest, page);
        OneMorePage(pageLastAccesses, order, page, start, end);
        ghost var before := TraceRecords(pageLastAccesses, order, start, end);
        AppendAssoc(old(records), before, TraceRecords(pageLastAccesses, order + [page], start, end)[|before|..]);
        order := order + [page];
        var rw := pageLastAccesses[page];
        var didRead, didWrite := DidRead(rw, start, end), DidWrite(rw, start, end);
        if !didRead && !didWrite {
          continue;
        } else if didRead && !didWrite {
          tally := tally.(ro := tally.ro + 1);
        } else if didRead && didWrite {
          tally := tally.(rw := tally.rw + 1);
        } else {
          tally := tally.(wo := tally.wo + 1);
        }
        WriteRecord(TraceRecord(rw, page, start, end));
      }
      WriteRecord(SummaryRecord(tally));
    }
  }

  lemma NoPages(pages: map<nat, RWTime>, start: nat, end: nat)
    ensures Count(pages, [], start, end) == Tally(0, 0, 0) && TraceRecords(pages, [], start, end) == []
  {
  }

  lemma SnocParts<T>(s: seq<T>, x: T)
    ensures Init(s + [x]) == s && Last(s + [x]) == x
  {
  }

  lemma AppendAssoc<T>(a: seq<T>, b: seq<T>, c: seq<T>)
    ensures a + b + c == a + (b + c)
  {
  }

  lemma EnumeratesSnoc(order: seq<nat>, keys: set<nat>, page: nat)
    requires Enumerates(order, keys - {page}) && page in keys
    ensures Enumerates(order + [page], keys)
  {
  }

  lemma HalvingBounds(rest: nat, size: nat, knob: nat)
    requires rest > 1 && rest * size <= knob < (rest + 1) * size
    ensures rest / 2 * (size * 2) <= knob < (rest / 2 + 1) * (size * 2)
  {
    var half, bit := rest / 2, rest % 2;
    assert rest == 2 * half + bit;
    assert rest * size == half * (size * 2) + bit * size;
    assert bit == 0 ==> bit * size == 0;
    assert bit == 1 ==> bit * size == size;
  }

  lemma Pow2Monotone(a: nat, b: nat)
    requires a <= b
    ensures 0 < Pow2(a) <= Pow2(b)
    ensures Pow2(30) == 0x4000_0000 && Pow2(31) == TWO31 && Pow2(32) == TWO32
  {
    Pow2Values();
    if a < b {
      Pow2Monotone(a, b - 1);
    } else if a > 0 {
      Pow2Monotone(a - 1, b - 1);
    }
  }

  lemma Pow2Values()
    ensures Pow2(30) == 0x4000_0000 && Pow2(31) == TWO31 && Pow2(32) == TWO32
  {
    assert Pow2(8) == 0x100;
    assert Pow2(16) == 0x1_0000;
    assert Pow2(24) == 0x100_0000;
    assert Pow2(30) == 0x4000_0000;
  }
}
