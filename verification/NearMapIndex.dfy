/**
 What the last-access index of the NearMAP tracer knows. The reference
 definitions of this module look only at the raw sequence of events; the lemmas
 say that the two timestamps per page answer the same questions.
 */
module NearMapIndex {
  import opened Wrappers
  import opened NearMapTracer

  // ---- Reference definitions on raw events

  /** The pages that hold a byte of [addr, addr + size): byte b is in page b >> log2. */
  function BytePages(log2: nat, addr: nat, size: nat): set<nat> {
    set b | addr <= b < addr + size :: Shift(b, log2)
  }

  function EventPages(log2: nat, e: Event, isWrite: bool): set<nat> {
    if e.Access? && e.isWrite == isWrite then BytePages(log2, e.addr, e.size) else {}
  }

  /** The pages some read (or write) event of the sequence overlapped. */
  function AccessedPages(log2: nat, events: seq<Event>, isWrite: bool): set<nat> {
    if events == [] then {}
    else AccessedPages(log2, Init(events), isWrite) + EventPages(log2, Last(events), isWrite)
  }

  function ReadPages(log2: nat, events: seq<Event>): set<nat> {
    AccessedPages(log2, events, false)
  }

  function WrittenPages(log2: nat, events: seq<Event>): set<nat> {
    AccessedPages(log2, events, true)
  }

  function TouchedPages(log2: nat, events: seq<Event>): set<nat> {
    ReadPages(log2, events) + WrittenPages(log2, events)
  }

  /** The events of every finished phase, in order. */
  function Slices(events: seq<Event>): seq<seq<Event>> {
    if events == [] then []
    else if Last(events).Phase? then Slices(Init(events)) + [Tail(Init(events))]
    else Slices(Init(events))
  }

  /** The events of the phase that is still open. */
  function Tail(events: seq<Event>): seq<Event> {
    if events == [] || Last(events).Phase? then [] else Tail(Init(events)) + [Last(events)]
  }

  predicate Timed(e: Event) {
    e.Access? || e.Io? || e.Phase?
  }

  /** The clock after a run: the number of events that advance it. */
  function Clock(events: seq<Event>): nat {
    if events == [] then 0 else Clock(Init(events)) + if Timed(Last(events)) then 1 else 0
  }

  /** The clock at the start of the open phase. */
  function OpenStart(events: seq<Event>): nat {
    if events == [] then 0 else if Last(events).Phase? then Clock(events) else OpenStart(Init(events))
  }

  // ---- Runs

  predicate Aligned(x: nat, k: nat) {
    k == 0 || (x % 2 == 0 && Aligned(x / 2, k - 1))
  }

  /** An access of at least one byte that stays inside the address space, or an empty one
      at a page boundary: exactly the accesses whose page loop is right. */
  predicate ValidAccess(log2: nat, addr: nat, size: nat) {
    (size >= 1 && addr + size <= TWO64) || (size == 0 && 0 < addr < TWO64 && Aligned(addr, log2))
  }

  ghost predicate ValidEvent(log2: nat, s: State, e: Event) {
    && (e.Access? ==> ValidAccess(log2, e.addr, e.size))
    && (e.Phase? ==> Enumerates(e.order, s.pages.Keys))
  }

  ghost predicate ValidRun(log2: nat, events: seq<Event>) {
    |events| < TWO64
    && (events != [] ==> ValidRun(log2, Init(events)) && ValidEvent(log2, Run(log2, Init(events)), Last(events)))
  }

  // ---- Pages of an access

  /** Page p holds the bytes from p * 2^k up to (p + 1) * 2^k. */
  lemma {:induction false} ShiftBounds(x: nat, k: nat)
    ensures Shift(x, k) * Pow2(k) <= x < (Shift(x, k) + 1) * Pow2(k)
  {
    if k > 0 {
      var q, p := Shift(x / 2, k - 1), Pow2(k - 1);
      ShiftBounds(x / 2, k - 1);
      Doubled(q, p);
      Doubled(q + 1, p);
    }
  }

  lemma Doubled(q: nat, p: nat)
    ensures q * (2 * p) == 2 * (q * p)
  {
  }

  lemma {:induction false} ShiftMonotone(x: nat, y: nat, k: nat)
    requires x <= y
    ensures Shift(x, k) <= Shift(y, k)
  {
    if k > 0 {
      ShiftMonotone(x / 2, y / 2, k - 1);
    }
  }

  lemma {:induction false} ShiftGap(x: nat, y: nat, k: nat)
    requires x + Pow2(k) <= y
    ensures Shift(x, k) < Shift(y, k)
  {
    if k > 0 {
      ShiftGap(x / 2, y / 2, k - 1);
    }
  }

  lemma {:induction false} ByteOfPage(first: nat, last: nat, k: nat, page: nat) returns (b: nat)
    requires first <= last && Shift(first, k) <= page <= Shift(last, k)
    ensures first <= b <= last && Shift(b, k) == page
  {
    if k == 0 {
      b := page;
    } else {
      var half := ByteOfPage(first / 2, last / 2, k - 1, page);
      b := if half == first / 2 then first else 2 * half;
    }
  }

  /** The low k bits are zero. */
  lemma {:induction false} ShiftOfPredecessor(x: nat, k: nat)
    requires x > 0
    ensures Shift(x - 1, k) < Shift(x, k) <==> Aligned(x, k)
  {
    if k > 0 {
      if x % 2 == 0 {
        assert (x - 1) / 2 == x / 2 - 1;
        ShiftOfPredecessor(x / 2, k - 1);
      } else {
        assert (x - 1) / 2 == x / 2;
      }
    }
  }

  /** The page loop of a valid access visits exactly the pages that hold one of
      its bytes. */
  lemma ValidAccessPages(log2: nat, addr: nat, size: nat, page: nat)
    requires ValidAccess(log2, addr, size)
    ensures page in BytePages(log2, addr, size) <==> FirstPage(log2, addr) <= page <= LastPage(log2, addr, size)
  {
    var last := addr + size - 1;
    assert Wrap64(last) == last;
    if size == 0 {
      ShiftOfPredecessor(addr, log2);
      return;
    }
    if page in BytePages(log2, addr, size) {
      var b :| addr <= b < addr + size && Shift(b, log2) == page;
      ShiftMonotone(addr, b, log2);
      ShiftMonotone(b, last, log2);
    }
    if FirstPage(log2, addr) <= page <= LastPage(log2, addr, size) {
      var b := ByteOfPage(addr, last, log2, page);
    }
  }

  /** For arbitrary 64-bit addresses and 32-bit sizes the page loop is exact in
      these cases and in no others: an empty access away from address zero that
      starts on a page boundary also visits no page, any other empty access and
      any access that runs past the end of the address space is wrong. */
  lemma TouchedPagesExact(log2: nat, addr: nat, size: nat)
    requires log2 <= 31 && addr < TWO64 && size < TWO32
    ensures (forall page: nat :: page in BytePages(log2, addr, size)
                                 <==> FirstPage(log2, addr) <= page <= LastPage(log2, addr, size))
            <==> ValidAccess(log2, addr, size)
  {
    if ValidAccess(log2, addr, size) {
      forall page: nat
        ensures page in BytePages(log2, addr, size)
                <==> FirstPage(log2, addr) <= page <= LastPage(log2, addr, size)
      {
        ValidAccessPages(log2, addr, size, page);
      }
    } else if size == 0 && addr > 0 {
      assert Wrap64(addr - 1) == addr - 1;
      ShiftOfPredecessor(addr, log2);
      ShiftMonotone(addr - 1, addr, log2);
      assert Shift(addr, log2) !in BytePages(log2, addr, 0);
    } else if size == 0 {
      ShiftMonotone(0, Wrap64(-1), log2);
      assert Shift(0, log2) !in BytePages(log2, addr, 0);
    } else {
      assert Wrap64(addr + size - 1) == addr + size - 1 - TWO64;
      Pow2Monotone(log2, 31);
      ShiftGap(addr + size - 1 - TWO64, addr, log2);
      assert Shift(addr, log2) in BytePages(log2, addr, size);
    }
  }

  // ---- The page table after a run

  lemma {:induction false} TouchLookup(pages: map<nat, RWTime>, lo: nat, hi: nat, time: nat, isWrite: bool)
    ensures var t := Touch(pages, lo, hi, time, isWrite);
            forall page: nat :: && (page in t <==> page in pages || lo <= page < hi)
                                && Lookup(t, page) == if lo <= page < hi then Stamp(Lookup(pages, page), time, isWrite)
                                                      else Lookup(pages, page)
  {
    if lo < hi {
      TouchLookup(pages, lo, hi - 1, time, isWrite);
    }
  }

  /** The step of an access event, page by page. */
  lemma AccessStep(log2: nat, s: State, e: Event, page: nat)
    requires |s.phaseTimes| > 0 && e.Access? && ValidAccess(log2, e.addr, e.size)
    ensures var t, hit := Step(log2, s, e), page in BytePages(log2, e.addr, e.size);
            && (page in t.pages <==> page in s.pages || hit)
            && Lookup(t.pages, page) == if hit then Stamp(Lookup(s.pages, page), s.time, e.isWrite)
                                        else Lookup(s.pages, page)
  {
    hide PhaseRecords, NoteRecord;
    TouchLookup(s.pages, FirstPage(log2, e.addr), LastPage(log2, e.addr, e.size) + 1, s.time, e.isWrite);
    ValidAccessPages(log2, e.addr, e.size, page);
  }

  lemma StepTimes(log2: nat, s: State, e: Event)
    requires |s.phaseTimes| > 0 && s.time + 1 < TWO64
    ensures var t := Step(log2, s, e);
            && t.time == s.time + (if e.Access? || e.Io? || e.Phase? then 1 else 0)
            && (Timed(e) <==> e.Access? || e.Io? || e.Phase?)
            && t.phaseTimes == s.phaseTimes + (if e.Phase? then [s.time + 1] else [])
  {
    hide PhaseRecords, NoteRecord, Touch;
    assert Wrap64(s.time + 1) == s.time + 1;
    assert s.phaseTimes + [] == s.phaseTimes;
  }

  /** The clock never wraps: it is the number of timed events, and the last
      phase boundary is the clock at the start of the open phase. */
  lemma {:induction false} ClockCounts(log2: nat, events: seq<Event>)
    requires ValidRun(log2, events)
    ensures var s := Run(log2, events);
            && s.time == Clock(events) <= |events|
            && Last(s.phaseTimes) == OpenStart(events) <= s.time
  {
    hide Step, ValidEvent, Timed;
    if events != [] {
      ClockCounts(log2, Init(events));
      StepTimes(log2, Run(log2, Init(events)), Last(events));
      assert Last(events).Phase? ==> Timed(Last(events)) by {
        PhaseIsTimed(Last(events));
      }
    }
  }

  predicate Increasing(s: seq<nat>) {
    forall i, j :: 0 <= i < j < |s| ==> s[i] < s[j]
  }

  lemma PhaseIsTimed(e: Event)
    ensures e.Phase? ==> Timed(e)
  {
  }

  /** The phase boundaries strictly increase, from zero up to the clock: the
      phase intervals tile [0, time) up to the start of the open phase. */
  lemma {:induction false} PhaseTimesTile(log2: nat, events: seq<Event>)
    requires ValidRun(log2, events)
    ensures var times := Run(log2, events).phaseTimes;
            && |times| == |Slices(events)| + 1
            && times[0] == 0
            && Last(times) <= Clock(events)
            && Increasing(times)
  {
    hide Step, ValidEvent, Timed;
    ClockCounts(log2, events);
    if events != [] {
      PhaseTimesTile(log2, Init(events));
      ClockCounts(log2, Init(events));
      StepTimes(log2, Run(log2, Init(events)), Last(events));
    }
  }

  lemma {:induction false} KeysAreTouched(log2: nat, events: seq<Event>, page: nat)
    requires ValidRun(log2, events)
    ensures page in Run(log2, events).pages <==> page in TouchedPages(log2, events)
  {
    hide PhaseRecords, NoteRecord;
    if events != [] {
      var s, e := Run(log2, Init(events)), Last(events);
      KeysAreTouched(log2, Init(events), page);
      if e.Access? {
        AccessStep(log2, s, e, page);
      }
    }
  }

  /** No timestamp lies in the future. */
  lemma {:induction false} StampsArePast(log2: nat, events: seq<Event>, page: nat)
    requires ValidRun(log2, events) && page in Run(log2, events).pages
    ensures var s := Run(log2, events);
            s.pages[page].lastRead < s.time && s.pages[page].lastWrite < s.time
  {
    hide PhaseRecords, NoteRecord, Wrap64;
    if events != [] {
      var s, e := Run(log2, Init(events)), Last(events);
      ClockCounts(log2, Init(events));
      ClockCounts(log2, events);
      if page in s.pages {
        StampsArePast(log2, Init(events), page);
      }
      if e.Access? {
        AccessStep(log2, s, e, page);
      }
    }
  }

  /** From the second phase on, a timestamp lies in the open phase exactly when
      an event of the open phase overlapped the page. */
  lemma {:induction false} StampsSinceStart(log2: nat, events: seq<Event>, page: nat)
    requires ValidRun(log2, events) && OpenStart(events) > 0
    ensures var rw := Lookup(Run(log2, events).pages, page);
            && (rw.lastRead >= OpenStart(events) <==> page in ReadPages(log2, Tail(events)))
            && (rw.lastWrite >= OpenStart(events) <==> page in WrittenPages(log2, Tail(events)))
  {
    hide PhaseRecords, NoteRecord;
    var s, e := Run(log2, Init(events)), Last(events);
    ClockCounts(log2, Init(events));
    if e.Phase? {
      if page in s.pages {
        StampsArePast(log2, Init(events), page);
      }
    } else {
      StampsSinceStart(log2, Init(events), page);
      assert Init(Tail(events)) == Tail(Init(events)) && Last(Tail(events)) == e;
      if e.Access? {
        AccessStep(log2, s, e, page);
      }
    }
  }

  lemma InFrontOrLast(events: seq<Event>)
    requires events != []
    ensures events == Init(events) + [Last(events)]
    ensures forall e :: e in events <==> e in Init(events) || e == Last(events)
  {
    assert events == Init(events) + [Last(events)];
  }

  lemma {:induction false} FirstPhaseTail(events: seq<Event>)
    ensures Slices(events) == [] <==> (forall e :: e in events ==> !e.Phase?)
    ensures Slices(events) == [] ==> Tail(events) == events && OpenStart(events) == 0
    ensures Slices(events) != [] ==> OpenStart(events) > 0
  {
    if events != [] {
      FirstPhaseTail(Init(events));
      InFrontOrLast(events);
    }
  }

  /** The claim made at the end of a phase. In the first phase the default
      timestamp zero lies inside the interval, so every touched page is claimed
      as both read and written; from the second phase on the claim is exact. */
  lemma IndexExactAtPhaseEnd(log2: nat, events: seq<Event>, page: nat)
    requires ValidRun(log2, events)
    ensures var s := Run(log2, events);
            var start, end := Last(s.phaseTimes), s.time + 1;
            var didRead := page in s.pages && DidRead(s.pages[page], start, end);
            var didWrite := page in s.pages && DidWrite(s.pages[page], start, end);
            if Slices(events) == [] then
              && (didRead <==> page in TouchedPages(log2, Tail(events)))
              && (didWrite <==> page in TouchedPages(log2, Tail(events)))
            else
              && (didRead <==> page in ReadPages(log2, Tail(events)))
              && (didWrite <==> page in WrittenPages(log2, Tail(events)))
  {
    hide Run, Step, AccessedPages, Slices, Tail, ValidRun;
    ClockCounts(log2, events);
    FirstPhaseTail(events);
    KeysAreTouched(log2, events, page);
    var s := Run(log2, events);
    if page in s.pages {
      StampsArePast(log2, events, page);
    }
    if Slices(events) != [] {
      StampsSinceStart(log2, events, page);
    }
  }
}
