/**
 The resource monitor (statmon/src): counters are read on every tick and command,
 turned into differences, and aggregated between the commands '[' and ']'. Files
 arrive already split into numbers; a number that does not parse is None and makes
 the update return early.
 */
module RangeMonitor {
  import opened Wrappers

  // ---- Machine integers

  type I64 = x: int | -0x8000_0000_0000_0000 <= x < 0x8000_0000_0000_0000

  /** The value kept by a signed 64-bit variable. */
  function ToI64(x: int): I64 {
    var w: int := x % 0x1_0000_0000_0000_0000;
    if w >= 0x8000_0000_0000_0000 then w - 0x1_0000_0000_0000_0000 else w
  }

  lemma ToI64Small(x: I64)
    ensures ToI64(x) == x
  {
  }

  lemma ToI64Shift(x: int, k: int)
    ensures ToI64(x + k * 0x1_0000_0000_0000_0000) == ToI64(x)
  {
  }

  lemma ToI64Multiple(x: int) returns (k: int)
    ensures ToI64(x) == x + k * 0x1_0000_0000_0000_0000
  {
    var q := x / 0x1_0000_0000_0000_0000;
    k := if x % 0x1_0000_0000_0000_0000 >= 0x8000_0000_0000_0000 then -q - 1 else -q;
  }

  /** Adding an already wrapped number wraps to the same result. */
  lemma ToI64Add(a: int, b: int)
    ensures ToI64(a + ToI64(b)) == ToI64(a + b)
  {
    hide ToI64;
    var k := ToI64Multiple(b);
    ToI64Shift(a + b, k);
  }

  lemma ToI64Unsigned(x: int)
    ensures ToI64(Wrap64(x)) == ToI64(x)
  {
  }

  /** A difference of signed counters, and one of unsigned counters cast to signed. */
  function Moved(now: int, last: int): I64 {
    ToI64(now - last)
  }

  function MovedUnsigned(now: int, last: int): I64 {
    ToI64(Wrap64(now - last))
  }

  lemma SameMove(now: int, last: int)
    ensures MovedUnsigned(now, last) == Moved(now, last)
  {
    ToI64Unsigned(now - last);
  }

  // ---- Statistic values

  datatype StatValue = Float(f: real) | Int(i: I64)

  /** The largest double. */
  function FloatMax(): real {
    (Pow2(1024) - Pow2(971)) as real
  }

  function MaxVal(v: StatValue): StatValue {
    if v.Float? then Float(FloatMax()) else Int(0x7fff_ffff_ffff_ffff)
  }

  function MinVal(v: StatValue): StatValue {
    if v.Float? then Float(-FloatMax()) else Int(-0x8000_0000_0000_0000)
  }

  function ZeroVal(v: StatValue): StatValue {
    if v.Float? then Float(0.0) else Int(0)
  }

  predicate SameKind(a: StatValue, b: StatValue) {
    a.Float? == b.Float?
  }

  /** The three setters stop the process on mismatched kinds: their callers must not. */
  function SetMin(m: StatValue, v: StatValue): StatValue
    requires SameKind(m, v)
  {
    match m
    case Float(x) => Float(if v.f < x then v.f else x)
    case Int(x) => Int(if v.i < x then v.i else x)
  }

  function SetMax(m: StatValue, v: StatValue): StatValue
    requires SameKind(m, v)
  {
    match m
    case Float(x) => Float(if v.f > x then v.f else x)
    case Int(x) => Int(if v.i > x then v.i else x)
  }

  function SetAdd(m: StatValue, v: StatValue): StatValue
    requires SameKind(m, v)
  {
    match m
    case Float(x) => Float(x + v.f)
    case Int(x) => Int(ToI64(x + v.i))
  }

  datatype Stat = Stat(now: StatValue, min: StatValue, max: StatValue, sum: StatValue, cnt: nat)

  function FreshStat(now: StatValue): Stat {
    Stat(now, MaxVal(now), MinVal(now), ZeroVal(now), 0)
  }

  predicate OneKind(s: Stat) {
    SameKind(s.now, s.min) && SameKind(s.now, s.max) && SameKind(s.now, s.sum)
  }

  function Aggregate(s: Stat): Stat
    requires OneKind(s)
  {
    s.(min := SetMin(s.min, s.now), max := SetMax(s.max, s.now), sum := SetAdd(s.sum, s.now), cnt := s.cnt + 1)
  }

  // ---- The table of statistics

  const STATS: nat := 54
  const CPU: nat := 6
  const CONTEXT_SWITCHES: nat := 34
  const NET: nat := 42
  const IO: nat := 46

  /** Statistics set straight from a file: memory, events and the scheduler's. */
  type GaugeIndex = i: nat | 1 <= i <= 5 || 13 <= i <= 33 || 37 <= i <= 41 witness 1

  /** Only the load average is a floating-point statistic. */
  predicate Kinds(t: seq<Stat>) {
    |t| == STATS && forall i :: 0 <= i < STATS ==> OneKind(t[i]) && (t[i].now.Float? <==> i == 0)
  }

  function FreshStats(): (t: seq<Stat>)
    ensures Kinds(t) && forall i :: 0 <= i < STATS ==> t[i] == FreshStat(t[i].now)
  {
    [FreshStat(Float(0.0))] + seq(STATS - 1, _ => FreshStat(Int(0)))
  }

  function SetNow(t: seq<Stat>, i: nat, v: StatValue): (r: seq<Stat>)
    requires i < |t|
    ensures |r| == |t|
  {
    t[i := t[i].(now := v)]
  }

  /** Consecutive statistics from position at on. */
  function SetInts(t: seq<Stat>, at: nat, vals: seq<I64>): (r: seq<Stat>)
    requires at + |vals| <= |t|
    ensures |r| == |t|
  {
    seq(|t|, i requires 0 <= i < |t| =>
      if at <= i < at + |vals| then t[i].(now := Int(vals[i - at])) else t[i])
  }

  function AggregateAll(t: seq<Stat>): (r: seq<Stat>)
    requires Kinds(t)
  {
    seq(|t|, i requires 0 <= i < |t| => Aggregate(t[i]))
  }

  function ResetAll(t: seq<Stat>): (r: seq<Stat>) {
    seq(|t|, i requires 0 <= i < |t| => FreshStat(t[i].now))
  }

  // ---- Reading numbers; the first component says whether all of them parsed

  datatype Gauge = Gauge(index: Option<GaugeIndex>, value: I64)

  /** One entry a line; entries without a statistic are skipped. */
  function ReadGauges(t: seq<Stat>, lines: seq<Option<Gauge>>): (r: (bool, seq<Stat>))
    requires |t| == STATS
    ensures |r.1| == STATS
  {
    if lines == [] then (true, t)
    else
      var (ok, u) := ReadGauges(t, Init(lines));
      if !ok || Last(lines).None? then (false, u)
      else
        var g := Last(lines).value;
        (true, if g.index.None? then u else SetNow(u, g.index.value, Int(g.value)))
  }

  /** The numbers of a line overwrite the counters one after the other, as many as there
      are; those past the last counter are not looked at. */
  function ReadCounters(c: seq<nat>, vals: seq<Option<nat>>, scale: nat): (r: (bool, seq<nat>))
    ensures |r.1| == |c|
  {
    if vals == [] then (true, c)
    else
      var (ok, d) := ReadCounters(c, Init(vals), scale);
      if !ok || |vals| > |c| then (ok, d)
      else if Last(vals).None? then (false, d)
      else (true, d[|vals| - 1 := Wrap64(Last(vals).value * scale)])
  }

  // ---- Network counters

  /** The interface's line: its name and sixteen numbers. Any other number of fields stops
      the process. */
  type NetFields = s: seq<Option<I64>> | |s| == 17 witness seq(17, _ => None)

  /** Received bytes and errors, sent bytes and errors. */
  function NetField(k: nat): (i: nat)
    requires k < 4
    ensures i < 17
  {
    [1, 3, 9, 10][k]
  }

  /** The first k of the four counters: each difference is stored and its reference moved
      before the next number is parsed. */
  function ReadNet(t: seq<Stat>, refs: seq<I64>, vals: NetFields, k: nat): (r: (bool, seq<Stat>, seq<I64>))
    requires |t| == STATS && |refs| == 4 && k <= 4
    ensures |r.1| == STATS && |r.2| == 4
  {
    if k == 0 then (true, t, refs)
    else
      var (ok, u, p) := ReadNet(t, refs, vals, k - 1);
      if !ok || vals[NetField(k - 1)].None? then (false, u, p)
      else
        var v := vals[NetField(k - 1)].value;
        (true, SetNow(u, NET + k - 1, Int(Moved(v, p[k - 1]))), p[k - 1 := v])
  }

  // ---- Processor counters

  datatype CpuLine =
    | TotalsLine(vals: seq<Option<nat>>)
    | SwitchesLine(val: Option<nat>)
    | RunningLine(val: Option<nat>)
    | BlockedLine(val: Option<nat>)
    | OtherLine

  datatype Cpu = Cpu(
    isOpen: bool, msPerClk: nat, totals: seq<nat>, last: seq<nat>,
    switches: nat, switchesLast: nat, running: nat, blocked: nat)

  const FRESH_CPU := Cpu(false, 0, [0, 0, 0, 0, 0, 0, 0, 0, 0, 0], [0, 0, 0, 0, 0, 0, 0, 0, 0, 0], 0, 0, 0, 0)

  function ReadCpuLine(c: Cpu, line: CpuLine): (r: (bool, Cpu)) {
    match line
    case TotalsLine(vals) =>
      var (ok, t) := ReadCounters(c.totals, vals, c.msPerClk);
      (ok, c.(totals := t))
    case SwitchesLine(v) => if v.None? then (false, c) else (true, c.(switches := v.value))
    case RunningLine(v) => if v.None? then (false, c) else (true, c.(running := v.value))
    case BlockedLine(v) => if v.None? then (false, c) else (true, c.(blocked := v.value))
    case OtherLine => (true, c)
  }

  function ReadCpuLines(c: Cpu, lines: seq<CpuLine>): (r: (bool, Cpu)) {
    if lines == [] then (true, c)
    else
      var (ok, d) := ReadCpuLines(c, Init(lines));
      if !ok then (false, d) else ReadCpuLine(d, Last(lines))
  }

  function ReadCpu(c: Cpu, lines: seq<CpuLine>): (r: (bool, Cpu)) {
    ReadCpuLines(c.(last := c.totals, switchesLast := c.switches), lines)
  }

  /** What one update finds: the file may not open; the first update reads it twice. */
  datatype CpuFile = CpuFile(opens: bool, msPerClk: nat, first: seq<CpuLine>, lines: seq<CpuLine>)

  function UpdateCpu(c: Cpu, f: CpuFile): (r: (bool, Cpu)) {
    if c.isOpen then ReadCpu(c, f.lines)
    else if !f.opens then (false, c)
    else
      var (ok, d) := ReadCpu(c.(isOpen := true, msPerClk := f.msPerClk), f.first);
      if !ok then (false, d) else ReadCpu(d, f.lines)
  }

  function Deltas(now: seq<nat>, last: seq<nat>, n: nat): (d: seq<I64>)
    requires n <= |now| && n <= |last|
    ensures |d| == n
  {
    seq(n, k requires 0 <= k < n => MovedUnsigned(now[k], last[k]))
  }

  // ---- Disk counters

  /** A device that is ignored, or its numbers. */
  datatype DiskLine = DiskLine(ignored: bool, vals: seq<Option<nat>>)

  datatype Io = Io(isOpen: bool, totals: seq<nat>, last: seq<nat>)

  const FRESH_IO := Io(false, [0, 0, 0, 0, 0, 0, 0, 0], [0, 0, 0, 0, 0, 0, 0, 0])

  /** Every device overwrites the same counters: the last one wins. */
  function ReadDisks(totals: seq<nat>, lines: seq<DiskLine>): (r: (bool, seq<nat>))
    ensures |r.1| == |totals|
  {
    if lines == [] then (true, totals)
    else
      var (ok, t) := ReadDisks(totals, Init(lines));
      if !ok || Last(lines).ignored then (ok, t) else ReadCounters(t, Last(lines).vals, 1)
  }

  function ReadIo(io: Io, lines: seq<DiskLine>): (r: (bool, Io)) {
    var (ok, t) := ReadDisks(io.totals, lines);
    (ok, io.(totals := t, last := io.totals))
  }

  datatype DiskFile = DiskFile(opens: bool, first: seq<DiskLine>, lines: seq<DiskLine>)

  function UpdateIo(io: Io, f: DiskFile): (r: (bool, Io)) {
    if io.isOpen then ReadIo(io, f.lines)
    else if !f.opens then (false, io)
    else
      var (ok, d) := ReadIo(io.(isOpen := true), f.first);
      if !ok then (false, d) else ReadIo(d, f.lines)
  }

  // ---- One update

  datatype Reading = Reading(
    load: Option<real>, mem: seq<Option<Gauge>>, faasm: seq<Option<Gauge>>, net: NetFields,
    cpu: CpuFile, events: seq<Option<Gauge>>, disks: DiskFile)

  datatype Monitor = Monitor(inRange: bool, stats: seq<Stat>, refs: seq<I64>, cpu: Cpu, io: Io)

  /** Sizes and kinds: with them no setter ever meets mismatched kinds. */
  predicate Typed(m: Monitor) {
    && Kinds(m.stats) && |m.refs| == 4
    && |m.cpu.totals| == 10 && |m.cpu.last| == 10 && |m.io.totals| == 8 && |m.io.last| == 8
  }

  function FreshMonitor(): (m: Monitor)
    ensures Typed(m)
  {
    Monitor(false, FreshStats(), [0, 0, 0, 0], FRESH_CPU, FRESH_IO)
  }

  /** The files before the processor's: load average, memory, scheduler, network. */
  function UpdateFirstHalf(m: Monitor, r: Reading): (x: (bool, Monitor))
    requires Typed(m)
  {
    if r.load.None? then (false, m)
    else
      var loaded := SetNow(m.stats, 0, Float(r.load.value));
      var (memOk, t1) := ReadGauges(loaded, r.mem);
      if !memOk then (false, m.(stats := t1))
      else
        var (faasmOk, t2) := ReadGauges(t1, r.faasm);
        if !faasmOk then (false, m.(stats := t2))
        else
          var (netOk, t3, refs) := ReadNet(t2, m.refs, r.net, 4);
          (netOk, m.(stats := t3, refs := refs))
  }

  function PublishCpu(t: seq<Stat>, c: Cpu): (r: seq<Stat>)
    requires |t| == STATS && |c.totals| == 10 && |c.last| == 10
    ensures |r| == STATS
  {
    var t1 := SetInts(t, CPU, Deltas(c.totals, c.last, 7));
    SetInts(t1, CONTEXT_SWITCHES, [MovedUnsigned(c.switches, c.switchesLast), ToI64(c.running), ToI64(c.blocked)])
  }

  function UpdateSecondHalf(m: Monitor, r: Reading): (x: (bool, Monitor))
    requires Typed(m)
  {
    var (cpuOk, c) := UpdateCpu(m.cpu, r.cpu);
    CpuSizes(m.cpu, r.cpu);
    if !cpuOk then (false, m.(cpu := c))
    else
      var (eventsOk, t1) := ReadGauges(PublishCpu(m.stats, c), r.events);
      if !eventsOk then (false, m.(cpu := c, stats := t1))
      else
        var (ioOk, io) := UpdateIo(m.io, r.disks);
        IoSizes(m.io, r.disks);
        if !ioOk then (false, m.(cpu := c, stats := t1, io := io))
        else (true, m.(cpu := c, io := io, stats := SetInts(t1, IO, Deltas(io.totals, io.last, 8))))
  }

  /** One update of all statistics; it aggregates only when every file was read. */
  function Update(m: Monitor, r: Reading): (x: (bool, Monitor))
    requires Typed(m)
    ensures Typed(x.1)
  {
    FirstHalfEffect(m, r);
    var (ok1, n) := UpdateFirstHalf(m, r);
    if !ok1 then (false, n)
    else
      SecondHalfEffect(n, r);
      var (ok2, p) := UpdateSecondHalf(n, r);
      if !ok2 then (false, p)
      else (true, if p.inRange then p.(stats := AggregateAll(p.stats)) else p)
  }

  // ---- What an update changes

  /** Only current values differ, and their kinds do not. */
  predicate OnlyNow(t: seq<Stat>, u: seq<Stat>) {
    && |t| == STATS && |u| == STATS
    && forall i :: 0 <= i < STATS ==> u[i] == t[i].(now := u[i].now) && SameKind(t[i].now, u[i].now)
  }

  lemma {:induction false} GaugesEffect(t: seq<Stat>, lines: seq<Option<Gauge>>)
    requires Kinds(t)
    ensures var u := ReadGauges(t, lines).1;
            OnlyNow(t, u) && Kinds(u)
            && (forall i :: CPU <= i < CPU + 7 || i == CONTEXT_SWITCHES || NET <= i < STATS ==> u[i].now == t[i].now)
  {
    if lines != [] {
      GaugesEffect(t, Init(lines));
    }
  }

  lemma SetIntsEffect(t: seq<Stat>, at: nat, vals: seq<I64>)
    requires Kinds(t) && 1 <= at && at + |vals| <= STATS
    ensures var u := SetInts(t, at, vals);
            OnlyNow(t, u) && Kinds(u)
            && (forall i :: 0 <= i < STATS ==> u[i].now == if at <= i < at + |vals| then Int(vals[i - at]) else t[i].now)
  {
  }

  lemma {:induction false} NetEffect(t: seq<Stat>, refs: seq<I64>, vals: NetFields, k: nat)
    requires Kinds(t) && |refs| == 4 && k <= 4
    ensures var (ok, u, p) := ReadNet(t, refs, vals, k);
            && OnlyNow(t, u) && Kinds(u)
            && (forall j :: k <= j < 4 ==> p[j] == refs[j])
            && (ok ==> forall j :: 0 <= j < k ==> u[NET + j].now == Int(Moved(p[j], refs[j])))
  {
    hide Moved;
    if k > 0 {
      NetEffect(t, refs, vals, k - 1);
    }
  }

  lemma CpuLineEffect(c: Cpu, line: CpuLine)
    ensures var d := ReadCpuLine(c, line).1;
            |d.totals| == |c.totals| && d.last == c.last && d.switchesLast == c.switchesLast && d.isOpen == c.isOpen
  {
  }

  lemma {:induction false} CpuLinesEffect(c: Cpu, lines: seq<CpuLine>)
    ensures var d := ReadCpuLines(c, lines).1;
            |d.totals| == |c.totals| && d.last == c.last && d.switchesLast == c.switchesLast && d.isOpen == c.isOpen
  {
    hide ReadCpuLine;
    if lines != [] {
      CpuLinesEffect(c, Init(lines));
      CpuLineEffect(ReadCpuLines(c, Init(lines)).1, Last(lines));
    }
  }

  lemma CpuSizes(c: Cpu, f: CpuFile)
    requires |c.totals| == 10 && |c.last| == 10
    ensures var d := UpdateCpu(c, f).1;
            && |d.totals| == 10 && |d.last| == 10 && (c.isOpen ==> d.isOpen)
            && (UpdateCpu(c, f).0 ==> d.isOpen)
            && (c.isOpen ==> d.last == c.totals && d.switchesLast == c.switches)
  {
    hide ReadCpuLines;
    CpuLinesEffect(c.(last := c.totals, switchesLast := c.switches), f.lines);
    if !c.isOpen {
      var o := c.(isOpen := true, msPerClk := f.msPerClk);
      CpuLinesEffect(o.(last := o.totals, switchesLast := o.switches), f.first);
      var d := ReadCpu(o, f.first).1;
      CpuLinesEffect(d.(last := d.totals, switchesLast := d.switches), f.lines);
    }
  }

  lemma IoSizes(io: Io, f: DiskFile)
    requires |io.totals| == 8 && |io.last| == 8
    ensures var d := UpdateIo(io, f).1;
            && |d.totals| == 8 && |d.last| == 8 && (io.isOpen ==> d.isOpen)
            && (UpdateIo(io, f).0 ==> d.isOpen)
            && (io.isOpen ==> d.last == io.totals)
  {
  }

  // ---- The twenty statistics that are differences of counters

  datatype Lane = NetLane(k: nat) | CpuLane(k: nat) | SwitchLane | IoLane(k: nat)

  predicate IsLane(l: Lane) {
    match l
    case NetLane(k) => k < 4
    case CpuLane(k) => k < 7
    case SwitchLane => true
    case IoLane(k) => k < 8
  }

  function StatOf(l: Lane): (i: nat)
    requires IsLane(l)
    ensures 1 <= i < STATS
  {
    match l
    case NetLane(k) => NET + k
    case CpuLane(k) => CPU + k
    case SwitchLane => CONTEXT_SWITCHES
    case IoLane(k) => IO + k
  }

  /** The counter as last read. */
  function Counter(m: Monitor, l: Lane): int
    requires Typed(m) && IsLane(l)
  {
    match l
    case NetLane(k) => m.refs[k]
    case CpuLane(k) => m.cpu.totals[k]
    case SwitchLane => m.cpu.switches
    case IoLane(k) => m.io.totals[k]
  }

  lemma FirstHalfEffect(m: Monitor, r: Reading)
    requires Typed(m)
    ensures var (ok, n) := UpdateFirstHalf(m, r);
            && Typed(n) && OnlyNow(m.stats, n.stats) && n.cpu == m.cpu && n.io == m.io && n.inRange == m.inRange
            && (ok ==> forall k :: 0 <= k < 4 ==> n.stats[NET + k].now == Int(Moved(n.refs[k], m.refs[k])))
  {
    hide Moved, MovedUnsigned, ReadGauges, ReadNet;
    if r.load.Some? {
      var t0 := SetNow(m.stats, 0, Float(r.load.value));
      assert OnlyNow(m.stats, t0) && Kinds(t0);
      GaugesEffect(t0, r.mem);
      var t1 := ReadGauges(t0, r.mem).1;
      GaugesEffect(t1, r.faasm);
      NetEffect(ReadGauges(t1, r.faasm).1, m.refs, r.net, 4);
    }
  }

  lemma PublishEffect(t: seq<Stat>, c: Cpu)
    requires Kinds(t) && |c.totals| == 10 && |c.last| == 10
    ensures var u := PublishCpu(t, c);
            && OnlyNow(t, u) && Kinds(u)
            && (forall k :: 0 <= k < 7 ==> u[CPU + k].now == Int(Moved(c.totals[k], c.last[k])))
            && u[CONTEXT_SWITCHES].now == Int(Moved(c.switches, c.switchesLast))
            && (forall i :: NET <= i < STATS ==> u[i].now == t[i].now)
  {
    hide Moved, MovedUnsigned, SetInts;
    var d := Deltas(c.totals, c.last, 7);
    SetIntsEffect(t, CPU, d);
    SetIntsEffect(SetInts(t, CPU, d), CONTEXT_SWITCHES,
                  [MovedUnsigned(c.switches, c.switchesLast), ToI64(c.running), ToI64(c.blocked)]);
    SameMove(c.switches, c.switchesLast);
    forall k | 0 <= k < 7 ensures PublishCpu(t, c)[CPU + k].now == Int(Moved(c.totals[k], c.last[k])) {
      SameMove(c.totals[k], c.last[k]);
    }
  }

  lemma SecondHalfEffect(m: Monitor, r: Reading)
    requires Typed(m)
    ensures var (ok, n) := UpdateSecondHalf(m, r);
            && Typed(n) && OnlyNow(m.stats, n.stats) && n.refs == m.refs && n.inRange == m.inRange
            && (m.cpu.isOpen ==> n.cpu.isOpen) && (m.io.isOpen ==> n.io.isOpen)
            && (ok ==> n.cpu.isOpen && n.io.isOpen)
            && (ok ==> forall i :: NET <= i < IO ==> n.stats[i].now == m.stats[i].now)
            && (ok && m.cpu.isOpen ==>
                  && (forall k :: 0 <= k < 7 ==>
                        n.stats[CPU + k].now == Int(Moved(n.cpu.totals[k], m.cpu.totals[k])))
                  && n.stats[CONTEXT_SWITCHES].now == Int(Moved(n.cpu.switches, m.cpu.switches)))
            && (ok && m.io.isOpen ==>
                  forall k :: 0 <= k < 8 ==> n.stats[IO + k].now == Int(Moved(n.io.totals[k], m.io.totals[k])))
  {
    hide Moved, MovedUnsigned, ReadGauges, PublishCpu, SetInts, UpdateCpu, UpdateIo;
    CpuSizes(m.cpu, r.cpu);
    IoSizes(m.io, r.disks);
    var c := UpdateCpu(m.cpu, r.cpu).1;
    PublishEffect(m.stats, c);
    var t0 := PublishCpu(m.stats, c);
    GaugesEffect(t0, r.events);
    var t1, io := ReadGauges(t0, r.events).1, UpdateIo(m.io, r.disks).1;
    var d := Deltas(io.totals, io.last, 8);
    SetIntsEffect(t1, IO, d);
    forall k | 0 <= k < 8 ensures SetInts(t1, IO, d)[IO + k].now == Int(Moved(io.totals[k], io.last[k])) {
      SameMove(io.totals[k], io.last[k]);
    }
  }

  // ---- What becomes of the numbers in the files

  /** Up to the first that does not parse, or the end of either list, every number is
      stored at its position, times the scale; all other counters keep their values. */
  lemma {:induction false} CountersByPosition(c: seq<nat>, vals: seq<Option<nat>>, scale: nat, n: nat)
    requires n <= |vals| && n <= |c| && (forall k :: 0 <= k < n ==> vals[k].Some?)
    requires n < |vals| && n < |c| ==> vals[n].None?
    ensures var (ok, d) := ReadCounters(c, vals, scale);
            && |d| == |c| && (ok <==> n == |vals| || n == |c|)
            && (forall k :: 0 <= k < n ==> d[k] == vals[k].value * scale % 0x1_0000_0000_0000_0000)
            && (forall k :: n <= k < |c| ==> d[k] == c[k])
    decreases |vals|
  {
    hide Wrap64;
    if n < |vals| {
      CountersByPosition(c, Init(vals), scale, n);
    } else if n > 0 {
      CountersByPosition(c, Init(vals), scale, n - 1);
      ScaledIs(Last(vals).value, scale);
    }
  }

  lemma ScaledIs(v: nat, scale: nat)
    ensures Wrap64(v * scale) == v * scale % 0x1_0000_0000_0000_0000
  {
  }

  /** Where reading stops: the first number that does not parse, or the end. */
  function Readable(vals: seq<Option<nat>>, limit: nat): (n: nat)
    ensures n <= |vals| && n <= limit && (forall k :: 0 <= k < n ==> vals[k].Some?)
    ensures n < |vals| && n < limit ==> vals[n].None?
  {
    if vals == [] || limit == 0 || vals[0].None? then 0 else 1 + Readable(vals[1..], limit - 1)
  }

  lemma OneCounter(c: seq<nat>, vals: seq<Option<nat>>, scale: nat, k: nat)
    requires k < |c| && ReadCounters(c, vals, scale).0
    ensures ReadCounters(c, vals, scale).1[k]
         == if k < |vals| && vals[k].Some? then vals[k].value * scale % 0x1_0000_0000_0000_0000 else c[k]
    ensures k < |vals| ==> vals[k].Some?
  {
    hide ReadCounters;
    CountersByPosition(c, vals, scale, Readable(vals, |c|));
  }

  /** The number at position k of the last totals line that reaches it. */
  function LastTotal(lines: seq<CpuLine>, k: nat): Option<nat> {
    if lines == [] then None
    else if Last(lines).TotalsLine? && k < |Last(lines).vals| then Last(lines).vals[k]
    else LastTotal(Init(lines), k)
  }

  function LastSwitches(lines: seq<CpuLine>): Option<nat> {
    if lines == [] then None else if Last(lines).SwitchesLine? then Last(lines).val else LastSwitches(Init(lines))
  }

  function LastRunning(lines: seq<CpuLine>): Option<nat> {
    if lines == [] then None else if Last(lines).RunningLine? then Last(lines).val else LastRunning(Init(lines))
  }

  function LastBlocked(lines: seq<CpuLine>): Option<nat> {
    if lines == [] then None else if Last(lines).BlockedLine? then Last(lines).val else LastBlocked(Init(lines))
  }

  function ValueOr(v: Option<nat>, scale: nat, otherwise: nat): nat {
    if v.Some? then v.value * scale % 0x1_0000_0000_0000_0000 else otherwise
  }

  /** After the lines of a processor file were read, every counter holds the last number
      given for it. */
  lemma {:induction false} CpuLinesByPosition(c: Cpu, lines: seq<CpuLine>, k: nat)
    requires |c.totals| == 10 && k < 10 && ReadCpuLines(c, lines).0
    ensures var d := ReadCpuLines(c, lines).1;
            && |d.totals| == 10 && d.msPerClk == c.msPerClk
            && d.totals[k] == ValueOr(LastTotal(lines, k), c.msPerClk, c.totals[k])
            && d.switches == (if LastSwitches(lines).Some? then LastSwitches(lines).value else c.switches)
            && d.running == (if LastRunning(lines).Some? then LastRunning(lines).value else c.running)
            && d.blocked == (if LastBlocked(lines).Some? then LastBlocked(lines).value else c.blocked)
  {
    hide ReadCounters;
    if lines != [] {
      CpuLinesByPosition(c, Init(lines), k);
      if Last(lines).TotalsLine? {
        OneCounter(ReadCpuLines(c, Init(lines)).1.totals, Last(lines).vals, c.msPerClk, k);
      }
    }
  }

  /** The same for a whole update: the previous counters are those from before it or, in
      the first update, those of the first reading. */
  lemma CpuFileByPosition(c: Cpu, f: CpuFile, k: nat)
    requires |c.totals| == 10 && |c.last| == 10 && k < 10 && UpdateCpu(c, f).0
    ensures var d := UpdateCpu(c, f).1;
            var ms := if c.isOpen then c.msPerClk else f.msPerClk;
            var before := if c.isOpen then c.totals[k] else ValueOr(LastTotal(f.first, k), ms, c.totals[k]);
            && |d.totals| == 10 && |d.last| == 10 && d.msPerClk == ms
            && d.last[k] == before && d.totals[k] == ValueOr(LastTotal(f.lines, k), ms, before)
    ensures c.isOpen ==>
              var d := UpdateCpu(c, f).1;
              && d.switches == (if LastSwitches(f.lines).Some? then LastSwitches(f.lines).value else c.switches)
              && d.running == (if LastRunning(f.lines).Some? then LastRunning(f.lines).value else c.running)
              && d.blocked == (if LastBlocked(f.lines).Some? then LastBlocked(f.lines).value else c.blocked)
  {
    hide ReadCpuLines, LastTotal, LastSwitches, LastRunning, LastBlocked;
    if c.isOpen {
      CpuLinesEffect(c.(last := c.totals, switchesLast := c.switches), f.lines);
      CpuLinesByPosition(c.(last := c.totals, switchesLast := c.switches), f.lines, k);
    } else {
      var o := c.(isOpen := true, msPerClk := f.msPerClk);
      CpuLinesEffect(o.(last := o.totals, switchesLast := o.switches), f.first);
      CpuLinesByPosition(o.(last := o.totals, switchesLast := o.switches), f.first, k);
      var d := ReadCpu(o, f.first).1;
      CpuLinesEffect(d.(last := d.totals, switchesLast := d.switches), f.lines);
      CpuLinesByPosition(d.(last := d.totals, switchesLast := d.switches), f.lines, k);
    }
  }

  lemma CpuFileCounters(c: Cpu, f: CpuFile)
    ensures var (ok, d) := UpdateCpu(c, f);
            ok && |c.totals| == |c.last| == 10 ==>
              && |d.totals| == |d.last| == 10 && d.msPerClk == (if c.isOpen then c.msPerClk else f.msPerClk)
              && forall k :: 0 <= k < 10 ==>
                   d.totals[k] == ValueOr(LastTotal(f.lines, k), d.msPerClk, d.last[k])
                   && (c.isOpen ==> d.last[k] == c.totals[k])
  {
    hide UpdateCpu, LastTotal, LastSwitches, LastRunning, LastBlocked, ValueOr;
    if UpdateCpu(c, f).0 && |c.totals| == |c.last| == 10 {
      CpuFileByPosition(c, f, 0);
      forall k | 0 <= k < 10
        ensures var d := UpdateCpu(c, f).1;
                d.totals[k] == ValueOr(LastTotal(f.lines, k), d.msPerClk, d.last[k])
                && (c.isOpen ==> d.last[k] == c.totals[k])
      {
        CpuFileByPosition(c, f, k);
      }
    }
  }

  /** The number at position k of the last device that is not ignored and reaches it. */
  function LastDisk(lines: seq<DiskLine>, k: nat): Option<nat> {
    if lines == [] then None
    else if !Last(lines).ignored && k < |Last(lines).vals| then Last(lines).vals[k]
    else LastDisk(Init(lines), k)
  }

  lemma {:induction false} DisksByPosition(totals: seq<nat>, lines: seq<DiskLine>, k: nat)
    requires k < |totals| && ReadDisks(totals, lines).0
    ensures ReadDisks(totals, lines).1[k] == ValueOr(LastDisk(lines, k), 1, totals[k])
  {
    hide ReadCounters;
    if lines != [] {
      DisksByPosition(totals, Init(lines), k);
      if !Last(lines).ignored {
        OneCounter(ReadDisks(totals, Init(lines)).1, Last(lines).vals, 1, k);
      }
    }
  }

  lemma IoFileByPosition(io: Io, f: DiskFile, k: nat)
    requires |io.totals| == 8 && |io.last| == 8 && k < 8 && UpdateIo(io, f).0
    ensures var d := UpdateIo(io, f).1;
            var before := if io.isOpen then io.totals[k] else ValueOr(LastDisk(f.first, k), 1, io.totals[k]);
            && |d.totals| == 8 && |d.last| == 8
            && d.last[k] == before && d.totals[k] == ValueOr(LastDisk(f.lines, k), 1, before)
  {
    hide ReadDisks, LastDisk;
    if io.isOpen {
      DisksByPosition(io.totals, f.lines, k);
    } else {
      DisksByPosition(io.totals, f.first, k);
      DisksByPosition(ReadIo(io.(isOpen := true), f.first).1.totals, f.lines, k);
    }
  }

  lemma DiskFileCounters(io: Io, f: DiskFile)
    ensures var (ok, d) := UpdateIo(io, f);
            ok && |io.totals| == |io.last| == 8 ==>
              && |d.totals| == |d.last| == 8
              && forall k :: 0 <= k < 8 ==>
                   d.totals[k] == ValueOr(LastDisk(f.lines, k), 1, d.last[k])
                   && (io.isOpen ==> d.last[k] == io.totals[k])
  {
    hide UpdateIo, LastDisk, ValueOr;
    if UpdateIo(io, f).0 && |io.totals| == |io.last| == 8 {
      IoFileByPosition(io, f, 0);
      forall k | 0 <= k < 8
        ensures var d := UpdateIo(io, f).1;
                d.totals[k] == ValueOr(LastDisk(f.lines, k), 1, d.last[k])
                && (io.isOpen ==> d.last[k] == io.totals[k])
      {
        IoFileByPosition(io, f, k);
      }
    }
  }

  /** The references of the network counters become fields 1, 3, 9 and 10 of the line. */
  lemma NetByPosition(t: seq<Stat>, refs: seq<I64>, vals: NetFields)
    requires |t| == STATS && |refs| == 4 && ReadNet(t, refs, vals, 4).0
    ensures vals[1].Some? && vals[3].Some? && vals[9].Some? && vals[10].Some?
    ensures ReadNet(t, refs, vals, 4).2 == [vals[1].value, vals[3].value, vals[9].value, vals[10].value]
  {
    hide ReadNet;
    NetReferences(t, refs, vals, 4);
    assert NetField(0) == 1 && NetField(1) == 3 && NetField(2) == 9 && NetField(3) == 10;
  }

  lemma {:induction false} NetReferences(t: seq<Stat>, refs: seq<I64>, vals: NetFields, k: nat)
    requires |t| == STATS && |refs| == 4 && k <= 4 && ReadNet(t, refs, vals, k).0
    ensures forall j :: 0 <= j < k ==>
              vals[NetField(j)].Some? && ReadNet(t, refs, vals, k).2[j] == vals[NetField(j)].value
  {
    hide SetNow, Moved, NetField;
    if k > 0 {
      NetReferences(t, refs, vals, k - 1);
    }
  }

  /** The value of the last line for statistic i. */
  function LastGauge(lines: seq<Option<Gauge>>, i: nat): Option<I64> {
    if lines == [] then None
    else if Last(lines).Some? && Last(lines).value.index.Some? && Last(lines).value.index.value == i then
      Some(Last(lines).value.value)
    else LastGauge(Init(lines), i)
  }

  function GaugeOr(v: Option<I64>, otherwise: StatValue): StatValue {
    if v.Some? then Int(v.value) else otherwise
  }

  lemma {:induction false} GaugesByPosition(t: seq<Stat>, lines: seq<Option<Gauge>>, i: nat)
    requires |t| == STATS && i < STATS && ReadGauges(t, lines).0
    ensures ReadGauges(t, lines).1[i].now == GaugeOr(LastGauge(lines, i), t[i].now)
  {
    if lines != [] {
      GaugesByPosition(t, Init(lines), i);
    }
  }

  predicate IsGauge(i: nat) {
    1 <= i <= 5 || 13 <= i <= 33 || 37 <= i <= 41
  }

  lemma FirstHalfByPosition(m: Monitor, r: Reading, i: nat)
    requires Typed(m) && UpdateFirstHalf(m, r).0 && i < STATS
    ensures r.load.Some? && r.net[1].Some? && r.net[3].Some? && r.net[9].Some? && r.net[10].Some?
    ensures var n := UpdateFirstHalf(m, r).1;
            && Typed(n) && n.refs == [r.net[1].value, r.net[3].value, r.net[9].value, r.net[10].value]
            && n.stats[0].now == Float(r.load.value)
            && (IsGauge(i) ==>
                  n.stats[i].now == GaugeOr(LastGauge(r.faasm, i), GaugeOr(LastGauge(r.mem, i), m.stats[i].now)))
  {
    hide ReadGauges, ReadNet, LastGauge, GaugeOr, ToI64;
    FirstHalfEffect(m, r);
    var t0 := SetNow(m.stats, 0, Float(r.load.value));
    assert OnlyNow(m.stats, t0) && Kinds(t0);
    GaugesEffect(t0, r.mem);
    var t1 := ReadGauges(t0, r.mem).1;
    GaugesEffect(t1, r.faasm);
    var t2 := ReadGauges(t1, r.faasm).1;
    GaugesByPosition(t0, r.mem, i);
    GaugesByPosition(t1, r.faasm, i);
    GaugesByPosition(t0, r.mem, 0);
    GaugesByPosition(t1, r.faasm, 0);
    NoGaugeAtZero(r.mem);
    NoGaugeAtZero(r.faasm);
    if IsGauge(i) {
      NetTouches(t2, m.refs, r.net, 4, i);
    }
    NetTouches(t2, m.refs, r.net, 4, 0);
    NetByPosition(t2, m.refs, r.net);
    NoneIsKept(t0[0].now);
  }

  lemma NoneIsKept(v: StatValue)
    ensures GaugeOr(None, v) == v
  {
  }

  lemma {:induction false} NoGaugeAtZero(lines: seq<Option<Gauge>>)
    ensures LastGauge(lines, 0) == None
  {
    if lines != [] {
      NoGaugeAtZero(Init(lines));
    }
  }

  lemma {:induction false} NetTouches(t: seq<Stat>, refs: seq<I64>, vals: NetFields, k: nat, i: nat)
    requires |t| == STATS && |refs| == 4 && k <= 4 && i < NET
    ensures ReadNet(t, refs, vals, k).1[i].now == t[i].now
  {
    if k > 0 {
      NetTouches(t, refs, vals, k - 1, i);
    }
  }

  lemma PublishByPosition(t: seq<Stat>, c: Cpu, i: nat)
    requires |t| == STATS && |c.totals| == 10 && |c.last| == 10 && i < STATS
    ensures var u := PublishCpu(t, c);
            && u[35].now == Int(ToI64(c.running)) && u[36].now == Int(ToI64(c.blocked))
            && (IsGauge(i) || i == 0 || i >= NET ==> u[i].now == t[i].now)
  {
    hide ToI64, MovedUnsigned;
  }

  lemma SecondHalfByPosition(m: Monitor, r: Reading, i: nat)
    requires Typed(m) && UpdateSecondHalf(m, r).0 && i < STATS
    ensures var n := UpdateSecondHalf(m, r).1;
            && Typed(n) && n.cpu == UpdateCpu(m.cpu, r.cpu).1 && n.io == UpdateIo(m.io, r.disks).1
            && UpdateCpu(m.cpu, r.cpu).0 && UpdateIo(m.io, r.disks).0
            && n.stats[0].now == m.stats[0].now
            && n.stats[35].now == Int(ToI64(n.cpu.running)) && n.stats[36].now == Int(ToI64(n.cpu.blocked))
            && (IsGauge(i) ==> n.stats[i].now == GaugeOr(LastGauge(r.events, i), m.stats[i].now))
  {
    hide ReadGauges, PublishCpu, LastGauge, GaugeOr, ToI64, UpdateCpu, UpdateIo, MovedUnsigned;
    SecondHalfEffect(m, r);
    CpuSizes(m.cpu, r.cpu);
    IoSizes(m.io, r.disks);
    var c := UpdateCpu(m.cpu, r.cpu).1;
    PublishEffect(m.stats, c);
    PublishByPosition(m.stats, c, i);
    PublishByPosition(m.stats, c, 0);
    var t0 := PublishCpu(m.stats, c);
    GaugesByPosition(t0, r.events, i);
    GaugesByPosition(t0, r.events, 0);
    GaugesByPosition(t0, r.events, 35);
    GaugesByPosition(t0, r.events, 36);
    NoGaugeAtZero(r.events);
    NoGaugeElsewhere(r.events, 35);
    NoGaugeElsewhere(r.events, 36);
    NoneIsKept(t0[0].now);
    NoneIsKept(t0[35].now);
    NoneIsKept(t0[36].now);
  }

  lemma {:induction false} NoGaugeElsewhere(lines: seq<Option<Gauge>>, i: nat)
    requires !IsGauge(i)
    ensures LastGauge(lines, i) == None
  {
    if lines != [] {
      NoGaugeElsewhere(Init(lines), i);
    }
  }

  /** After a successful update of a running monitor every statistic that is no difference
      shows the number in the files: the load average, the last value given for each gauge
      (or its old value), and the running and blocked processes. */
  lemma GaugesShowTheFiles(m: Monitor, r: Reading, i: nat)
    requires Running(m) && Update(m, r).0 && i < STATS
    ensures var n := Update(m, r).1;
            && r.load.Some? && n.stats[0].now == Float(r.load.value)
            && (IsGauge(i) ==>
                  n.stats[i].now == GaugeOr(LastGauge(r.events, i),
                                      GaugeOr(LastGauge(r.faasm, i), GaugeOr(LastGauge(r.mem, i), m.stats[i].now))))
            && n.stats[35].now
               == Int(ToI64(if LastRunning(r.cpu.lines).Some? then LastRunning(r.cpu.lines).value else m.cpu.running))
            && n.stats[36].now
               == Int(ToI64(if LastBlocked(r.cpu.lines).Some? then LastBlocked(r.cpu.lines).value else m.cpu.blocked))
  {
    hide UpdateFirstHalf, UpdateSecondHalf, LastGauge, GaugeOr, ToI64, UpdateCpu, UpdateIo, LastRunning, LastBlocked;
    FirstHalfEffect(m, r);
    FirstHalfByPosition(m, r, i);
    var n1 := UpdateFirstHalf(m, r).1;
    SecondHalfEffect(n1, r);
    SecondHalfByPosition(n1, r, i);
    CpuFileByPosition(m.cpu, r.cpu, 0);
    AggregateKeepsNow(UpdateSecondHalf(n1, r).1.stats);
  }

  lemma {:induction false} GaugesFailExactly(t: seq<Stat>, lines: seq<Option<Gauge>>)
    requires |t| == STATS
    ensures ReadGauges(t, lines).0 <==> None !in lines
  {
    if lines != [] {
      GaugesFailExactly(t, Init(lines));
      assert lines == Init(lines) + [Last(lines)];
    }
  }

  lemma {:induction false} NetFailsExactly(t: seq<Stat>, refs: seq<I64>, vals: NetFields, k: nat)
    requires |t| == STATS && |refs| == 4 && k <= 4
    ensures ReadNet(t, refs, vals, k).0 <==> forall j :: 0 <= j < k ==> vals[NetField(j)].Some?
  {
    hide NetField, Moved;
    if k > 0 {
      NetFailsExactly(t, refs, vals, k - 1);
    }
  }

  /** An update stops at the first file with a number that does not parse: what comes after
      it in the source's order is not touched. */
  lemma FailureStopsReading(m: Monitor, r: Reading)
    requires Typed(m)
    ensures var (ok, n) := Update(m, r);
            && (r.load.None? ==> !ok && n == m)
            && (None in r.mem || None in r.faasm ==> !ok && n.refs == m.refs && n.cpu == m.cpu && n.io == m.io)
            && (r.net[1].None? || r.net[3].None? || r.net[9].None? || r.net[10].None? ==>
                  !ok && n.cpu == m.cpu && n.io == m.io)
            && (!UpdateCpu(m.cpu, r.cpu).0 || None in r.events ==> !ok && n.io == m.io)
            && (!UpdateIo(m.io, r.disks).0 ==> !ok)
  {
    hide ReadGauges, ReadNet, PublishCpu, SetInts, AggregateAll, UpdateCpu, UpdateIo, Kinds;
    FirstHalfEffect(m, r);
    SecondHalfEffect(UpdateFirstHalf(m, r).1, r);
    if r.load.Some? {
      var t0 := SetNow(m.stats, 0, Float(r.load.value));
      var t1 := ReadGauges(t0, r.mem).1;
      var t2 := ReadGauges(t1, r.faasm).1;
      GaugesFailExactly(t0, r.mem);
      GaugesFailExactly(t1, r.faasm);
      NetFailsExactly(t2, m.refs, r.net, 4);
      assert NetField(0) == 1 && NetField(1) == 3 && NetField(2) == 9 && NetField(3) == 10;
      CpuSizes(m.cpu, r.cpu);
      GaugesFailExactly(PublishCpu(UpdateFirstHalf(m, r).1.stats, UpdateCpu(m.cpu, r.cpu).1), r.events);
    }
  }

  /** Both processor and disk files are open, as they are after startup. */
  predicate Running(m: Monitor) {
    Typed(m) && m.cpu.isOpen && m.io.isOpen
  }

  /** After a successful update each of the twenty statistics is the move of its counter,
      wrapped to 64 bits. */
  ghost predicate ShowsMoves(n: Monitor, m: Monitor)
    requires Typed(m) && Typed(n)
  {
    forall l: Lane :: IsLane(l) ==> n.stats[StatOf(l)].now == Int(Moved(Counter(n, l), Counter(m, l)))
  }

  lemma UpdateEffect(m: Monitor, r: Reading)
    requires Running(m)
    ensures var (ok, n) := Update(m, r);
            && Running(n) && n.inRange == m.inRange
            && (ok && m.inRange ==>
                  forall i :: 0 <= i < STATS ==>
                    && SameKind(m.stats[i].now, n.stats[i].now)
                    && n.stats[i] == Aggregate(m.stats[i].(now := n.stats[i].now)))
            && (!ok || !m.inRange ==> OnlyNow(m.stats, n.stats))
            && (ok ==> ShowsMoves(n, m))
  {
    hide UpdateFirstHalf, UpdateSecondHalf, Moved, Aggregate;
    FirstHalfEffect(m, r);
    var n1 := UpdateFirstHalf(m, r).1;
    SecondHalfEffect(n1, r);
    var n2 := UpdateSecondHalf(n1, r).1;
    AggregateKeepsNow(n2.stats);
  }

  lemma AggregateKeepsNow(t: seq<Stat>)
    requires Kinds(t)
    ensures Kinds(AggregateAll(t))
    ensures forall i :: 0 <= i < STATS ==> AggregateAll(t)[i].now == t[i].now
  {
  }

  // ---- Ticks and commands, in the order the lock lets them through

  datatype Event = Tick(r: Reading) | Begin(r: Reading) | End(r: Reading) | Query

  /** One event. A tick that cannot read its files stops the process (None); a command
      that cannot only ends its connection, leaving what the update already did. */
  function Step(m: Monitor, e: Event): (n: Option<Monitor>)
    requires Typed(m)
    ensures n.Some? ==> Typed(n.value)
  {
    match e
    case Query => Some(m)
    case Tick(r) => var (ok, n) := Update(m, r); if ok then Some(n) else None
    case Begin(r) => var (ok, n) := Update(m, r); Some(if ok then n.(inRange := true, stats := ResetAll(n.stats)) else n)
    case End(r) => var (ok, n) := Update(m, r); Some(if ok then n.(inRange := false) else n)
  }

  function Run(m: Monitor, es: seq<Event>): (n: Option<Monitor>)
    requires Typed(m)
    ensures n.Some? ==> Typed(n.value)
  {
    if es == [] then Some(m)
    else
      match Run(m, Init(es))
      case None => None
      case Some(n) => Step(n, Last(es))
  }

  /** The state in which the monitor starts to serve. */
  predicate Started(m: Monitor) {
    Running(m) && !m.inRange && forall i :: 0 <= i < STATS ==> m.stats[i] == FreshStat(m.stats[i].now)
  }

  /** The two updates of the startup lead there. */
  lemma StartupStarts(first: Reading, second: Reading)
    ensures Update(FreshMonitor(), first).0 && Update(Update(FreshMonitor(), first).1, second).0 ==>
              Started(Update(Update(FreshMonitor(), first).1, second).1)
  {
    hide UpdateFirstHalf, UpdateSecondHalf;
    var m := FreshMonitor();
    FirstHalfEffect(m, first);
    SecondHalfEffect(UpdateFirstHalf(m, first).1, first);
    if Update(m, first).0 {
      UpdateEffect(Update(m, first).1, second);
    }
  }

  // ---- What the history of a run says

  /** The values statistic i took at the successful updates inside the range, since the
      last successful '['. */
  function Recorded(m: Monitor, es: seq<Event>, i: nat): seq<StatValue>
    requires Typed(m) && i < STATS && Run(m, es).Some?
  {
    if es == [] then []
    else
      var n, before := Run(m, Init(es)).value, Recorded(m, Init(es), i);
      match Last(es)
      case Query => before
      case Begin(r) => if Update(n, r).0 then [] else before
      case Tick(r) => Extended(before, n, r, i)
      case End(r) => Extended(before, n, r, i)
  }

  function Extended(before: seq<StatValue>, n: Monitor, r: Reading, i: nat): seq<StatValue>
    requires Typed(n) && i < STATS
  {
    if Update(n, r).0 && n.inRange then before + [Update(n, r).1.stats[i].now] else before
  }

  /** The counter read by the last successful '['. */
  function Base(m: Monitor, es: seq<Event>, l: Lane): int
    requires Typed(m) && IsLane(l) && Run(m, es).Some?
  {
    if es == [] then Counter(m, l)
    else if Last(es).Begin? && Update(Run(m, Init(es)).value, Last(es).r).0 then Counter(Run(m, es).value, l)
    else Base(m, Init(es), l)
  }

  /** How far the counter moved in failed updates since the last successful '['. */
  function Lost(m: Monitor, es: seq<Event>, l: Lane): int
    requires Typed(m) && IsLane(l) && Run(m, es).Some?
  {
    if es == [] || Last(es).Query? then if es == [] then 0 else Lost(m, Init(es), l)
    else
      var n := Run(m, Init(es)).value;
      if !Update(n, Last(es).r).0 then Lost(m, Init(es), l) + Counter(Run(m, es).value, l) - Counter(n, l)
      else if Last(es).Begin? then 0
      else Lost(m, Init(es), l)
  }

  predicate Le(a: StatValue, b: StatValue)
    requires SameKind(a, b)
  {
    if a.Int? then a.i <= b.i else a.f <= b.f
  }

  function SumInts(vs: seq<StatValue>): int {
    if vs == [] then 0 else SumInts(Init(vs)) + if Last(vs).Int? then Last(vs).i else 0
  }

  function SumFloats(vs: seq<StatValue>): real {
    if vs == [] then 0.0 else SumFloats(Init(vs)) + if Last(vs).Float? then Last(vs).f else 0.0
  }

  /** The aggregates of a statistic are those of a list of values: a least and a greatest
      one (the starting value when no value is as small or large), their sum, modulo
      2^64 for integers, and their number. */
  predicate Summarises(s: Stat, vs: seq<StatValue>) {
    && OneKind(s) && s.cnt == |vs|
    && (forall v :: v in vs ==> SameKind(s.now, v) && Le(s.min, v) && Le(v, s.max))
    && (s.min in vs || s.min == MaxVal(s.now)) && (s.max in vs || s.max == MinVal(s.now))
    && s.sum == if s.now.Int? then Int(ToI64(SumInts(vs))) else Float(SumFloats(vs))
  }

  lemma FreshSummarises(now: StatValue)
    ensures Summarises(FreshStat(now), [])
  {
    hide FloatMax;
  }

  lemma AggregateSummarises(s: Stat, vs: seq<StatValue>)
    requires Summarises(s, vs)
    ensures Summarises(Aggregate(s), vs + [s.now])
  {
    hide FloatMax, ToI64;
    var t, ws := Aggregate(s), vs + [s.now];
    assert Init(ws) == vs && Last(ws) == s.now;
    assert forall v :: v in ws <==> v in vs || v == s.now;
    if s.now.Int? {
      ToI64Add(s.now.i, SumInts(vs));
    }
  }

  lemma NowSummarises(s: Stat, now: StatValue, vs: seq<StatValue>)
    requires Summarises(s, vs) && SameKind(s.now, now)
    ensures Summarises(s.(now := now), vs)
  {
    hide FloatMax, ToI64;
  }

  /** One successful update recorded, or nothing changed. */
  lemma UpdateSummarises(m: Monitor, r: Reading, i: nat, vs: seq<StatValue>)
    requires Running(m) && i < STATS && Summarises(m.stats[i], vs)
    ensures Summarises(Update(m, r).1.stats[i], Extended(vs, m, r, i))
  {
    hide Update, Aggregate, Summarises, ShowsMoves;
    UpdateEffect(m, r);
    var (ok, n) := Update(m, r);
    NowSummarises(m.stats[i], n.stats[i].now, vs);
    if ok && m.inRange {
      AggregateSummarises(m.stats[i].(now := n.stats[i].now), vs);
    }
  }

  lemma StepKeepsRunning(m: Monitor, e: Event)
    requires Running(m)
    ensures Step(m, e).Some? ==> Running(Step(m, e).value)
  {
    hide Update;
    if !e.Query? {
      UpdateEffect(m, e.r);
    }
  }

  lemma {:induction false} RunKeepsRunning(m: Monitor, es: seq<Event>)
    requires Running(m)
    ensures Run(m, es).Some? ==> Running(Run(m, es).value)
  {
    hide Step, Kinds;
    if es != [] {
      RunKeepsRunning(m, Init(es));
      if Run(m, Init(es)).Some? {
        StepKeepsRunning(Run(m, Init(es)).value, Last(es));
      }
    }
  }

  /** In every reachable state every statistic summarises exactly the values recorded
      since the last '['. */
  lemma {:induction false} AggregatesAreRecorded(m: Monitor, es: seq<Event>, i: nat)
    requires Started(m) && i < STATS && Run(m, es).Some?
    ensures Summarises(Run(m, es).value.stats[i], Recorded(m, es, i))
  {
    hide Update, Summarises, FreshStat, Extended;
    if es == [] {
      FreshSummarises(m.stats[i].now);
    } else {
      AggregatesAreRecorded(m, Init(es), i);
      RunKeepsRunning(m, Init(es));
      var n := Run(m, Init(es)).value;
      if !Last(es).Query? {
        var r := Last(es).r;
        UpdateSummarises(n, r, i, Recorded(m, Init(es), i));
        FreshSummarises(Update(n, r).1.stats[i].now);
        assert Last(es).Begin? && !Update(n, r).0 ==> Extended(Recorded(m, Init(es), i), n, r, i) == Recorded(m, Init(es), i) by {
          FailedExtendsNothing(Recorded(m, Init(es), i), n, r, i);
        }
      }
    }
  }

  lemma FailedExtendsNothing(vs: seq<StatValue>, n: Monitor, r: Reading, i: nat)
    requires Typed(n) && i < STATS
    ensures !Update(n, r).0 || !n.inRange ==> Extended(vs, n, r, i) == vs
  {
  }

  // ---- Sums of differences telescope

  lemma SumExtends(vs: seq<StatValue>, v: StatValue)
    requires v.Int?
    ensures SumInts(vs + [v]) == SumInts(vs) + v.i
  {
    assert Init(vs + [v]) == vs && Last(vs + [v]) == v;
  }

  /** Adding one move to a sum that already telescopes. */
  lemma OneMoreMove(sum: int, covered: int, now: int, last: int)
    requires ToI64(sum) == ToI64(last - covered)
    ensures ToI64(sum + Moved(now, last)) == ToI64(now - covered)
  {
    hide ToI64;
    assert ToI64(sum + ToI64(now - last)) == ToI64((now - last) + sum) by {
      ToI64Add(sum, now - last);
    }
    assert ToI64((now - last) + ToI64(sum)) == ToI64((now - last) + sum) by {
      ToI64Add(now - last, sum);
    }
    assert ToI64((now - last) + ToI64(last - covered)) == ToI64((now - last) + (last - covered)) by {
      ToI64Add(now - last, last - covered);
    }
    assert (now - last) + (last - covered) == now - covered;
  }

  /** A successful update inside the range adds the counter's move. */
  lemma UpdateTelescopes(n: Monitor, r: Reading, l: Lane, vs: seq<StatValue>, covered: int)
    requires Running(n) && IsLane(l) && n.inRange && Update(n, r).0
    requires ToI64(SumInts(vs)) == ToI64(Counter(n, l) - covered)
    ensures ToI64(SumInts(Extended(vs, n, r, StatOf(l)))) == ToI64(Counter(Update(n, r).1, l) - covered)
  {
    hide Update, ToI64, Moved, SumInts, Aggregate;
    UpdateEffect(n, r);
    var p := Update(n, r).1;
    SumExtends(vs, p.stats[StatOf(l)].now);
    OneMoreMove(SumInts(vs), covered, Counter(p, l), Counter(n, l));
  }

  /** Inside a range, in every reachable state: the recorded differences of a counter add
      up to how far it moved since the last '[', less what failed updates consumed. */
  lemma {:induction false} DeltasTelescope(m: Monitor, es: seq<Event>, l: Lane)
    requires Started(m) && IsLane(l) && Run(m, es).Some? && Run(m, es).value.inRange
    ensures ToI64(SumInts(Recorded(m, es, StatOf(l))))
         == ToI64(Counter(Run(m, es).value, l) - Base(m, es, l) - Lost(m, es, l))
  {
    hide Update, ToI64, FreshStat, Counter, Extended;
    var n := Run(m, Init(es)).value;
    RunKeepsRunning(m, Init(es));
    if Last(es).Query? {
      DeltasTelescope(m, Init(es), l);
    } else {
      var r, before := Last(es).r, Recorded(m, Init(es), StatOf(l));
      UpdateEffect(n, r);
      if !Update(n, r).0 {
        FailedExtendsNothing(before, n, r, StatOf(l));
        DeltasTelescope(m, Init(es), l);
      } else if Last(es).Begin? {
        assert Recorded(m, es, StatOf(l)) == [];
        SameCounters(Update(n, r).1, Run(m, es).value, l);
      } else {
        DeltasTelescope(m, Init(es), l);
        UpdateTelescopes(n, r, l, before, Base(m, Init(es), l) + Lost(m, Init(es), l));
      }
    }
  }

  lemma SameCounters(m: Monitor, n: Monitor, l: Lane)
    requires Typed(m) && Typed(n) && IsLane(l) && n.refs == m.refs && n.cpu == m.cpu && n.io == m.io
    ensures Counter(n, l) == Counter(m, l)
  {
  }

  /** A successful ']' inside a range. */
  predicate ClosesRange(m: Monitor, es: seq<Event>, r: Reading)
    requires Typed(m)
  {
    Run(m, es).Some? && Run(m, es).value.inRange && Update(Run(m, es).value, r).0
  }

  /** The sum reported by ']' is the counter it reads minus the counter the last '[' read
      and minus the moves of failed updates, modulo 2^64; however many ticks fell between,
      from whichever connections the commands came. */
  lemma RangeSum(m: Monitor, es: seq<Event>, r: Reading, l: Lane)
    requires Started(m) && IsLane(l)
    ensures ClosesRange(m, es, r) ==>
              var p := Step(Run(m, es).value, End(r)).value;
              && !p.inRange
              && p.stats[StatOf(l)].sum == Int(ToI64(Counter(p, l) - Base(m, es, l) - Lost(m, es, l)))
              && p.stats[StatOf(l)].cnt == |Recorded(m, es, StatOf(l))| + 1
  {
    hide Update, ToI64, FreshStat, Counter, SumInts, Run;
    if ClosesRange(m, es, r) {
      var n, i := Run(m, es).value, StatOf(l);
      RunKeepsRunning(m, es);
      AggregatesAreRecorded(m, es, i);
      DeltasTelescope(m, es, l);
      UpdateSummarises(n, r, i, Recorded(m, es, i));
      UpdateTelescopes(n, r, l, Recorded(m, es, i), Base(m, es, l) + Lost(m, es, l));
      SameCounters(Update(n, r).1, Step(n, End(r)).value, l);
      StepKeepsRunning(n, End(r));
      assert Extended(Recorded(m, es, i), n, r, i) == Recorded(m, es, i) + [Update(n, r).1.stats[i].now];
    }
  }

  // ---- When the sum is exact

  /** The number of updates that failed since the last successful '['. */
  function FailedUpdates(m: Monitor, es: seq<Event>): nat
    requires Typed(m) && Run(m, es).Some?
  {
    if es == [] then 0
    else if Last(es).Query? then FailedUpdates(m, Init(es))
    else if !Update(Run(m, Init(es)).value, Last(es).r).0 then FailedUpdates(m, Init(es)) + 1
    else if Last(es).Begin? then 0
    else FailedUpdates(m, Init(es))
  }

  /** Whether one of those moved the counter. */
  predicate FailedMove(m: Monitor, es: seq<Event>, l: Lane)
    requires Typed(m) && IsLane(l) && Run(m, es).Some?
  {
    if es == [] then false
    else if Last(es).Query? then FailedMove(m, Init(es), l)
    else if !Update(Run(m, Init(es)).value, Last(es).r).0 then
      FailedMove(m, Init(es), l) || Counter(Run(m, es).value, l) != Counter(Run(m, Init(es)).value, l)
    else if Last(es).Begin? then false
    else FailedMove(m, Init(es), l)
  }

  /** Since the last successful '[' the counter has never gone back. */
  predicate NeverBack(m: Monitor, es: seq<Event>, l: Lane)
    requires Typed(m) && IsLane(l) && Run(m, es).Some?
  {
    if es == [] then true
    else if Last(es).Begin? && Update(Run(m, Init(es)).value, Last(es).r).0 then true
    else NeverBack(m, Init(es), l) && Counter(Run(m, es).value, l) >= Counter(Run(m, Init(es)).value, l)
  }

  /** If every update since the last successful '[' succeeded nothing is lost, whatever
      ticks, queries and commands of other connections fell between. */
  lemma {:induction false} NoFailureNoLoss(m: Monitor, es: seq<Event>, l: Lane)
    requires Typed(m) && IsLane(l) && Run(m, es).Some? && FailedUpdates(m, es) == 0
    ensures Lost(m, es, l) == 0
  {
    hide Update, Counter;
    if es != [] {
      if Last(es).Query? || !Last(es).Begin? || !Update(Run(m, Init(es)).value, Last(es).r).0 {
        NoFailureNoLoss(m, Init(es), l);
      }
    }
  }

  /** The promise of the range, for any interleaving of any connections: when no update
      failed since the last '[', the sum reported by ']' is the counter it reads minus the
      counter that '[' read. */
  lemma SuccessfulRangeSum(m: Monitor, es: seq<Event>, r: Reading, l: Lane)
    requires Started(m) && IsLane(l)
    ensures ClosesRange(m, es, r) && FailedUpdates(m, es) == 0 ==>
              var p := Step(Run(m, es).value, End(r)).value;
              p.stats[StatOf(l)].sum == Int(Moved(Counter(p, l), Base(m, es, l)))
  {
    hide Update, FreshStat, Counter, Run, Base, Lost, FailedUpdates, ToI64;
    RangeSum(m, es, r, l);
    if ClosesRange(m, es, r) && FailedUpdates(m, es) == 0 {
      NoFailureNoLoss(m, es, l);
    }
  }

  /** A counter that never goes back loses no more than it moved, and loses nothing
      exactly when no failed update moved it. */
  lemma {:induction false} LossOfMonotone(m: Monitor, es: seq<Event>, l: Lane)
    requires Typed(m) && IsLane(l) && Run(m, es).Some? && NeverBack(m, es, l)
    ensures 0 <= Lost(m, es, l) <= Counter(Run(m, es).value, l) - Base(m, es, l)
    ensures Lost(m, es, l) == 0 <==> !FailedMove(m, es, l)
  {
    hide Update, Counter;
    if es != [] {
      if Last(es).Query? || !Last(es).Begin? || !Update(Run(m, Init(es)).value, Last(es).r).0 {
        LossOfMonotone(m, Init(es), l);
      }
    }
  }

  /** How far the counter moved from the last '[' to the ']' that closes the range. */
  function MovedInRange(m: Monitor, es: seq<Event>, r: Reading, l: Lane): int
    requires Typed(m) && IsLane(l) && ClosesRange(m, es, r)
  {
    Counter(Update(Run(m, es).value, r).1, l) - Base(m, es, l)
  }

  /** The counter has not gone back since the last '[', up to and including the ']'. */
  predicate NeverBackInRange(m: Monitor, es: seq<Event>, r: Reading, l: Lane)
    requires Typed(m) && IsLane(l) && ClosesRange(m, es, r)
  {
    NeverBack(m, es, l) && Counter(Update(Run(m, es).value, r).1, l) >= Counter(Run(m, es).value, l)
  }

  function ReportedSum(m: Monitor, es: seq<Event>, r: Reading, l: Lane): StatValue
    requires Typed(m) && IsLane(l) && ClosesRange(m, es, r)
  {
    Step(Run(m, es).value, End(r)).value.stats[StatOf(l)].sum
  }

  /** For a counter that never goes back and moves less than 2^63 in all, the reported sum
      is the plain difference of the two readings exactly when no failed update since the
      last '[' moved that counter. */
  lemma RangeSumExactly(m: Monitor, es: seq<Event>, r: Reading, l: Lane)
    requires Started(m) && IsLane(l)
    ensures ClosesRange(m, es, r) && NeverBackInRange(m, es, r, l)
            && 0 <= MovedInRange(m, es, r, l) < 0x8000_0000_0000_0000 ==>
              (ReportedSum(m, es, r, l) == Int(MovedInRange(m, es, r, l)) <==> !FailedMove(m, es, l))
  {
    hide Update, FreshStat, Counter, Base, Lost, FailedMove, NeverBack, ToI64, Run, Kinds;
    RangeSum(m, es, r, l);
    if ClosesRange(m, es, r) && NeverBackInRange(m, es, r, l) {
      var n := Run(m, es).value;
      SameCounters(Update(n, r).1, Step(n, End(r)).value, l);
      LossOfMonotone(m, es, l);
      var moved, lost := MovedInRange(m, es, r, l), Lost(m, es, l);
      if 0 <= moved < 0x8000_0000_0000_0000 {
        ToI64Small(moved - lost);
      }
    }
  }

  // ---- The sum in the numbers of the files

  /** The number a reading gives for a counter; processor times in clock ticks are scaled
      to milliseconds. */
  function FileNumber(msPerClk: nat, r: Reading, l: Lane): Option<int>
    requires IsLane(l)
  {
    match l
    case NetLane(k) => if r.net[NetField(k)].None? then None else Some(r.net[NetField(k)].value)
    case CpuLane(k) =>
      if LastTotal(r.cpu.lines, k).None? then None else Some(LastTotal(r.cpu.lines, k).value * msPerClk)
    case SwitchLane => if LastSwitches(r.cpu.lines).None? then None else Some(LastSwitches(r.cpu.lines).value)
    case IoLane(k) => if LastDisk(r.disks.lines, k).None? then None else Some(LastDisk(r.disks.lines, k).value)
  }

  lemma ToI64Mod(x: int)
    ensures ToI64(x % 0x1_0000_0000_0000_0000) == ToI64(x)
  {
  }

  lemma UpdateIsHalves(m: Monitor, r: Reading)
    requires Running(m) && Update(m, r).0
    ensures UpdateFirstHalf(m, r).0 && Typed(UpdateFirstHalf(m, r).1)
    ensures UpdateSecondHalf(UpdateFirstHalf(m, r).1, r).0
    ensures var n1 := UpdateFirstHalf(m, r).1;
            var n2, n := UpdateSecondHalf(n1, r).1, Update(m, r).1;
            && n1.cpu == m.cpu && n1.io == m.io
            && n.refs == n2.refs == n1.refs && n.cpu == n2.cpu && n.io == n2.io
  {
    hide UpdateFirstHalf, UpdateSecondHalf;
    FirstHalfEffect(m, r);
    SecondHalfEffect(UpdateFirstHalf(m, r).1, r);
  }

  /** After a successful update every counter is the number its file gives for it, as a
      64-bit number. */
  lemma CounterIsFileNumber(m: Monitor, r: Reading, l: Lane)
    requires Running(m) && IsLane(l) && Update(m, r).0
    ensures var v := FileNumber(m.cpu.msPerClk, r, l);
            v.Some? ==> ToI64(Counter(Update(m, r).1, l)) == ToI64(v.value)
  {
    hide UpdateFirstHalf, UpdateSecondHalf, ToI64, UpdateCpu, UpdateIo, Update, LastTotal, LastDisk, LastSwitches;
    UpdateIsHalves(m, r);
    var n1 := UpdateFirstHalf(m, r).1;
    FirstHalfByPosition(m, r, 0);
    SecondHalfByPosition(n1, r, 0);
    match l
    case NetLane(k) =>
      assert NetField(k) == [1, 3, 9, 10][k];
    case CpuLane(k) =>
      CpuFileByPosition(m.cpu, r.cpu, k);
      if LastTotal(r.cpu.lines, k).Some? {
        ToI64Mod(LastTotal(r.cpu.lines, k).value * m.cpu.msPerClk);
      }
    case SwitchLane =>
      CpuFileByPosition(m.cpu, r.cpu, 0);
    case IoLane(k) =>
      IoFileByPosition(m.io, r.disks, k);
      if LastDisk(r.disks.lines, k).Some? {
        ToI64Mod(LastDisk(r.disks.lines, k).value);
      }
  }

  lemma {:induction false} CpuLinesKeepClock(c: Cpu, lines: seq<CpuLine>)
    ensures ReadCpuLines(c, lines).1.msPerClk == c.msPerClk
  {
    if lines != [] {
      CpuLinesKeepClock(c, Init(lines));
    }
  }

  lemma UpdateKeepsClock(m: Monitor, r: Reading)
    requires Running(m)
    ensures Update(m, r).1.cpu.msPerClk == m.cpu.msPerClk
  {
    hide ReadCpuLines, ReadGauges, PublishCpu, UpdateIo, AggregateAll, SetInts, ReadNet;
    CpuLinesKeepClock(m.cpu.(last := m.cpu.totals, switchesLast := m.cpu.switches), r.cpu.lines);
    FirstHalfEffect(m, r);
  }

  lemma {:induction false} RunKeepsClock(m: Monitor, es: seq<Event>)
    requires Running(m) && Run(m, es).Some?
    ensures Run(m, es).value.cpu.msPerClk == m.cpu.msPerClk
  {
    hide Update, Kinds;
    if es != [] {
      RunKeepsClock(m, Init(es));
      RunKeepsRunning(m, Init(es));
      if !Last(es).Query? {
        UpdateKeepsClock(Run(m, Init(es)).value, Last(es).r);
      }
    }
  }

  /** The reading of the last successful '['. */
  function LastBegin(m: Monitor, es: seq<Event>): Option<Reading>
    requires Typed(m) && Run(m, es).Some?
  {
    if es == [] then None
    else if Last(es).Begin? && Update(Run(m, Init(es)).value, Last(es).r).0 then Some(Last(es).r)
    else LastBegin(m, Init(es))
  }

  lemma {:induction false} BaseIsFileNumber(m: Monitor, es: seq<Event>, l: Lane)
    requires Started(m) && IsLane(l) && Run(m, es).Some?
    ensures Run(m, es).value.inRange ==> LastBegin(m, es).Some?
    ensures LastBegin(m, es).Some? ==>
              var v := FileNumber(m.cpu.msPerClk, LastBegin(m, es).value, l);
              v.Some? ==> ToI64(Base(m, es, l)) == ToI64(v.value)
  {
    hide Update, ToI64, FreshStat, FileNumber, Counter;
    if es != [] {
      var n := Run(m, Init(es)).value;
      BaseIsFileNumber(m, Init(es), l);
      RunKeepsRunning(m, Init(es));
      RunKeepsClock(m, Init(es));
      if !Last(es).Query? {
        UpdateEffect(n, Last(es).r);
        if Last(es).Begin? && Update(n, Last(es).r).0 {
          CounterIsFileNumber(n, Last(es).r, l);
          SameCounters(Update(n, Last(es).r).1, Run(m, es).value, l);
        }
      }
    }
  }

  lemma DifferenceOfNumbers(c: int, b: int, v: int, w: int)
    requires ToI64(c) == ToI64(v) && ToI64(b) == ToI64(w)
    ensures Moved(c, b) == ToI64(v - w)
  {
    hide ToI64;
    var i := ToI64Multiple(c);
    var j := ToI64Multiple(v);
    var k := ToI64Multiple(b);
    var n := ToI64Multiple(w);
    ToI64Shift(v - w, j - i - n + k);
  }

  /** The reported sum in the numbers of the two files: what the file read by ']' gives,
      less what the file read by the last '[' gives, when no update failed in between. */
  lemma RangeSumInFileNumbers(m: Monitor, es: seq<Event>, r: Reading, l: Lane)
    requires Started(m) && IsLane(l)
    ensures ClosesRange(m, es, r) && FailedUpdates(m, es) == 0 ==>
              && LastBegin(m, es).Some?
              && var first := FileNumber(m.cpu.msPerClk, LastBegin(m, es).value, l);
                 var last := FileNumber(m.cpu.msPerClk, r, l);
                 first.Some? && last.Some? ==> ReportedSum(m, es, r, l) == Int(ToI64(last.value - first.value))
  {
    hide Update, FreshStat, Counter, Run, Base, Lost, FailedUpdates, ToI64, FileNumber, LastBegin, Kinds;
    if ClosesRange(m, es, r) && FailedUpdates(m, es) == 0 {
      var n := Run(m, es).value;
      SuccessfulRangeSum(m, es, r, l);
      BaseIsFileNumber(m, es, l);
      RunKeepsRunning(m, es);
      RunKeepsClock(m, es);
      CounterIsFileNumber(n, r, l);
      SameCounters(Update(n, r).1, Step(n, End(r)).value, l);
      var first := FileNumber(m.cpu.msPerClk, LastBegin(m, es).value, l);
      var last := FileNumber(m.cpu.msPerClk, r, l);
      if first.Some? && last.Some? {
        DifferenceOfNumbers(Counter(Step(n, End(r)).value, l), Base(m, es, l), last.value, first.value);
      }
    }
  }

  // ---- The answers to a client

  /** After one command byte: the monitor, the packets sent, the readings not yet used, and
      whether the connection stays open. */
  datatype Session = Session(m: Monitor, packets: seq<seq<Stat>>, left: seq<Reading>, open: bool)

  function Serve(m: Monitor, command: char, readings: seq<Reading>): (s: Session)
    requires Typed(m) && (command in "[]" ==> readings != [])
    ensures Typed(s.m)
  {
    if command == '[' then
      Session(Step(m, Begin(readings[0])).value, [], readings[1..], Update(m, readings[0]).0)
    else if command == ']' then
      var (ok, n) := (Update(m, readings[0]).0, Step(m, End(readings[0])).value);
      Session(n, if ok then [n.stats] else [], readings[1..], ok)
    else if command == '?' then Session(m, [m.stats], readings, true)
    else Session(m, [], readings, command != 'q')
  }

  /** A ']' is answered with the statistics of its own update, after the range was closed,
      and a '?' with those at hand; nothing else is answered. The connection closes exactly
      on 'q' or after an update that failed. */
  lemma Answers(m: Monitor, command: char, readings: seq<Reading>)
    requires Typed(m) && (command in "[]" ==> readings != [])
    ensures var s := Serve(m, command, readings);
            && (command == ']' ==>
                  if Update(m, readings[0]).0 then s.packets == [s.m.stats] && !s.m.inRange else s.packets == [])
            && (command == '[' ==>
                  s.packets == [] && (s.open ==> s.m.inRange && forall i :: 0 <= i < STATS ==> s.m.stats[i].cnt == 0))
            && (command == '?' ==> s.packets == [m.stats])
            && (command !in "[]?" ==> s.packets == [])
            && (command !in "[]" ==> s.m == m && s.left == readings)
            && (command in "[]" ==> s.left == readings[1..])
            && (s.open <==> command != 'q' && (command in "[]" ==> Update(m, readings[0]).0))
  {
    hide Update;
  }

  /** The packet a client gets for a ']' that closes a range carries, for every counter,
      the sum of its moves since the last '[' and the number of updates; and the plain
      move when no update failed in between. */
  lemma PacketCarriesRange(m: Monitor, es: seq<Event>, readings: seq<Reading>, l: Lane)
    requires Started(m) && IsLane(l) && readings != []
    ensures ClosesRange(m, es, readings[0]) ==>
              var s := Serve(Run(m, es).value, ']', readings);
              && |s.packets| == 1 && |s.packets[0]| == STATS
              && var stat := s.packets[0][StatOf(l)];
                 && stat.sum == Int(ToI64(Counter(s.m, l) - Base(m, es, l) - Lost(m, es, l)))
                 && stat.cnt == |Recorded(m, es, StatOf(l))| + 1
                 && (FailedUpdates(m, es) == 0 ==> stat.sum == Int(Moved(Counter(s.m, l), Base(m, es, l))))
  {
    hide Update, FreshStat, Counter, Run, Base, Lost, FailedUpdates, Recorded, ToI64;
    if ClosesRange(m, es, readings[0]) {
      RangeSum(m, es, readings[0], l);
      SuccessfulRangeSum(m, es, readings[0], l);
    }
  }

  // ---- Ranges of one client

  /** Nothing but ticks and queries, as when a single client measures. */
  predicate Quiet(es: seq<Event>) {
    forall e :: e in es ==> e.Tick? || e.Query?
  }

  function Ticks(es: seq<Event>): nat {
    if es == [] then 0 else Ticks(Init(es)) + if Last(es).Tick? then 1 else 0
  }

  /** Between a successful '[' and the next command: the range is open, nothing is lost,
      the base is the reading of that '[' and one value is recorded a tick. */
  lemma {:induction false} QuietRange(m: Monitor, before: seq<Event>, r: Reading, ticks: seq<Event>, l: Lane)
    requires Started(m) && IsLane(l) && Quiet(ticks)
    requires Run(m, before).Some? && Update(Run(m, before).value, r).0
    requires Run(m, before + [Begin(r)] + ticks).Some?
    ensures var es := before + [Begin(r)] + ticks;
            && Run(m, es).value.inRange && Lost(m, es, l) == 0
            && |Recorded(m, es, StatOf(l))| == Ticks(ticks)
            && Base(m, es, l) == Counter(Update(Run(m, before).value, r).1, l)
  {
    hide Update, FreshStat, Counter;
    var es := before + [Begin(r)] + ticks;
    RunKeepsRunning(m, before);
    if ticks == [] {
      assert Init(es) == before && Last(es) == Begin(r);
      SameCounters(Update(Run(m, before).value, r).1, Run(m, es).value, l);
    } else {
      assert Init(es) == before + [Begin(r)] + Init(ticks) && Last(es) == Last(ticks);
      QuietRange(m, before, r, Init(ticks), l);
      RunKeepsRunning(m, Init(es));
      if Last(es).Tick? {
        UpdateEffect(Run(m, Init(es)).value, Last(es).r);
      }
    }
  }

  /** The report of a client that sends '[' and then ']': the sum of every counter's moves
      depends on the two readings only, and the count is the number of ticks plus one. */
  lemma QuietRangeReport(m: Monitor, before: seq<Event>, r: Reading, ticks: seq<Event>, r2: Reading, l: Lane)
    requires Started(m) && IsLane(l) && Quiet(ticks)
    requires Run(m, before).Some? && Update(Run(m, before).value, r).0
    ensures ClosesRange(m, before + [Begin(r)] + ticks, r2) ==>
              var first := Counter(Update(Run(m, before).value, r).1, l);
              var p := Step(Run(m, before + [Begin(r)] + ticks).value, End(r2)).value;
              && p.stats[StatOf(l)].sum == Int(Moved(Counter(p, l), first))
              && p.stats[StatOf(l)].cnt == Ticks(ticks) + 1
  {
    hide Update, FreshStat, Counter, Run, Step, Recorded, Base, Lost, ToI64;
    var es := before + [Begin(r)] + ticks;
    if ClosesRange(m, es, r2) {
      QuietRange(m, before, r, ticks, l);
      RangeSum(m, es, r2, l);
    }
  }

  // ---- A range with a failed update

  /** All files read, with the given number of received bytes and nothing else. */
  function CalmReading(rx: I64): Reading {
    Reading(Some(0.0), [], [], seq(17, i => Some(if i == 1 then rx else 0)),
            CpuFile(true, 10, [], []), [], DiskFile(true, [], []))
  }

  /** The same number of received bytes, but the next number does not parse. */
  function BrokenReading(rx: I64): Reading {
    CalmReading(rx).(net := seq(17, i => if i == 1 then Some(rx) else None))
  }

  lemma NetReadings(t: seq<Stat>, refs: seq<I64>, rx: I64)
    requires |t| == STATS && |refs| == 4
    ensures var calm := ReadNet(t, refs, CalmReading(rx).net, 4);
            calm.0 && calm.2[0] == rx
    ensures var broken := ReadNet(t, refs, BrokenReading(rx).net, 4);
            !broken.0 && broken.2[0] == rx
  {
    hide SetNow, Moved;
    var calm, broken := CalmReading(rx).net, BrokenReading(rx).net;
    assert ReadNet(t, refs, calm, 0) == (true, t, refs) == ReadNet(t, refs, broken, 0);
    assert ReadNet(t, refs, calm, 1).2[0] == rx && ReadNet(t, refs, broken, 1).2[0] == rx;
    assert ReadNet(t, refs, calm, 2).0 && ReadNet(t, refs, calm, 2).2[0] == rx;
    assert ReadNet(t, refs, calm, 3).0 && ReadNet(t, refs, calm, 3).2[0] == rx;
    assert !ReadNet(t, refs, broken, 2).0 && ReadNet(t, refs, broken, 2).2[0] == rx;
    NetStop(t, refs, broken, 2, 4);
  }

  lemma NothingToRead(t: seq<Stat>, c: Cpu, totals: seq<nat>)
    requires |t| == STATS
    ensures ReadGauges(t, []) == (true, t) && ReadCpuLines(c, []) == (true, c) && ReadDisks(totals, []) == (true, totals)
  {
  }

  lemma CalmReadingSucceeds(m: Monitor, rx: I64)
    requires Running(m)
    ensures Update(m, CalmReading(rx)).0 && Update(m, CalmReading(rx)).1.refs[0] == rx
  {
    hide AggregateAll, PublishCpu, SetInts, ReadNet, ReadGauges, ReadCpuLines, ReadDisks, SetNow, OneKind;
    var t0 := SetNow(m.stats, 0, Float(0.0));
    NothingToRead(t0, m.cpu, m.io.totals);
    NetReadings(t0, m.refs, rx);
    var n := UpdateFirstHalf(m, CalmReading(rx)).1;
    FirstHalfEffect(m, CalmReading(rx));
    var c := m.cpu.(last := m.cpu.totals, switchesLast := m.cpu.switches);
    NothingToRead(PublishCpu(n.stats, c), c, m.io.totals);
  }

  lemma BrokenReadingFails(m: Monitor, rx: I64)
    requires Running(m)
    ensures !Update(m, BrokenReading(rx)).0 && Update(m, BrokenReading(rx)).1.refs[0] == rx
  {
    hide AggregateAll, PublishCpu, SetInts, ReadNet, ReadGauges, SetNow, OneKind;
    var t0 := SetNow(m.stats, 0, Float(0.0));
    NothingToRead(t0, m.cpu, m.io.totals);
    NetReadings(t0, m.refs, rx);
  }

  /** A concrete range whose report is wrong: five bytes arrive, but a failed '[' from
      another connection read them first, so the sum reported at ']' is 0. */
  lemma FailedUpdateLosesMoves(m: Monitor)
    requires Started(m)
    ensures var es := [Begin(CalmReading(0)), Begin(BrokenReading(5))];
            && Run(m, es).Some? && Run(m, es).value.inRange && Update(Run(m, es).value, CalmReading(5)).0
            && var p := Step(Run(m, es).value, End(CalmReading(5))).value;
               && Counter(p, NetLane(0)) - Base(m, es, NetLane(0)) == 5
               && p.stats[NET].sum == Int(0)
  {
    hide Update, FreshStat, CalmReading, BrokenReading, Kinds, ToI64;
    var e1, e2 := Begin(CalmReading(0)), Begin(BrokenReading(5));
    var es := [e1, e2];
    assert Init(es) == [e1] && Init([e1]) == [];
    CalmReadingSucceeds(m, 0);
    assert Run(m, []) == Some(m) && Run(m, [e1]) == Step(m, e1) && Step(m, e1).Some?;
    RunKeepsRunning(m, [e1]);
    var n := Run(m, [e1]).value;
    BrokenReadingFails(n, 5);
    UpdateEffect(n, BrokenReading(5));
    RunKeepsRunning(m, es);
    CalmReadingSucceeds(Run(m, es).value, 5);
    RangeSum(m, es, CalmReading(5), NetLane(0));
    ToI64Small(0);
  }

  lemma FrozenStep(m: Monitor, e: Event)
    requires Running(m) && !m.inRange && Step(m, e).Some?
    requires e.Begin? ==> !Update(m, e.r).0
    ensures var n := Step(m, e).value; Running(n) && !n.inRange && OnlyNow(m.stats, n.stats)
  {
    hide Update;
    StepKeepsRunning(m, e);
    if !e.Query? {
      UpdateEffect(m, e.r);
    }
  }

  /** No '[' of the run succeeds. */
  predicate NoBegin(m: Monitor, es: seq<Event>)
    requires Typed(m) && Run(m, es).Some?
  {
    es == [] || (
      NoBegin(m, Init(es)) && (Last(es).Begin? ==> !Update(Run(m, Init(es)).value, Last(es).r).0))
  }

  /** Outside a range the aggregates stay frozen over any run without a successful '['. */
  lemma {:induction false} FrozenOutside(m: Monitor, es: seq<Event>)
    requires Running(m) && !m.inRange && Run(m, es).Some? && NoBegin(m, es)
    ensures var n := Run(m, es).value; Running(n) && !n.inRange && OnlyNow(m.stats, n.stats)
  {
    hide Step, Update;
    if es != [] {
      FrozenOutside(m, Init(es));
      FrozenStep(Run(m, Init(es)).value, Last(es));
    }
  }

  // ---- Bounds of an integer statistic

  lemma {:induction false} SumWithin(vs: seq<StatValue>, lo: int, hi: int)
    requires forall v :: v in vs ==> v.Int? && lo <= v.i <= hi
    ensures lo * |vs| <= SumInts(vs) <= hi * |vs|
  {
    if vs != [] {
      SumWithin(Init(vs), lo, hi);
      assert Last(vs) in vs;
      assert lo * |vs| == lo * |Init(vs)| + lo && hi * |vs| == hi * |Init(vs)| + hi;
    }
  }

  /** The least and greatest values are among those recorded, and bracket the sum whenever
      the true total fits 64 bits. */
  lemma ExtremesBracketSum(m: Monitor, es: seq<Event>, i: nat)
    requires Started(m) && 1 <= i < STATS && Run(m, es).Some?
    ensures var s, vs := Run(m, es).value.stats[i], Recorded(m, es, i);
            && s.min.Int? && s.max.Int? && s.sum.Int?
            && (vs != [] ==> s.min in vs && s.max in vs)
            && (vs != [] && -0x8000_0000_0000_0000 <= SumInts(vs) < 0x8000_0000_0000_0000 ==>
                  s.min.i * s.cnt <= s.sum.i <= s.max.i * s.cnt)
  {
    hide Run, Recorded, FreshStat, ToI64, SumInts, FloatMax;
    AggregatesAreRecorded(m, es, i);
    RunKeepsRunning(m, es);
    var s, vs := Run(m, es).value.stats[i], Recorded(m, es, i);
    if vs != [] {
      assert vs[0] in vs;
      SumWithin(vs, s.min.i, s.max.i);
      if -0x8000_0000_0000_0000 <= SumInts(vs) < 0x8000_0000_0000_0000 {
        ToI64Small(SumInts(vs));
      }
    }
  }

  // ---- The monitor's objects

  lemma {:induction false} CountersPrefix(c: seq<nat>, vals: seq<Option<nat>>, scale: nat, k: nat)
    requires k <= |vals| && (!ReadCounters(c, vals[..k], scale).0 || k >= |c|)
    ensures ReadCounters(c, vals, scale) == ReadCounters(c, vals[..k], scale)
    decreases |vals|
  {
    if k == |vals| {
      assert vals[..k] == vals;
    } else {
      assert Init(vals)[..k] == vals[..k];
      CountersPrefix(c, Init(vals), scale, k);
    }
  }

  /** Overwrites counters with the numbers of a line, one after the other. */
  method StoreCounters(c: seq<nat>, vals: seq<Option<nat>>, scale: nat) returns (ok: bool, d: seq<nat>)
    ensures (ok, d) == ReadCounters(c, vals, scale)
    ensures ok <==> forall j :: 0 <= j < |vals| && j < |c| ==> vals[j].Some?
    ensures |d| == |c|
    ensures forall k :: 0 <= k < |c| ==>
              d[k] == if k < |vals| && (forall j :: 0 <= j <= k ==> vals[j].Some?)
                      then vals[k].value * scale % 0x1_0000_0000_0000_0000 else c[k]
  {
    CountersByPosition(c, vals, scale, Readable(vals, |c|));
    d := c;
    var k := 0;
    while k < |vals| && k < |d|
      invariant k <= |vals| && |d| == |c| && ReadCounters(c, vals[..k], scale) == (true, d)
    {
      assert Init(vals[..k + 1]) == vals[..k];
      if vals[k].None? {
        CountersPrefix(c, vals, scale, k + 1);
        return false, d;
      }
      d := d[k := Wrap64(vals[k].value * scale)];
      k := k + 1;
    }
    if k < |vals| {
      CountersPrefix(c, vals, scale, k);
    } else {
      assert vals[..k] == vals;
    }
    ok := true;
  }

  lemma {:induction false} CpuLinesStop(c: Cpu, lines: seq<CpuLine>, k: nat)
    requires k <= |lines| && !ReadCpuLines(c, lines[..k]).0
    ensures ReadCpuLines(c, lines) == ReadCpuLines(c, lines[..k])
    decreases |lines|
  {
    if k == |lines| {
      assert lines[..k] == lines;
    } else {
      assert Init(lines)[..k] == lines[..k];
      CpuLinesStop(c, Init(lines), k);
    }
  }

  class CpuStat {
    var isOpen: bool
    var msPerClk: nat
    var totals: seq<nat>
    var last: seq<nat>
    var switches: nat
    var switchesLast: nat
    var running: nat
    var blocked: nat

    function State(): Cpu
      reads this
    {
      Cpu(isOpen, msPerClk, totals, last, switches, switchesLast, running, blocked)
    }

    constructor ()
      ensures State() == FRESH_CPU
    {
      isOpen, msPerClk := false, 0;
      totals, last := [0, 0, 0, 0, 0, 0, 0, 0, 0, 0], [0, 0, 0, 0, 0, 0, 0, 0, 0, 0];
      switches, switchesLast, running, blocked := 0, 0, 0, 0;
    }

    method ReadLine(line: CpuLine) returns (ok: bool)
      modifies this
      ensures (ok, State()) == ReadCpuLine(old(State()), line)
    {
      ok := true;
      match line
      case TotalsLine(vals) =>
        ok, totals := StoreCounters(totals, vals, msPerClk);
      case SwitchesLine(v) =>
        if v.None? { return false; }
        switches := v.value;
      case RunningLine(v) =>
        if v.None? { return false; }
        running := v.value;
      case BlockedLine(v) =>
        if v.None? { return false; }
        blocked := v.value;
      case OtherLine =>
    }

    /** The first call opens the file and calls itself once. */
    method Update(f: CpuFile) returns (ok: bool)
      modifies this
      ensures (ok, State()) == UpdateCpu(old(State()), f)
      ensures ok && |old(totals)| == |old(last)| == 10 ==>
                && |totals| == |last| == 10 && msPerClk == (if old(isOpen) then old(msPerClk) else f.msPerClk)
                && forall k :: 0 <= k < 10 ==>
                     totals[k] == ValueOr(LastTotal(f.lines, k), msPerClk, last[k])
                     && (old(isOpen) ==> last[k] == old(totals[k]))
      decreases if isOpen then 0 else 1
    {
      hide ReadCpuLine, LastTotal, ValueOr;
      CpuFileCounters(State(), f);
      if !isOpen {
        if !f.opens {
          return false;
        }
        isOpen, msPerClk := true, f.msPerClk;
        ok := Update(f.(lines := f.first));
        if !ok {
          return false;
        }
      }
      last, switchesLast := totals, switches;
      ghost var start := State();
      var k := 0;
      while k < |f.lines|
        invariant k <= |f.lines| && ReadCpuLines(start, f.lines[..k]) == (true, State())
      {
        assert Init(f.lines[..k + 1]) == f.lines[..k];
        ok := ReadLine(f.lines[k]);
        if !ok {
          CpuLinesStop(start, f.lines, k + 1);
          return false;
        }
        k := k + 1;
      }
      assert f.lines[..k] == f.lines;
      ok := true;
    }

    method TotalsMs() returns (r: seq<I64>)
      requires |totals| == 10 && |last| == 10
      ensures |r| == 10 && forall k :: 0 <= k < 10 ==> r[k] == MovedUnsigned(totals[k], last[k])
    {
      r := [];
      var i := 0;
      while i < 10
        invariant i <= 10 && |r| == i
        invariant forall k :: 0 <= k < i ==> r[k] == MovedUnsigned(totals[k], last[k])
      {
        r := r + [MovedUnsigned(totals[i], last[i])];
        i := i + 1;
      }
    }
  }

  lemma {:induction false} DisksStop(totals: seq<nat>, lines: seq<DiskLine>, k: nat)
    requires k <= |lines| && !ReadDisks(totals, lines[..k]).0
    ensures ReadDisks(totals, lines) == ReadDisks(totals, lines[..k])
    decreases |lines|
  {
    if k == |lines| {
      assert lines[..k] == lines;
    } else {
      assert Init(lines)[..k] == lines[..k];
      DisksStop(totals, Init(lines), k);
    }
  }

  class IoStat {
    var isOpen: bool
    var totals: seq<nat>
    var last: seq<nat>

    ghost function State(): Io
      reads this
    {
      Io(isOpen, totals, last)
    }

    constructor ()
      ensures State() == FRESH_IO
    {
      isOpen, totals, last := false, [0, 0, 0, 0, 0, 0, 0, 0], [0, 0, 0, 0, 0, 0, 0, 0];
    }

    method ReadLine(line: DiskLine) returns (ok: bool)
      modifies this`totals
      ensures (ok, totals)
              == if line.ignored then (true, old(totals)) else ReadCounters(old(totals), line.vals, 1)
    {
      ok := true;
      if !line.ignored {
        ok, totals := StoreCounters(totals, line.vals, 1);
      }
    }

    method Update(f: DiskFile) returns (ok: bool)
      modifies this
      ensures (ok, State()) == UpdateIo(old(State()), f)
      ensures ok && |old(totals)| == |old(last)| == 8 ==>
                && |totals| == |last| == 8
                && forall k :: 0 <= k < 8 ==>
                     totals[k] == ValueOr(LastDisk(f.lines, k), 1, last[k])
                     && (old(isOpen) ==> last[k] == old(totals[k]))
      decreases if isOpen then 0 else 1
    {
      hide ReadCounters, LastDisk, ValueOr;
      DiskFileCounters(State(), f);
      if !isOpen {
        if !f.opens {
          return false;
        }
        isOpen := true;
        ok := Update(f.(lines := f.first));
        if !ok {
          return false;
        }
      }
      last := totals;
      var k := 0;
      while k < |f.lines|
        invariant k <= |f.lines| && ReadDisks(last, f.lines[..k]) == (true, totals)
        invariant isOpen && last == (if old(isOpen) then old(totals) else ReadIo(old(State()).(isOpen := true), f.first).1.totals)
      {
        assert Init(f.lines[..k + 1]) == f.lines[..k];
        ok := ReadLine(f.lines[k]);
        if !ok {
          DisksStop(last, f.lines, k + 1);
          return false;
        }
        k := k + 1;
      }
      assert f.lines[..k] == f.lines;
      ok := true;
    }
  }

  lemma {:induction false} GaugesStop(t: seq<Stat>, lines: seq<Option<Gauge>>, k: nat)
    requires |t| == STATS && k <= |lines| && !ReadGauges(t, lines[..k]).0
    ensures ReadGauges(t, lines) == ReadGauges(t, lines[..k])
    decreases |lines|
  {
    if k == |lines| {
      assert lines[..k] == lines;
    } else {
      hide SetNow;
      assert Init(lines)[..k] == lines[..k];
      GaugesStop(t, Init(lines), k);
    }
  }

  lemma {:induction false} NetStop(t: seq<Stat>, refs: seq<I64>, vals: NetFields, k: nat, n: nat)
    requires |t| == STATS && |refs| == 4 && k <= n <= 4 && !ReadNet(t, refs, vals, k).0
    ensures ReadNet(t, refs, vals, n) == ReadNet(t, refs, vals, k)
  {
    if k < n {
      NetStop(t, refs, vals, k, n - 1);
    }
  }

  class Stats {
    var inRange: bool
    var stats: seq<Stat>
    var refs: seq<I64>
    const cpu: CpuStat
    const io: IoStat

    ghost function State(): Monitor
      reads this, cpu, io
    {
      Monitor(inRange, stats, refs, cpu.State(), io.State())
    }

    constructor ()
      ensures State() == FreshMonitor() && fresh(cpu) && fresh(io)
    {
      inRange, stats, refs := false, FreshStats(), [0, 0, 0, 0];
      cpu := new CpuStat();
      io := new IoStat();
    }

    method ReadGaugeLines(lines: seq<Option<Gauge>>) returns (ok: bool)
      requires |stats| == STATS
      modifies this`stats
      ensures (ok, stats) == ReadGauges(old(stats), lines)
    {
      var k := 0;
      while k < |lines|
        invariant k <= |lines| && |stats| == STATS && ReadGauges(old(stats), lines[..k]) == (true, stats)
      {
        assert Init(lines[..k + 1]) == lines[..k];
        if lines[k].None? {
          GaugesStop(old(stats), lines, k + 1);
          return false;
        }
        if lines[k].value.index.Some? {
          stats := SetNow(stats, lines[k].value.index.value, Int(lines[k].value.value));
        }
        k := k + 1;
      }
      assert lines[..k] == lines;
      ok := true;
    }

    method UpdateNet(vals: NetFields) returns (ok: bool)
      requires |stats| == STATS && |refs| == 4
      modifies this`stats, this`refs
      ensures (ok, stats, refs) == ReadNet(old(stats), old(refs), vals, 4)
    {
      var k := 0;
      while k < 4
        invariant k <= 4 && |stats| == STATS && |refs| == 4
        invariant ReadNet(old(stats), old(refs), vals, k) == (true, stats, refs)
      {
        if vals[NetField(k)].None? {
          NetStop(old(stats), old(refs), vals, k + 1, 4);
          return false;
        }
        stats := SetNow(stats, NET + k, Int(Moved(vals[NetField(k)].value, refs[k])));
        refs := refs[k := vals[NetField(k)].value];
        k := k + 1;
      }
      ok := true;
    }

    method AggregateEach()
      requires Kinds(stats)
      modifies this`stats
      ensures stats == AggregateAll(old(stats))
    {
      hide Aggregate;
      var i := 0;
      while i < |stats|
        invariant i <= |stats| == |old(stats)|
        invariant forall k :: 0 <= k < i ==> stats[k] == Aggregate(old(stats)[k])
        invariant forall k :: i <= k < |stats| ==> stats[k] == old(stats)[k]
      {
        stats := stats[i := Aggregate(stats[i])];
        i := i + 1;
      }
    }

    method FirstHalf(r: Reading) returns (ok: bool)
      requires Typed(State())
      modifies this
      ensures (ok, State()) == UpdateFirstHalf(old(State()), r)
    {
      hide ReadGauges, ReadNet, OneKind;
      if r.load.None? {
        return false;
      }
      stats := SetNow(stats, 0, Float(r.load.value));
      ok := ReadGaugeLines(r.mem);
      if !ok {
        return;
      }
      ok := ReadGaugeLines(r.faasm);
      if !ok {
        return;
      }
      ok := UpdateNet(r.net);
    }

    method SecondHalf(r: Reading) returns (ok: bool)
      requires Typed(State())
      modifies this, cpu, io
      ensures (ok, State()) == UpdateSecondHalf(old(State()), r)
    {
      hide ReadGauges, UpdateCpu, UpdateIo, SetInts, OneKind, Moved, MovedUnsigned;
      CpuSizes(cpu.State(), r.cpu);
      IoSizes(io.State(), r.disks);
      ok := cpu.Update(r.cpu);
      if !ok {
        return;
      }
      stats := PublishCpu(stats, cpu.State());
      ok := ReadGaugeLines(r.events);
      if !ok {
        return;
      }
      ok := io.Update(r.disks);
      if !ok {
        return;
      }
      stats := SetInts(stats, IO, Deltas(io.totals, io.last, 8));
    }

    method UpdateAll(r: Reading) returns (ok: bool)
      requires Typed(State())
      modifies this, cpu, io
      ensures (ok, State()) == Update(old(State()), r)
    {
      hide UpdateFirstHalf, UpdateSecondHalf, AggregateAll, Aggregate;
      FirstHalfEffect(State(), r);
      ok := FirstHalf(r);
      if !ok {
        return;
      }
      SecondHalfEffect(State(), r);
      ok := SecondHalf(r);
      if ok && inRange {
        AggregateEach();
      }
    }

    method BeginRange()
      modifies this
      ensures State() == old(State()).(inRange := true, stats := ResetAll(old(stats)))
    {
      inRange := true;
      var i := 0;
      while i < |stats|
        invariant i <= |stats| == |old(stats)| && inRange && refs == old(refs)
        invariant forall k :: 0 <= k < i ==> stats[k] == FreshStat(old(stats)[k].now)
        invariant forall k :: i <= k < |stats| ==> stats[k] == old(stats)[k]
      {
        stats := stats[i := FreshStat(stats[i].now)];
        i := i + 1;
      }
    }

    method EndRange()
      modifies this`inRange
      ensures State() == old(State()).(inRange := false)
    {
      inRange := false;
    }

    /** One command byte of a connection. */
    method Command(command: char, readings: seq<Reading>)
      returns (packets: seq<seq<Stat>>, left: seq<Reading>, open: bool)
      requires Typed(State()) && (command in "[]" ==> readings != [])
      modifies this, cpu, io
      ensures Session(State(), packets, left, open) == Serve(old(State()), command, readings)
      ensures command == ']' ==>
                if Update(old(State()), readings[0]).0 then packets == [stats] && !inRange else packets == []
      ensures command == '?' ==> packets == [old(stats)] && State() == old(State())
      ensures command !in "[]?" ==> packets == [] && State() == old(State())
      ensures open <==> command != 'q' && (command in "[]" ==> Update(old(State()), readings[0]).0)
    {
      hide Update, ResetAll;
      Answers(State(), command, readings);
      packets, left, open := [], readings, true;
      match command
      case '\n' => return;
      case '\r' => return;
      case '\0' => return;
      case 'q' => open := false;
      case '[' =>
        left := readings[1..];
        open := UpdateAll(readings[0]);
        if open {
          BeginRange();
        }
      case ']' =>
        left := readings[1..];
        open := UpdateAll(readings[0]);
        if open {
          EndRange();
          packets := [stats];
        }
      case '?' => packets := [stats];
      case _ =>
    }
  }
}
