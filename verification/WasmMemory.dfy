/**
 The resizable linear memories of the fault benchmark
 (faultspeed/src/faultspeed.cpp): one reserved range of 8 GiB, and several ways to
 shrink, grow and restore the part of it that is in use. The kernel calls are given
 by short specifications on pages; all strategies are shown to implement the same
 sequence of bytes.
 */
module WasmMemory {
  import opened Wrappers

  type Byte = x: nat | x < 256

  const PAGE: nat := 4096
  const WMEM_SIZE: nat := 0x2_0000_0000

  /** The size in use, the pages that may be read and written, and the pages the
      kernel has given a frame. A page without a frame reads as zeros. */
  datatype Mem = Mem(size: nat, rw: set<nat>, resident: map<nat, seq<Byte>>)

  const FRESH_MEM := Mem(0, {}, map[])

  function ZeroPage(): (p: seq<Byte>)
    ensures |p| == PAGE
  {
    seq(PAGE, i => 0)
  }

  predicate WellFormed(m: Mem) {
    forall p :: p in m.resident ==> |m.resident[p]| == PAGE
  }

  function PageContent(m: Mem, p: nat): (c: seq<Byte>)
    requires WellFormed(m)
    ensures |c| == PAGE
  {
    if p in m.resident then m.resident[p] else ZeroPage()
  }

  function ByteAt(m: Mem, a: nat): Byte
    requires WellFormed(m)
  {
    PageContent(m, a / PAGE)[a % PAGE]
  }

  /** The bytes in use. */
  function Data(m: Mem): (d: seq<Byte>)
    requires WellFormed(m)
    ensures |d| == m.size
  {
    seq(m.size, a requires 0 <= a => ByteAt(m, a))
  }

  // ---- Kernel calls, on page-aligned ranges [from, to)

  predicate Covers(from: nat, to: nat, p: nat) {
    from / PAGE <= p < to / PAGE
  }

  function PagesIn(from: nat, to: nat): set<nat> {
    set p: nat | p < to / PAGE && Covers(from, to, p)
  }

  /** A fixed anonymous mapping without access replaces the pages. */
  function MmapNone(m: Mem, from: nat, to: nat): Mem {
    m.(rw := m.rw - PagesIn(from, to), resident := m.resident - PagesIn(from, to))
  }

  /** The frames are dropped; the protection stays. */
  function MadviseDontneed(m: Mem, from: nat, to: nat): Mem {
    m.(resident := m.resident - PagesIn(from, to))
  }

  function Mprotect(m: Mem, from: nat, to: nat, allow: bool): Mem {
    m.(rw := if allow then m.rw + PagesIn(from, to) else m.rw - PagesIn(from, to))
  }

  // ---- The strategies

  datatype Strategy = Wavm | Dontneed(useMprotect: bool) | Uffd

  function Resize(strategy: Strategy, m: Mem, newSize: nat): Mem {
    var changed :=
      if newSize < m.size then
        match strategy
        case Wavm => MmapNone(m, newSize, m.size)
        case Dontneed(useMprotect) =>
          var dropped := MadviseDontneed(m, newSize, m.size);
          if useMprotect then Mprotect(dropped, newSize, m.size, false) else dropped
        case Uffd => MadviseDontneed(m, newSize, m.size)
      else if newSize > m.size && !strategy.Uffd? then Mprotect(m, m.size, newSize, true)
      else m;
    changed.(size := newSize)
  }

  predicate HasAccess(m: Mem, a: nat) {
    a / PAGE in m.rw
  }

  /** A store; None stands for the fault of a page without access. */
  function Store(m: Mem, a: nat, v: Byte): (r: Option<Mem>)
    requires WellFormed(m)
    ensures r.Some? ==> WellFormed(r.value)
  {
    if !HasAccess(m, a) then None
    else Some(m.(resident := m.resident[a / PAGE := PageContent(m, a / PAGE)[a % PAGE := v]]))
  }

  /** Consecutive stores from address at on. */
  function StoreAll(m: Mem, at: nat, bytes: seq<Byte>): (r: Option<Mem>)
    requires WellFormed(m)
    ensures r.Some? ==> WellFormed(r.value)
  {
    if bytes == [] then Some(m)
    else
      match StoreAll(m, at, Init(bytes))
      case None => None
      case Some(n) => Store(n, at + |bytes| - 1, Last(bytes))
  }

  /** How many bytes a fill touches. The difference is taken in 64-bit unsigned
      arithmetic, so an end before the start means up to the end of memory. */
  function FillLength(size: nat, from: nat, upTo: nat): (len: nat)
    requires from <= size
    ensures len <= size - from
  {
    Min(Wrap64(upTo - from), size - from)
  }

  function Pattern(x: Byte, len: nat): seq<Byte> {
    seq(len, i requires 0 <= i => (x + i) % 256)
  }

  // ---- One memory as a sequence of bytes

  function Zeros(n: nat): seq<Byte> {
    seq(n, i => 0)
  }

  function Resized(d: seq<Byte>, n: nat): seq<Byte> {
    if n <= |d| then d[..n] else d + Zeros(n - |d|)
  }

  function Overwritten(d: seq<Byte>, at: nat, bytes: seq<Byte>): seq<Byte>
    requires at + |bytes| <= |d|
  {
    d[..at] + bytes + d[at + |bytes|..]
  }

  datatype Op =
    | OpResize(strategy: Strategy, newSize: nat)
    | OpRestore(strategy: Strategy, other: seq<Byte>)
    | OpFill(from: nat, upTo: nat, x: Byte)
    | OpReadAll

  /** What an operation means: shrinking truncates, growing appends zeros, restoring
      yields exactly the other memory's bytes, filling writes the counting pattern. */
  function Apply(d: seq<Byte>, op: Op): seq<Byte> {
    match op
    case OpResize(_, n) => Resized(d, n)
    case OpRestore(_, other) => other
    case OpFill(from, upTo, x) =>
      var start := Min(from, |d|);
      Overwritten(d, start, Pattern(x, FillLength(|d|, start, upTo)))
    case OpReadAll => d
  }

  /** What an operation does to the pages; None when it meets a page without access. */
  function Perform(m: Mem, op: Op): (r: Option<Mem>)
    requires WellFormed(m)
    ensures r.Some? ==> WellFormed(r.value)
  {
    match op
    case OpResize(strategy, n) => Some(Resize(strategy, m, n))
    case OpRestore(strategy, other) => StoreAll(Resize(strategy, m, |other|), 0, other)
    case OpFill(from, upTo, x) =>
      var start := Min(from, m.size);
      StoreAll(m, start, Pattern(x, FillLength(m.size, start, upTo)))
    case OpReadAll => if Accessible(m) then Some(m) else None
  }

  function RunAbstract(d: seq<Byte>, ops: seq<Op>): seq<Byte> {
    if ops == [] then d else Apply(RunAbstract(d, Init(ops)), Last(ops))
  }

  function RunPages(m: Mem, ops: seq<Op>): (r: Option<Mem>)
    requires WellFormed(m)
    ensures r.Some? ==> WellFormed(r.value)
  {
    if ops == [] then Some(m)
    else
      match RunPages(m, Init(ops))
      case None => None
      case Some(n) => Perform(n, Last(ops))
  }

  // ---- What the operations mean, byte by byte

  /** Shrinking keeps the bytes below the new size, growing appends zeros; restoring
      yields the other memory's bytes, and reading changes nothing. */
  lemma OperationByPosition(d: seq<Byte>, op: Op)
    requires !op.OpFill?
    ensures var e := Apply(d, op);
            match op
            case OpResize(_, n) => |e| == n && forall a :: 0 <= a < n ==> e[a] == if a < |d| then d[a] else 0
            case OpRestore(_, other) => |e| == |other| && forall a :: 0 <= a < |other| ==> e[a] == other[a]
            case _ => e == d
  {
  }

  /** A fill writes the bytes from its start up to its end, counting up from x, and no
      other byte. */
  lemma FillByPosition(d: seq<Byte>, from: nat, upTo: nat, x: Byte)
    requires from <= upTo && upTo - from < 0x1_0000_0000_0000_0000
    ensures var e := Apply(d, OpFill(from, upTo, x));
            && |e| == |d|
            && forall a :: 0 <= a < |d| ==> e[a] == if from <= a < upTo then (x + (a - from)) % 256 else d[a]
  {
    var start := Min(from, |d|);
    var len := FillLength(|d|, start, upTo);
    FillLengthIs(|d|, from, upTo);
    hide FillLength;
    var e := Apply(d, OpFill(from, upTo, x));
    forall a | 0 <= a < |d| ensures e[a] == if from <= a < upTo then (x + (a - from)) % 256 else d[a] {
      if start <= a < start + len {
        assert e[a] == Pattern(x, len)[a - start];
      }
    }
  }

  lemma FillLengthIs(size: nat, from: nat, upTo: nat)
    requires from <= upTo && upTo - from < 0x1_0000_0000_0000_0000
    ensures var start := Min(from, size);
            FillLength(size, start, upTo) == if from >= size then 0 else Min(upTo, size) - from
  {
  }

  /** An end before the start wraps around: then every byte from the start on is written. */
  lemma FillBackwards(d: seq<Byte>, from: nat, upTo: nat, x: Byte)
    requires upTo < from <= |d| && from - upTo <= 0x1_0000_0000_0000_0000 - |d|
    ensures var e := Apply(d, OpFill(from, upTo, x));
            && |e| == |d|
            && forall a :: 0 <= a < |d| ==> e[a] == if from <= a then (x + (a - from)) % 256 else d[a]
  {
    assert Wrap64(upTo - from) == upTo - from + 0x1_0000_0000_0000_0000;
    assert FillLength(|d|, from, upTo) == |d| - from;
    var e := Apply(d, OpFill(from, upTo, x));
    forall a | from <= a < |d| ensures e[a] == (x + (a - from)) % 256 {
      assert e[a] == Pattern(x, |d| - from)[a - from];
    }
  }

  // ---- Invariants

  predicate PageAligned(n: nat) {
    n % PAGE == 0
  }

  /** Nothing above the size in use has a frame, so nothing old can come back. */
  predicate Inv(m: Mem) {
    && WellFormed(m) && PageAligned(m.size) && m.size <= WMEM_SIZE
    && forall p :: p in m.resident ==> p < m.size / PAGE
  }

  /** Every page in use can be accessed. */
  predicate Accessible(m: Mem) {
    forall p: nat :: p < m.size / PAGE ==> p in m.rw
  }

  /** A memory registered with userfaultfd: exactly the lower half has access. */
  ghost predicate UffdProtection(m: Mem) {
    forall p: nat :: p in m.rw <==> p < WMEM_SIZE / 2 / PAGE
  }

  /** What the kernel asks of the sizes: whole pages, within the reserved range. */
  predicate ValidOp(op: Op) {
    match op
    case OpResize(_, n) => PageAligned(n) && n <= WMEM_SIZE
    case OpRestore(_, other) => PageAligned(|other|) && |other| <= WMEM_SIZE
    case OpFill(_, _, _) => true
    case OpReadAll => true
  }

  /** Operations of the mmap and madvise strategies, and those of userfaultfd. */
  predicate MmapOp(op: Op) {
    ValidOp(op) && (op.OpResize? || op.OpRestore? ==> !op.strategy.Uffd?)
  }

  predicate UffdOp(op: Op) {
    ValidOp(op) && (op.OpResize? || op.OpRestore? ==> op.strategy.Uffd?)
  }

  // ---- Single operations

  lemma PageBelow(a: nat, n: nat)
    requires PageAligned(n)
    ensures a < n <==> a / PAGE < n / PAGE
  {
  }

  lemma InvParts(m: Mem)
    ensures Inv(m) ==> WellFormed(m) && PageAligned(m.size) && m.size <= WMEM_SIZE
  {
  }

  lemma ResizeKeepsInv(strategy: Strategy, m: Mem, n: nat)
    requires Inv(m) && PageAligned(n) && n <= WMEM_SIZE
    ensures Inv(Resize(strategy, m, n)) && Resize(strategy, m, n).size == n
    ensures strategy.Uffd? ==> Resize(strategy, m, n).rw == m.rw
  {
  }

  /** Pages below the old size keep their access, pages above it gain it. */
  lemma ResizeKeepsAccess(strategy: Strategy, m: Mem, n: nat)
    requires Inv(m) && Accessible(m) && PageAligned(n) && !strategy.Uffd?
    ensures Accessible(Resize(strategy, m, n))
  {
  }

  lemma ResizeByte(strategy: Strategy, m: Mem, n: nat, a: nat)
    requires Inv(m) && PageAligned(n) && n <= WMEM_SIZE && a < n
    ensures WellFormed(Resize(strategy, m, n))
    ensures ByteAt(Resize(strategy, m, n), a) == if a < m.size then ByteAt(m, a) else 0
  {
    PageBelow(a, n);
    PageBelow(a, m.size);
  }

  /** Every strategy's resize truncates, or appends zeros. */
  lemma ResizeMeans(strategy: Strategy, m: Mem, n: nat)
    requires Inv(m) && PageAligned(n) && n <= WMEM_SIZE
    ensures WellFormed(Resize(strategy, m, n))
    ensures Data(Resize(strategy, m, n)) == Resized(Data(m), n)
  {
    hide ByteAt, Inv;
    ResizeKeepsInv(strategy, m, n);
    InvParts(m);
    InvParts(Resize(strategy, m, n));
    forall a | 0 <= a < n ensures Data(Resize(strategy, m, n))[a] == Resized(Data(m), n)[a] {
      ResizeByte(strategy, m, n, a);
    }
  }

  lemma StoreByte(m: Mem, at: nat, v: Byte, a: nat)
    requires WellFormed(m) && HasAccess(m, at)
    ensures ByteAt(Store(m, at, v).value, a) == if a == at then v else ByteAt(m, a)
  {
    assert a / PAGE == at / PAGE && a % PAGE == at % PAGE ==> a == at;
  }

  /** Stores that do not fault write their bytes and touch nothing else. */
  lemma {:induction false} StoreAllWorks(m: Mem, at: nat, bytes: seq<Byte>)
    requires Inv(m) && at + |bytes| <= m.size
    ensures var r := StoreAll(m, at, bytes);
            r.Some? ==>
              && Inv(r.value) && r.value.size == m.size && r.value.rw == m.rw
              && forall a: nat ::
                   ByteAt(r.value, a) == if at <= a < at + |bytes| then bytes[a - at] else ByteAt(m, a)
  {
    if bytes != [] && StoreAll(m, at, bytes).Some? {
      StoreAllWorks(m, at, Init(bytes));
      var n, last := StoreAll(m, at, Init(bytes)).value, at + |bytes| - 1;
      PageBelow(last, m.size);
      forall a: nat
        ensures ByteAt(Store(n, last, Last(bytes)).value, a) == if a == last then Last(bytes) else ByteAt(n, a)
      {
        StoreByte(n, last, Last(bytes), a);
      }
    }
  }

  lemma StoreAllMeans(m: Mem, at: nat, bytes: seq<Byte>)
    requires Inv(m) && at + |bytes| <= m.size
    ensures var r := StoreAll(m, at, bytes);
            r.Some? ==>
              && Inv(r.value) && r.value.size == m.size && r.value.rw == m.rw
              && Data(r.value) == Overwritten(Data(m), at, bytes)
  {
    hide ByteAt, StoreAll;
    StoreAllWorks(m, at, bytes);
  }

  /** Stores fault exactly when one of them meets a page without access. */
  lemma {:induction false} StoreAllFaults(m: Mem, at: nat, bytes: seq<Byte>)
    requires WellFormed(m)
    ensures var r := StoreAll(m, at, bytes);
            && (r.Some? <==> forall a: nat :: at <= a < at + |bytes| ==> HasAccess(m, a))
            && (r.Some? ==> r.value.rw == m.rw)
  {
    if bytes != [] {
      var last := at + |bytes| - 1;
      StoreAllFaults(m, at, Init(bytes));
      assert (forall a: nat :: at <= a < at + |bytes| ==> HasAccess(m, a))
        <==> (forall a: nat :: at <= a < last ==> HasAccess(m, a)) && HasAccess(m, last);
    }
  }

  /** An operation that does not fault means what the byte sequence says, under every
      strategy. */
  lemma PerformMeans(m: Mem, op: Op)
    requires Inv(m) && ValidOp(op)
    ensures var r := Perform(m, op);
            r.Some? ==> Inv(r.value) && Data(r.value) == Apply(Data(m), op)
  {
    hide Resize, StoreAll, ByteAt, Accessible;
    match op
    case OpResize(strategy, n) =>
      ResizeKeepsInv(strategy, m, n);
      ResizeMeans(strategy, m, n);
    case OpRestore(strategy, other) =>
      ResizeKeepsInv(strategy, m, |other|);
      ResizeMeans(strategy, m, |other|);
      StoreAllMeans(Resize(strategy, m, |other|), 0, other);
    case OpFill(from, upTo, x) =>
      var start := Min(from, m.size);
      StoreAllMeans(m, start, Pattern(x, FillLength(m.size, start, upTo)));
    case OpReadAll =>
  }

  // ---- Protection: the mmap and madvise strategies

  /** With access to every page in use, stores below the size in use do not fault. */
  lemma StoresInUse(m: Mem, at: nat, bytes: seq<Byte>)
    requires Inv(m) && Accessible(m) && at + |bytes| <= m.size
    ensures var r := StoreAll(m, at, bytes);
            r.Some? && r.value.rw == m.rw && r.value.size == m.size
  {
    StoreAllFaults(m, at, bytes);
    StoreAllWorks(m, at, bytes);
    forall a: nat | at <= a < at + |bytes| ensures HasAccess(m, a) {
      PageBelow(a, m.size);
    }
  }

  lemma MmapOpNeverFaults(m: Mem, op: Op)
    requires Inv(m) && Accessible(m) && MmapOp(op)
    ensures Perform(m, op).Some? && Accessible(Perform(m, op).value)
  {
    hide Resize, StoreAll, ByteAt, Inv;
    InvParts(m);
    match op
    case OpResize(strategy, n) =>
      ResizeKeepsAccess(strategy, m, n);
    case OpRestore(strategy, other) =>
      ResizeKeepsInv(strategy, m, |other|);
      ResizeKeepsAccess(strategy, m, |other|);
      StoresInUse(Resize(strategy, m, |other|), 0, other);
    case OpFill(from, upTo, x) =>
      var start := Min(from, m.size);
      StoresInUse(m, start, Pattern(x, FillLength(m.size, start, upTo)));
    case OpReadAll =>
  }

  // ---- Protection: userfaultfd

  lemma UffdAccessible(m: Mem)
    requires UffdProtection(m) && PageAligned(m.size)
    ensures Accessible(m) <==> m.size <= WMEM_SIZE / 2
  {
    if m.size > WMEM_SIZE / 2 {
      var p := WMEM_SIZE / 2 / PAGE;
      assert p < m.size / PAGE && p !in m.rw;
    } else {
      assert m.size / PAGE <= WMEM_SIZE / 2 / PAGE;
    }
  }

  lemma UffdStores(m: Mem, at: nat, bytes: seq<Byte>)
    requires WellFormed(m) && UffdProtection(m)
    ensures var r := StoreAll(m, at, bytes);
            && (r.Some? <==> bytes == [] || at + |bytes| <= WMEM_SIZE / 2)
            && (r.Some? ==> UffdProtection(r.value))
  {
    StoreAllFaults(m, at, bytes);
    if bytes != [] {
      assert HasAccess(m, at + |bytes| - 1) <==> at + |bytes| <= WMEM_SIZE / 2;
    }
  }

  /** The end of the addresses an operation accesses. */
  function Reach(size: nat, op: Op): nat {
    match op
    case OpResize(_, _) => 0
    case OpRestore(_, other) => |other|
    case OpFill(from, upTo, _) =>
      var start := Min(from, size);
      var len := FillLength(size, start, upTo);
      if len == 0 then 0 else start + len
    case OpReadAll => size
  }

  lemma UffdOpFaults(m: Mem, op: Op)
    requires Inv(m) && UffdProtection(m) && UffdOp(op)
    ensures var r := Perform(m, op);
            && (r.Some? <==> Reach(m.size, op) <= WMEM_SIZE / 2)
            && (r.Some? ==> UffdProtection(r.value))
  {
    hide Resize, StoreAll, ByteAt, Accessible, Inv;
    InvParts(m);
    match op
    case OpResize(strategy, n) =>
      ResizeKeepsInv(strategy, m, n);
    case OpRestore(strategy, other) =>
      ResizeKeepsInv(strategy, m, |other|);
      UffdStores(Resize(strategy, m, |other|), 0, other);
    case OpFill(from, upTo, x) =>
      var start := Min(from, m.size);
      UffdStores(m, start, Pattern(x, FillLength(m.size, start, upTo)));
    case OpReadAll =>
      UffdAccessible(m);
  }

  // ---- Whole runs

  /** Any mixture of the mmap and madvise strategies: no access ever faults, and the
      memory holds exactly the bytes the abstract run says. */
  lemma {:induction false} MmapRunRefines(m: Mem, ops: seq<Op>)
    requires Inv(m) && Accessible(m) && (forall op :: op in ops ==> MmapOp(op))
    ensures var r := RunPages(m, ops);
            r.Some? && Inv(r.value) && Accessible(r.value) && Data(r.value) == RunAbstract(Data(m), ops)
  {
    hide Perform, Apply, Inv, Accessible, Data;
    InvParts(m);
    if ops != [] {
      MmapRunRefines(m, Init(ops));
      var n := RunPages(m, Init(ops)).value;
      MmapOpNeverFaults(n, Last(ops));
      PerformMeans(n, Last(ops));
    }
  }

  /** No operation of the run reaches the upper half of the reserved range. */
  predicate FitsHalf(d: seq<Byte>, ops: seq<Op>) {
    ops == [] || (FitsHalf(d, Init(ops)) && Reach(|RunAbstract(d, Init(ops))|, Last(ops)) <= WMEM_SIZE / 2)
  }

  /** A run under userfaultfd faults exactly when an operation reaches the upper half;
      otherwise it too holds exactly the bytes of the abstract run. */
  lemma {:induction false} UffdRunRefines(m: Mem, ops: seq<Op>)
    requires Inv(m) && UffdProtection(m) && (forall op :: op in ops ==> UffdOp(op))
    ensures var r := RunPages(m, ops);
            && (r.Some? <==> FitsHalf(Data(m), ops))
            && (r.Some? ==> Inv(r.value) && UffdProtection(r.value) && Data(r.value) == RunAbstract(Data(m), ops))
  {
    hide Perform, Apply, Inv, UffdProtection, Reach;
    InvParts(m);
    if ops != [] {
      UffdRunRefines(m, Init(ops));
      if RunPages(m, Init(ops)).Some? {
        var n := RunPages(m, Init(ops)).value;
        UffdOpFaults(n, Last(ops));
        PerformMeans(n, Last(ops));
      }
    }
  }

  /** A fresh mapping, and the same after registration with userfaultfd. */
  lemma FreshIsEmpty(n: Mem)
    requires n == Mprotect(FRESH_MEM, 0, WMEM_SIZE / 2, true)
    ensures Inv(FRESH_MEM) && Accessible(FRESH_MEM) && Data(FRESH_MEM) == []
    ensures Inv(n) && UffdProtection(n) && Data(n) == []
  {
  }

  lemma {:induction false} RunAbstractSplit(d: seq<Byte>, first: Op, rest: seq<Op>)
    ensures RunAbstract(d, [first] + rest) == RunAbstract(Apply(d, first), rest)
  {
    hide Apply;
    if rest == [] {
      assert [first] + rest == [first] && Init([first]) == [];
      assert RunAbstract(d, []) == d;
    } else {
      assert Init([first] + rest) == [first] + Init(rest);
      RunAbstractSplit(d, first, Init(rest));
    }
  }

  /** No byte from before a shrink is seen again: two memories that agree below n hold
      the same bytes after a shrink to n and any further run, whatever they held above. */
  lemma NoStaleBytes(m1: Mem, m2: Mem, strategy: Strategy, n: nat, rest: seq<Op>)
    requires Inv(m1) && Accessible(m1) && Inv(m2) && Accessible(m2)
    requires n <= m1.size && n <= m2.size && Data(m1)[..n] == Data(m2)[..n]
    requires MmapOp(OpResize(strategy, n)) && (forall op :: op in rest ==> MmapOp(op))
    ensures var ops := [OpResize(strategy, n)] + rest;
            var r1, r2 := RunPages(m1, ops), RunPages(m2, ops);
            r1.Some? && r2.Some? && Data(r1.value) == Data(r2.value)
  {
    hide Inv, Accessible, RunPages, RunAbstract, ByteAt;
    InvParts(m1);
    InvParts(m2);
    var first := OpResize(strategy, n);
    MmapRunRefines(m1, [first] + rest);
    MmapRunRefines(m2, [first] + rest);
    RunAbstractSplit(Data(m1), first, rest);
    RunAbstractSplit(Data(m2), first, rest);
  }

  lemma {:induction false} FitsHalfSplit(d: seq<Byte>, first: Op, rest: seq<Op>)
    ensures FitsHalf(d, [first] + rest) <==> Reach(|d|, first) <= WMEM_SIZE / 2 && FitsHalf(Apply(d, first), rest)
  {
    hide Apply, Reach;
    if rest == [] {
      assert [first] + rest == [first] && Init([first]) == [];
      assert RunAbstract(d, []) == d && FitsHalf(d, []);
    } else {
      assert Init([first] + rest) == [first] + Init(rest);
      FitsHalfSplit(d, first, Init(rest));
      RunAbstractSplit(d, first, Init(rest));
    }
  }

  /** The same under userfaultfd, faults included: neither the bytes nor whether the run
      faults depends on what was above the shrink. */
  lemma NoStaleBytesUffd(m1: Mem, m2: Mem, n: nat, rest: seq<Op>)
    requires Inv(m1) && UffdProtection(m1) && Inv(m2) && UffdProtection(m2)
    requires n <= m1.size && n <= m2.size && Data(m1)[..n] == Data(m2)[..n]
    requires UffdOp(OpResize(Uffd, n)) && (forall op :: op in rest ==> UffdOp(op))
    ensures var ops := [OpResize(Uffd, n)] + rest;
            var r1, r2 := RunPages(m1, ops), RunPages(m2, ops);
            (r1.Some? <==> r2.Some?) && (r1.Some? ==> Data(r1.value) == Data(r2.value))
  {
    hide Inv, UffdProtection, RunPages, RunAbstract, FitsHalf, ByteAt;
    InvParts(m1);
    InvParts(m2);
    var first := OpResize(Uffd, n);
    UffdRunRefines(m1, [first] + rest);
    UffdRunRefines(m2, [first] + rest);
    RunAbstractSplit(Data(m1), first, rest);
    RunAbstractSplit(Data(m2), first, rest);
    FitsHalfSplit(Data(m1), first, rest);
    FitsHalfSplit(Data(m2), first, rest);
  }

  // ---- Isolation: what mprotect is for

  /** Exactly the pages in use can be accessed. */
  ghost predicate Isolated(m: Mem) {
    forall p: nat :: p in m.rw <==> p < m.size / PAGE
  }

  /** A strict shrink by madvise alone. */
  predicate Exposes(size: nat, op: Op) {
    match op
    case OpResize(strategy, n) => strategy == Dontneed(false) && n < size
    case OpRestore(strategy, other) => strategy == Dontneed(false) && |other| < size
    case _ => false
  }

  lemma ResizeIsolation(strategy: Strategy, m: Mem, n: nat)
    requires Inv(m) && Isolated(m) && PageAligned(n) && !strategy.Uffd?
    ensures Isolated(Resize(strategy, m, n)) <==> !(strategy == Dontneed(false) && n < m.size)
  {
    var r := Resize(strategy, m, n);
    if strategy == Dontneed(false) && n < m.size {
      PageBelow(n, m.size);
      assert n / PAGE in r.rw;
    } else {
      forall p: nat ensures p in r.rw <==> p < n / PAGE {
      }
    }
  }

  lemma OpIsolation(m: Mem, op: Op)
    requires Inv(m) && Isolated(m) && MmapOp(op)
    ensures Perform(m, op).Some? && (Isolated(Perform(m, op).value) <==> !Exposes(m.size, op))
  {
    hide Resize, StoreAll, Inv, ByteAt;
    InvParts(m);
    MmapOpNeverFaults(m, op);
    match op
    case OpResize(strategy, n) =>
      ResizeIsolation(strategy, m, n);
    case OpRestore(strategy, other) =>
      ResizeIsolation(strategy, m, |other|);
      ResizeKeepsInv(strategy, m, |other|);
      ResizeKeepsAccess(strategy, m, |other|);
      StoresInUse(Resize(strategy, m, |other|), 0, other);
    case OpFill(from, upTo, x) =>
      var start := Min(from, m.size);
      StoresInUse(m, start, Pattern(x, FillLength(m.size, start, upTo)));
    case OpReadAll =>
  }

  ghost predicate IsolatedAfter(m: Mem, ops: seq<Op>)
    requires WellFormed(m)
  {
    RunPages(m, ops).Some? && Isolated(RunPages(m, ops).value)
  }

  predicate NeverExposes(d: seq<Byte>, ops: seq<Op>) {
    ops == [] || (NeverExposes(d, Init(ops)) && !Exposes(|RunAbstract(d, Init(ops))|, Last(ops)))
  }

  /** A memory keeps exactly its pages in use accessible throughout a run of the mmap and
      madvise strategies if and only if no operation shrinks it without mprotect. */
  lemma {:induction false} IsolationExactly(m: Mem, ops: seq<Op>)
    requires Inv(m) && Isolated(m) && (forall op :: op in ops ==> MmapOp(op))
    ensures (forall k :: 0 <= k <= |ops| ==> IsolatedAfter(m, ops[..k])) <==> NeverExposes(Data(m), ops)
  {
    hide Perform, Apply, Inv, Isolated, Exposes, Data;
    InvParts(m);
    if ops == [] {
      assert forall k :: 0 <= k <= 0 ==> ops[..k] == [];
    } else {
      var front := Init(ops);
      assert ops[..|ops|] == ops && forall k :: 0 <= k <= |front| ==> front[..k] == ops[..k];
      IsolationExactly(m, front);
      assert IsolatedAfter(m, ops[..|front|]) <==> IsolatedAfter(m, front);
      if IsolatedAfter(m, front) {
        LastStaysIsolated(m, ops);
      } else {
        assert front[..|front|] == front;
      }
    }
  }

  lemma LastStaysIsolated(m: Mem, ops: seq<Op>)
    requires Inv(m) && Isolated(m) && ops != [] && (forall op :: op in ops ==> MmapOp(op))
    requires IsolatedAfter(m, Init(ops))
    ensures IsolatedAfter(m, ops) <==> !Exposes(|RunAbstract(Data(m), Init(ops))|, Last(ops))
  {
    hide Perform, Inv, Exposes, Apply;
    InvParts(m);
    IsolatedIsAccessible(m);
    MmapRunRefines(m, Init(ops));
    OpIsolation(RunPages(m, Init(ops)).value, Last(ops));
  }

  lemma IsolatedIsAccessible(m: Mem)
    requires Isolated(m)
    ensures Accessible(m)
  {
  }

  predicate SameRequest(a: Op, b: Op) {
    match (a, b)
    case (OpResize(_, n), OpResize(_, k)) => n == k
    case (OpRestore(_, u), OpRestore(_, v)) => u == v
    case (_, _) => a == b
  }

  /** The strategies cannot be told apart by the bytes: two runs that ask for the same
      sizes, contents and fills end with the same bytes. */
  lemma StrategiesAgree(m1: Mem, ops1: seq<Op>, m2: Mem, ops2: seq<Op>)
    requires Inv(m1) && Accessible(m1) && Inv(m2) && UffdProtection(m2) && Data(m1) == Data(m2)
    requires |ops1| == |ops2| && (forall i :: 0 <= i < |ops1| ==> SameRequest(ops1[i], ops2[i]))
    requires (forall op :: op in ops1 ==> MmapOp(op)) && (forall op :: op in ops2 ==> UffdOp(op))
    requires FitsHalf(Data(m2), ops2)
    ensures var r1, r2 := RunPages(m1, ops1), RunPages(m2, ops2);
            r1.Some? && r2.Some? && Data(r1.value) == Data(r2.value)
  {
    hide Inv, Accessible, UffdProtection, RunPages, RunAbstract, ByteAt, FitsHalf;
    InvParts(m1);
    InvParts(m2);
    MmapRunRefines(m1, ops1);
    UffdRunRefines(m2, ops2);
    AbstractRunsAgree(Data(m1), ops1, ops2);
  }

  lemma {:induction false} AbstractRunsAgree(d: seq<Byte>, ops1: seq<Op>, ops2: seq<Op>)
    requires |ops1| == |ops2| && (forall i :: 0 <= i < |ops1| ==> SameRequest(ops1[i], ops2[i]))
    ensures RunAbstract(d, ops1) == RunAbstract(d, ops2)
  {
    if ops1 != [] {
      AbstractRunsAgree(d, Init(ops1), Init(ops2));
      assert SameRequest(Last(ops1), Last(ops2));
    }
  }

  // ---- The memory object

  lemma StoreAllStep(m: Mem, at: nat, bytes: seq<Byte>, i: nat)
    requires WellFormed(m) && i < |bytes| && StoreAll(m, at, bytes[..i]).Some?
    ensures StoreAll(m, at, bytes[..i + 1]) == Store(StoreAll(m, at, bytes[..i]).value, at + i, bytes[i])
    ensures StoreAll(m, at, bytes[..i + 1]).None? ==> StoreAll(m, at, bytes).None?
  {
    assert Init(bytes[..i + 1]) == bytes[..i];
    StoreAllFaults(m, at, bytes[..i]);
    StoreAllFaults(m, at, bytes);
    assert HasAccess(StoreAll(m, at, bytes[..i]).value, at + i) == HasAccess(m, at + i);
  }

  lemma AccessibleBytes(m: Mem)
    requires PageAligned(m.size)
    ensures Accessible(m) <==> forall a: nat :: a < m.size ==> HasAccess(m, a)
  {
    if forall a: nat :: a < m.size ==> HasAccess(m, a) {
      forall p: nat | p < m.size / PAGE ensures p in m.rw {
        assert HasAccess(m, p * PAGE);
      }
    } else {
      var a: nat :| a < m.size && !HasAccess(m, a);
      PageBelow(a, m.size);
    }
  }

  function Successor(v: nat): Byte {
    (v + 1) % 256
  }

  lemma SuccessorAdds(n: nat)
    ensures Successor(n % 256) == (n + 1) % 256
  {
  }

  lemma PatternCounts(x: Byte, len: nat, i: nat)
    requires i < len
    ensures |Pattern(x, len)| == len && Pattern(x, len)[0] == x
    ensures i + 1 < len ==> Pattern(x, len)[i + 1] == Successor(Pattern(x, len)[i])
  {
    hide Successor;
    SuccessorAdds(x + i);
  }

  /** The bytes of a memory after a fill that did not fault. */
  lemma FillMeans(m: Mem, from: nat, upTo: nat, x: Byte)
    requires WellFormed(m)
    ensures var r := Perform(m, OpFill(from, upTo, x));
            Inv(m) && r.Some? && from <= upTo && upTo - from < 0x1_0000_0000_0000_0000 ==>
              && Inv(r.value) && r.value.size == m.size
              && forall a :: 0 <= a < m.size ==>
                   Data(r.value)[a] == if from <= a < upTo then (x + (a - from)) % 256 else Data(m)[a]
    ensures var r := Perform(m, OpFill(from, upTo, x));
            Inv(m) && r.Some? && upTo < from <= m.size && from - upTo <= 0x1_0000_0000_0000_0000 - m.size ==>
              && Inv(r.value) && r.value.size == m.size
              && forall a :: 0 <= a < m.size ==>
                   Data(r.value)[a] == if from <= a then (x + (a - from)) % 256 else Data(m)[a]
  {
    hide Perform, Apply, Inv, Data, FillLength;
    if Inv(m) && Perform(m, OpFill(from, upTo, x)).Some? && from <= upTo && upTo - from < 0x1_0000_0000_0000_0000 {
      PerformMeans(m, OpFill(from, upTo, x));
      FillByPosition(Data(m), from, upTo, x);
    }
    if Inv(m) && Perform(m, OpFill(from, upTo, x)).Some? && upTo < from <= m.size
       && from - upTo <= 0x1_0000_0000_0000_0000 - m.size {
      PerformMeans(m, OpFill(from, upTo, x));
      FillBackwards(Data(m), from, upTo, x);
    }
  }

  lemma OwnByte(m: Mem, bytes: seq<Byte>, i: nat)
    requires Inv(m) && i < m.size && bytes == Data(m) && StoreAll(m, 0, bytes[..i]).Some?
    ensures ByteAt(StoreAll(m, 0, bytes[..i]).value, i) == bytes[i]
  {
    StoreAllWorks(m, 0, bytes[..i]);
  }

  class WMemory {
    const base: nat
    var size: nat
    var rw: set<nat>
    var resident: map<nat, seq<Byte>>

    ghost function State(): Mem
      reads this
    {
      Mem(size, rw, resident)
    }

    constructor (base: nat)
      ensures this.base == base && State() == FRESH_MEM
    {
      this.base, size, rw, resident := base, 0, {}, map[];
    }

    method ResizeWavm(newSize: nat)
      modifies this
      ensures State() == Resize(Wavm, old(State()), newSize)
    {
      var oldSize := size;
      if newSize < oldSize {
        rw, resident := rw - PagesIn(newSize, oldSize), resident - PagesIn(newSize, oldSize);
      } else if newSize > oldSize {
        rw := rw + PagesIn(oldSize, newSize);
      }
      size := newSize;
    }

    method ResizeDontneed(newSize: nat, useMprotect: bool)
      modifies this
      ensures State() == Resize(Dontneed(useMprotect), old(State()), newSize)
    {
      var oldSize := size;
      if newSize < oldSize {
        resident := resident - PagesIn(newSize, oldSize);
        if useMprotect {
          rw := rw - PagesIn(newSize, oldSize);
        }
      } else if newSize > oldSize {
        rw := rw + PagesIn(oldSize, newSize);
      }
      size := newSize;
    }

    method ResizeUffd(newSize: nat)
      modifies this
      ensures State() == Resize(Uffd, old(State()), newSize)
    {
      var oldSize := size;
      if newSize < oldSize {
        resident := resident - PagesIn(newSize, oldSize);
      }
      size := newSize;
    }

    method StoreAt(a: nat, v: Byte) returns (ok: bool)
      requires WellFormed(State())
      modifies this`resident
      ensures ok <==> Store(old(State()), a, v).Some?
      ensures ok ==> State() == Store(old(State()), a, v).value
    {
      ok := a / PAGE in rw;
      if ok {
        var page := if a / PAGE in resident then resident[a / PAGE] else ZeroPage();
        resident := resident[a / PAGE := page[a % PAGE := v]];
      }
    }

    /** A false result stands for the segmentation fault of a page without access. */
    method FillWithData(from: nat, upTo: nat, x: Byte) returns (ok: bool)
      requires WellFormed(State())
      modifies this`resident
      ensures ok <==> Perform(old(State()), OpFill(from, upTo, x)).Some?
      ensures ok ==> State() == Perform(old(State()), OpFill(from, upTo, x)).value
      ensures ok && old(Inv(State())) && from <= upTo && upTo - from < TWO64 ==>
                && Inv(State()) && size == old(size)
                && forall a :: 0 <= a < size ==>
                     Data(State())[a] == if from <= a < upTo then (x + (a - from)) % 256 else old(Data(State()))[a]
      ensures ok && old(Inv(State())) && upTo < from <= size && from - upTo <= TWO64 - size ==>
                && Inv(State()) && size == old(size)
                && forall a :: 0 <= a < size ==>
                     Data(State())[a] == if from <= a then (x + (a - from)) % 256 else old(Data(State()))[a]
    {
      hide Store, ByteAt, Wrap64, Inv, Data, Apply, Resize, Accessible;
      var start := Min(from, size);
      var len := FillLength(size, start, upTo);
      ghost var bytes := Pattern(x, len);
      hide Pattern, FillLength, Successor;
      if len > 0 {
        PatternCounts(x, len, 0);
      }
      var v, i := x, 0;
      while i < len
        invariant i <= len == |bytes| && (i < len ==> v == bytes[i])
        invariant size == old(size) && rw == old(rw)
        invariant WellFormed(State()) && StoreAll(old(State()), start, bytes[..i]) == Some(State())
      {
        PatternCounts(x, len, i);
        StoreAllStep(old(State()), start, bytes, i);
        ok := StoreAt(start + i, v);
        if !ok {
          return;
        }
        v, i := Successor(v), i + 1;
      }
      assert bytes[..i] == bytes;
      ok := true;
      FillMeans(old(State()), from, upTo, x);
    }

    /** Copies the other memory's bytes, byte by byte; both may be the same object. The
        copy faults where a byte cannot be read or cannot be stored. */
    method CopyFrom(other: WMemory) returns (ok: bool)
      requires WellFormed(State()) && Inv(other.State())
      modifies this`resident
      ensures var r := StoreAll(old(State()), 0, Data(old(other.State())));
              (ok <==> r.Some? && old(Accessible(other.State()))) && (ok ==> State() == r.value)
    {
      hide Store, ByteAt, Accessible;
      AccessibleBytes(other.State());
      ghost var source := other.State();
      ghost var bytes := Data(source);
      var i := 0;
      while i < other.size
        invariant i <= other.size == old(other.size) == |bytes| && other.rw == old(other.rw)
        invariant size == old(size) && rw == old(rw)
        invariant other != this ==> other.State() == old(other.State())
        invariant WellFormed(State()) && StoreAll(old(State()), 0, bytes[..i]) == Some(State())
        invariant forall a: nat :: a < i ==> HasAccess(source, a)
      {
        StoreAllStep(old(State()), 0, bytes, i);
        var v;
        ok, v := other.ReadAt(i);
        if !ok {
          assert !HasAccess(source, i);
          return;
        }
        if other == this {
          OwnByte(old(State()), bytes, i);
        }
        ok := StoreAt(i, v);
        if !ok {
          return;
        }
        i := i + 1;
      }
      assert bytes[..i] == bytes;
      ok := true;
    }

    method ReadAt(a: nat) returns (ok: bool, v: Byte)
      requires WellFormed(State())
      ensures ok == HasAccess(State(), a) && (ok ==> v == ByteAt(State(), a))
    {
      ok := a / PAGE in rw;
      v := if a / PAGE in resident then resident[a / PAGE][a % PAGE] else 0;
    }

    method RestoreFromWavm(other: WMemory) returns (ok: bool)
      requires Inv(State()) && Inv(other.State())
      modifies this
      ensures var r := Perform(old(State()), OpRestore(Wavm, Data(old(other.State()))));
              (ok <==> r.Some? && old(Accessible(other.State()))) && (ok ==> State() == r.value)
    {
      ghost var n := other.size;
      ResizeKeepsInv(Wavm, State(), n);
      ResizeWavm(other.size);
      ok := CopyFrom(other);
    }

    method RestoreFromDontneed(other: WMemory, useMprotect: bool) returns (ok: bool)
      requires Inv(State()) && Inv(other.State())
      modifies this
      ensures var r := Perform(old(State()), OpRestore(Dontneed(useMprotect), Data(old(other.State()))));
              (ok <==> r.Some? && old(Accessible(other.State()))) && (ok ==> State() == r.value)
    {
      ghost var n := other.size;
      ResizeKeepsInv(Dontneed(useMprotect), State(), n);
      ResizeDontneed(other.size, useMprotect);
      ok := CopyFrom(other);
    }

    method RestoreFromUffd(other: WMemory) returns (ok: bool)
      requires Inv(State()) && Inv(other.State())
      modifies this
      ensures var r := Perform(old(State()), OpRestore(Uffd, Data(old(other.State()))));
              (ok <==> r.Some? && old(Accessible(other.State()))) && (ok ==> State() == r.value)
    {
      ghost var n := other.size;
      ResizeKeepsInv(Uffd, State(), n);
      ResizeUffd(other.size);
      ok := CopyFrom(other);
    }

    /** Reads every byte in use. */
    method SideEffect() returns (ok: bool)
      requires WellFormed(State()) && PageAligned(size)
      ensures ok <==> Perform(State(), OpReadAll).Some?
    {
      AccessibleBytes(State());
      var a := 0;
      while a < size
        invariant a <= size && forall b: nat :: b < a ==> HasAccess(State(), b)
      {
        if a / PAGE !in rw {
          assert !HasAccess(State(), a);
          return false;
        }
        a := a + 1;
      }
      ok := true;
    }
  }
}
