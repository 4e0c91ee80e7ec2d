/**
 The page-fault handler of the userfaultfd strategy (faultspeed/src/faultspeed.cpp):
 it looks up the memory a fault belongs to, checks its bounds and fills the page. A
 world of memories is stepped by registration, removal, resizing, snapshots and single
 byte accesses; the kernel delivers a fault when an accessed page has no frame.
 */
module UffdHandler {
  import opened Wrappers
  import opened WasmMemory

  // ---- The handler's decision

  predicate CoversAddress(base: nat, a: nat) {
    base <= a < base + WMEM_SIZE
  }

  /** The first mapping holding an address, or the number of mappings. */
  function FirstCovering(bases: seq<nat>, a: nat): (i: nat)
    ensures i <= |bases|
    ensures i < |bases| ==> CoversAddress(bases[i], a)
    ensures forall j :: 0 <= j < i ==> !CoversAddress(bases[j], a)
  {
    if bases == [] then 0
    else
      var i := FirstCovering(Init(bases), a);
      if i < |bases| - 1 then i else if CoversAddress(Last(bases), a) then i else |bases|
  }

  /** NoMapping and WrongMapping end the process, OutOfBounds is answered with SIGSEGV. */
  datatype Verdict = NoMapping | WrongMapping | OutOfBounds | Unprotect | CopySnapshot | ZeroFill

  function AlignDown(address: nat): (a: nat)
    ensures a <= address < a + PAGE && a % PAGE == 0
  {
    address - address % PAGE
  }

  /** What happens to a fault at an address once its mapping's memory is known. The
      snapshot's size is compared with the aligned absolute address, as written. */
  function Judge(base: nat, size: nat, snapshotSize: Option<nat>, address: nat, wp: bool): (v: Verdict)
    ensures !v.NoMapping? && (v.CopySnapshot? || v.ZeroFill? ==> AlignDown(address) >= base)
  {
    var a := AlignDown(address);
    if a < base || a >= base + WMEM_SIZE then WrongMapping
    else if address >= base + size then OutOfBounds
    else if wp then Unprotect
    else if snapshotSize.Some? && a < snapshotSize.value then CopySnapshot
    else ZeroFill
  }

  /** The page a fill installs: the first page of the snapshot, whichever page faulted. */
  function FillContent(v: Verdict, snapshot: Option<Mem>): (c: seq<Byte>)
    requires snapshot.Some? ==> WellFormed(snapshot.value)
    ensures |c| == PAGE
  {
    if v.CopySnapshot? && snapshot.Some? then PageContent(snapshot.value, 0) else ZeroPage()
  }

  function Install(m: Mem, p: nat, content: seq<Byte>): Mem {
    m.(resident := m.resident[p := content])
  }

  // ---- A world of memories

  /** A memory's mapping, whether the kernel has its range registered, and three
      accounts: frames given by the handler, by the kernel, and dropped by resizing. */
  datatype Region = Region(base: nat, mem: Mem, registered: bool, handlerFills: nat, kernelFills: nat, dropped: nat)

  datatype World = World(regions: seq<Region>, mappings: seq<(nat, nat)>, snapshot: Option<nat>, faults: nat)

  datatype Step =
    | Add(id: nat)
    | Remove(id: nat)
    | SetSnapshot(snapshot: Option<nat>)
    | ResizeTo(id: nat, strategy: Strategy, newSize: nat)
    | Access(id: nat, offset: nat, write: Option<Byte>)

  /** Done, the byte a read yields, a segmentation fault, an exception, or the end of
      the process. */
  datatype Response = Done | Got(value: Byte) | Trap | Missing | Crash

  function Bases(mappings: seq<(nat, nat)>): (b: seq<nat>)
    ensures |b| == |mappings|
    ensures forall i :: 0 <= i < |b| ==> b[i] == mappings[i].0
  {
    seq(|mappings|, i requires 0 <= i < |mappings| => mappings[i].0)
  }

  function FreshWorld(bases: seq<nat>): World {
    World(seq(|bases|, i requires 0 <= i < |bases| => Region(bases[i], FRESH_MEM, false, 0, 0, 0)), [], None, 0)
  }

  // ---- Invariant

  predicate Separated(regions: seq<Region>) {
    && (forall i :: 0 <= i < |regions| ==> PageAligned(regions[i].base))
    && (forall i, j :: 0 <= i < |regions| && 0 <= j < |regions| && i != j ==>
          regions[i].base + WMEM_SIZE <= regions[j].base || regions[j].base + WMEM_SIZE <= regions[i].base)
  }

  /** Frames present plus frames dropped are the frames given. */
  predicate Balanced(r: Region) {
    |r.mem.resident| + r.dropped == r.handlerFills + r.kernelFills
  }

  /** Registration opens the lower half of the range, and nothing closes it. */
  predicate HalfOpen(r: Region) {
    r.registered ==> PagesIn(0, WMEM_SIZE / 2) <= r.mem.rw
  }

  predicate RegionsOk(regions: seq<Region>) {
    forall i :: 0 <= i < |regions| ==> Inv(regions[i].mem) && Balanced(regions[i]) && HalfOpen(regions[i])
  }

  predicate MappingOk(w: World, m: (nat, nat)) {
    m.1 < |w.regions| && m.0 == w.regions[m.1].base
  }

  predicate IsMapped(w: World, id: nat) {
    exists k :: 0 <= k < |w.mappings| && w.mappings[k].1 == id
  }

  predicate MappingsOk(w: World) {
    && (forall k :: 0 <= k < |w.mappings| ==> MappingOk(w, w.mappings[k]))
    && (forall i :: 0 <= i < |w.regions| && w.regions[i].registered ==> IsMapped(w, i))
  }

  function HandlerFills(r: Region): int { r.handlerFills }

  predicate Valid(w: World) {
    && Separated(w.regions) && RegionsOk(w.regions) && MappingsOk(w)
    && (w.snapshot.Some? ==> w.snapshot.value < |w.regions|)
    && w.faults == SumOf(w.regions, HandlerFills)
  }

  // ---- Steps

  function SnapshotMem(w: World): Option<Mem>
    requires w.snapshot.Some? ==> w.snapshot.value < |w.regions|
  {
    if w.snapshot.Some? then Some(w.regions[w.snapshot.value].mem) else None
  }

  function SnapshotSize(w: World): Option<nat>
    requires w.snapshot.Some? ==> w.snapshot.value < |w.regions|
  {
    if w.snapshot.Some? then Some(w.regions[w.snapshot.value].mem.size) else None
  }

  /** One call of the handler. */
  function HandleOne(w: World, address: nat, wp: bool): (r: (Verdict, World))
    requires Valid(w)
    ensures |r.1.regions| == |w.regions|
    ensures forall i :: 0 <= i < |w.regions| ==> WellFormed(r.1.regions[i].mem)
  {
    var i := FirstCovering(Bases(w.mappings), AlignDown(address));
    if i == |w.mappings| then (NoMapping, w)
    else
      var id := w.mappings[i].1;
      assert MappingOk(w, w.mappings[i]);
      var region := w.regions[id];
      var v := Judge(region.base, region.mem.size, SnapshotSize(w), address, wp);
      if v.WrongMapping? || v.OutOfBounds? then (v, w)
      else if v.Unprotect? then (v, w.(faults := w.faults + 1))
      else
        var page := (AlignDown(address) - region.base) / PAGE;
        var filled := region.(mem := Install(region.mem, page, FillContent(v, SnapshotMem(w))),
                              handlerFills := region.handlerFills + 1);
        (v, w.(regions := w.regions[id := filled], faults := w.faults + 1))
  }

  /** The access itself, once the page has a frame. */
  function Touch(w: World, id: nat, offset: nat, write: Option<Byte>): World
    requires id < |w.regions| && WellFormed(w.regions[id].mem)
  {
    var region := w.regions[id];
    if write.None? || Store(region.mem, offset, write.value).None? then w
    else w.(regions := w.regions[id := region.(mem := Store(region.mem, offset, write.value).value)])
  }

  /** The end of an access that found or was given a frame. */
  function Finish(w: World, id: nat, offset: nat, write: Option<Byte>): (r: (Response, World))
    requires id < |w.regions| && WellFormed(w.regions[id].mem)
  {
    (if write.None? then Got(ByteAt(w.regions[id].mem, offset)) else Done, Touch(w, id, offset, write))
  }

  function AccessByte(w: World, id: nat, offset: nat, write: Option<Byte>): (r: (Response, World))
    requires Valid(w) && id < |w.regions| && offset < WMEM_SIZE
  {
    var region := w.regions[id];
    var p := offset / PAGE;
    if p !in region.mem.rw then (Trap, w)
    else if p in region.mem.resident then Finish(w, id, offset, write)
    else if !region.registered then
      var filled := region.(mem := Install(region.mem, p, ZeroPage()), kernelFills := region.kernelFills + 1);
      Finish(w.(regions := w.regions[id := filled]), id, offset, write)
    else
      var (v, n) := HandleOne(w, region.base + offset, false);
      match v
      case NoMapping => (Crash, w)
      case WrongMapping => (Crash, w)
      case OutOfBounds => (Trap, w)
      case _ => Finish(n, id, offset, write)
  }

  function MappingOf(bases: seq<nat>, base: nat): (i: nat)
    ensures i <= |bases|
    ensures i < |bases| ==> bases[i] == base
    ensures forall j :: 0 <= j < i ==> bases[j] != base
  {
    if bases == [] then 0
    else
      var i := MappingOf(Init(bases), base);
      if i < |bases| - 1 then i else if Last(bases) == base then i else |bases|
  }

  function ResizeRegion(r: Region, strategy: Strategy, n: nat): Region
    requires |Resize(strategy, r.mem, n).resident| <= |r.mem.resident|
  {
    var m := Resize(strategy, r.mem, n);
    r.(mem := m, dropped := r.dropped + |r.mem.resident| - |m.resident|)
  }

  /** What callers may do: only existing memories, sizes the kernel accepts, the mmap
      strategies only while the range is not registered, and accesses out of bounds only
      where the handler polices them. */
  predicate Allowed(w: World, step: Step) {
    match step
    case Add(id) => id < |w.regions|
    case Remove(id) => id < |w.regions|
    case SetSnapshot(s) => s.Some? ==> s.value < |w.regions|
    case ResizeTo(id, strategy, n) =>
      id < |w.regions| && PageAligned(n) && n <= WMEM_SIZE && (w.regions[id].registered ==> strategy.Uffd?)
    case Access(id, offset, _) =>
      id < |w.regions| && offset < WMEM_SIZE && (w.regions[id].registered || offset < w.regions[id].mem.size)
  }

  function Take(w: World, step: Step): (r: (Response, World))
    requires Valid(w) && Allowed(w, step)
  {
    match step
    case Add(id) =>
      var region := w.regions[id];
      var open := region.(mem := Mprotect(region.mem, 0, WMEM_SIZE / 2, true), registered := true);
      (Done, w.(regions := w.regions[id := open], mappings := w.mappings + [(region.base, id)]))
    case Remove(id) =>
      var region := w.regions[id];
      var i := MappingOf(Bases(w.mappings), region.base);
      var n := w.(regions := w.regions[id := region.(registered := false)]);
      if i == |w.mappings| then (Missing, n)
      else (Done, n.(mappings := w.mappings[..i] + w.mappings[i + 1..]))
    case SetSnapshot(s) => (Done, w.(snapshot := s))
    case ResizeTo(id, strategy, n) =>
      ResizeDrops(strategy, w.regions[id].mem, n);
      (Done, w.(regions := w.regions[id := ResizeRegion(w.regions[id], strategy, n)]))
    case Access(id, offset, write) => AccessByte(w, id, offset, write)
  }

  lemma ResizeDrops(strategy: Strategy, m: Mem, n: nat)
    ensures |Resize(strategy, m, n).resident| <= |m.resident|
  {
    var after := Resize(strategy, m, n);
    assert after.resident.Keys <= m.resident.Keys;
    SubsetSize(after.resident.Keys, m.resident.Keys);
    assert |after.resident| == |after.resident.Keys| && |m.resident| == |m.resident.Keys|;
  }

  lemma {:induction false} SubsetSize(a: set<nat>, b: set<nat>)
    requires a <= b
    ensures |a| <= |b|
  {
    if a != {} {
      var x :| x in a;
      SubsetSize(a - {x}, b - {x});
    }
  }

  // ---- The owner of a fault

  lemma AlignInRegion(base: nat, offset: nat)
    requires PageAligned(base) && offset < WMEM_SIZE
    ensures CoversAddress(base, AlignDown(base + offset))
    ensures (AlignDown(base + offset) - base) / PAGE == offset / PAGE
  {
    assert (base + offset) % PAGE == offset % PAGE;
  }

  /** Every fault in a registered range finds a mapping, and every mapping that holds
      the address belongs to the range's only owner. */
  lemma FaultFindsOwner(w: World, id: nat, offset: nat)
    requires Valid(w) && id < |w.regions| && w.regions[id].registered && offset < WMEM_SIZE
    ensures var a := AlignDown(w.regions[id].base + offset);
            && FirstCovering(Bases(w.mappings), a) < |w.mappings|
            && forall j :: 0 <= j < |w.mappings| && CoversAddress(w.mappings[j].0, a) ==> w.mappings[j].1 == id
  {
    var base := w.regions[id].base;
    AlignInRegion(base, offset);
    assert IsMapped(w, id);
    var k :| 0 <= k < |w.mappings| && w.mappings[k].1 == id;
    assert MappingOk(w, w.mappings[k]);
    assert Bases(w.mappings)[k] == base;
    forall j | 0 <= j < |w.mappings| && CoversAddress(w.mappings[j].0, AlignDown(base + offset))
      ensures w.mappings[j].1 == id
    {
      assert MappingOk(w, w.mappings[j]);
    }
  }

  /** The handler never ends the process for such a fault, and never blames another
      memory: the second range check cannot fire, and the bounds are the owner's. */
  lemma OwnerIsJudged(w: World, id: nat, offset: nat, wp: bool)
    requires Valid(w) && id < |w.regions| && w.regions[id].registered && offset < WMEM_SIZE
    ensures var region := w.regions[id];
            var v := Judge(region.base, region.mem.size, SnapshotSize(w), region.base + offset, wp);
            && !v.NoMapping? && !v.WrongMapping?
            && (v.OutOfBounds? <==> offset >= region.mem.size) && (v.Unprotect? ==> wp)
            && HandleOne(w, region.base + offset, wp) ==
               if v.OutOfBounds? then (v, w)
               else if v.Unprotect? then (v, w.(faults := w.faults + 1))
               else (v, w.(faults := w.faults + 1,
                           regions := w.regions[id := region.(
                             mem := Install(region.mem, offset / PAGE, FillContent(v, SnapshotMem(w))),
                             handlerFills := region.handlerFills + 1)]))
  {
    FaultFindsOwner(w, id, offset);
    AlignInRegion(w.regions[id].base, offset);
  }

  /** The answer in plain numbers, for an address of the range: out of bounds from the
      size on; then the protection flag; then the start of the page against the snapshot's
      size. Outside the range the mapping is wrong. */
  lemma JudgeByCases(base: nat, size: nat, snapshotSize: Option<nat>, address: nat, wp: bool)
    requires PageAligned(base)
    ensures var v := Judge(base, size, snapshotSize, address, wp);
            && (v.WrongMapping? <==> address < base || address >= base + 0x2_0000_0000)
            && (!v.WrongMapping? ==>
                  && (v.OutOfBounds? <==> address - base >= size)
                  && (v.Unprotect? <==> address - base < size && wp)
                  && (v.CopySnapshot? <==>
                        && address - base < size && !wp
                        && snapshotSize.Some? && address - address % 4096 < snapshotSize.value))
  {
    assert AlignDown(address) < base <==> address < base;
  }

  // ---- Every step keeps the invariant

  lemma RegionUpdate(w: World, id: nat, r: Region)
    requires Valid(w) && id < |w.regions| && r.base == w.regions[id].base
    requires Inv(r.mem) && Balanced(r) && HalfOpen(r)
    requires r.registered ==> IsMapped(w, id)
    requires r.handlerFills >= w.regions[id].handlerFills
    ensures Valid(w.(regions := w.regions[id := r], faults := w.faults + r.handlerFills - w.regions[id].handlerFills))
  {
    hide Inv, Balanced, HalfOpen, PageAligned;
    var n := w.(regions := w.regions[id := r], faults := w.faults + r.handlerFills - w.regions[id].handlerFills);
    SumOfUpdate(w.regions, id, r, HandlerFills);
    forall k | 0 <= k < |n.mappings| ensures MappingOk(n, n.mappings[k]) {
      assert MappingOk(w, w.mappings[k]);
    }
    forall i | 0 <= i < |n.regions| && n.regions[i].registered ensures IsMapped(n, i) {
      assert IsMapped(w, i);
      var k :| 0 <= k < |w.mappings| && w.mappings[k].1 == i;
      assert n.mappings[k].1 == i;
    }
  }

  lemma InstallKeeps(m: Mem, p: nat, content: seq<Byte>)
    requires Inv(m) && |content| == PAGE && p < m.size / PAGE && p !in m.resident
    ensures Inv(Install(m, p, content)) && |Install(m, p, content).resident| == |m.resident| + 1
  {
    assert (m.resident[p := content]).Keys == m.resident.Keys + {p};
    assert |m.resident[p := content].Keys| == |m.resident.Keys| + 1;
  }

  lemma TouchKeeps(w: World, id: nat, offset: nat, write: Option<Byte>)
    requires Valid(w) && id < |w.regions| && offset / PAGE in w.regions[id].mem.resident
    ensures Valid(Touch(w, id, offset, write))
  {
    var region := w.regions[id];
    if write.Some? && Store(region.mem, offset, write.value).Some? {
      var m := Store(region.mem, offset, write.value).value;
      assert m.resident.Keys == region.mem.resident.Keys;
      assert |m.resident| == |m.resident.Keys| && |region.mem.resident| == |region.mem.resident.Keys|;
      RegionKeepsMapping(w, id);
      RegionUpdate(w, id, region.(mem := m));
    }
  }

  lemma RegionKeepsMapping(w: World, id: nat)
    requires Valid(w) && id < |w.regions|
    ensures w.regions[id].registered ==> IsMapped(w, id)
    ensures Inv(w.regions[id].mem) && Balanced(w.regions[id]) && HalfOpen(w.regions[id])
  {
  }

  /** The handler keeps the invariant: one fault counted, one frame given. */
  lemma HandleKeepsValid(w: World, id: nat, offset: nat)
    requires Valid(w) && id < |w.regions| && w.regions[id].registered && offset < WMEM_SIZE
    requires offset / PAGE !in w.regions[id].mem.resident
    ensures Valid(HandleOne(w, w.regions[id].base + offset, false).1)
  {
    hide Inv, Valid, HandleOne;
    OwnerIsJudged(w, id, offset, false);
    RegionKeepsMapping(w, id);
    SnapshotIsWellFormed(w);
    var region := w.regions[id];
    if offset < region.mem.size {
      InvParts(region.mem);
      PageBelow(offset, region.mem.size);
      var v := Judge(region.base, region.mem.size, SnapshotSize(w), region.base + offset, false);
      var content := FillContent(v, SnapshotMem(w));
      InstallKeeps(region.mem, offset / PAGE, content);
      RegionUpdate(w, id, region.(mem := Install(region.mem, offset / PAGE, content), handlerFills := region.handlerFills + 1));
    }
  }

  lemma SnapshotIsWellFormed(w: World)
    requires Valid(w)
    ensures w.snapshot.Some? ==> w.snapshot.value < |w.regions|
    ensures SnapshotMem(w).Some? ==> WellFormed(SnapshotMem(w).value)
  {
  }

  lemma AccessKeepsValid(w: World, id: nat, offset: nat, write: Option<Byte>)
    requires Valid(w) && Allowed(w, Access(id, offset, write))
    ensures Valid(AccessByte(w, id, offset, write).1) && !AccessByte(w, id, offset, write).0.Crash?
  {
    hide Valid, Inv, HandleOne, Store, Judge, Touch, FillContent;
    var region := w.regions[id];
    var p := offset / PAGE;
    RegionKeepsMapping(w, id);
    InvParts(region.mem);
    PageBelow(offset, region.mem.size);
    if p in region.mem.rw {
      if p in region.mem.resident {
        TouchKeeps(w, id, offset, write);
      } else if !region.registered {
        InstallKeeps(region.mem, p, ZeroPage());
        var filled := region.(mem := Install(region.mem, p, ZeroPage()), kernelFills := region.kernelFills + 1);
        RegionUpdate(w, id, filled);
        TouchKeeps(w.(regions := w.regions[id := filled]), id, offset, write);
      } else {
        OwnerIsJudged(w, id, offset, false);
        HandleKeepsValid(w, id, offset);
        if offset < region.mem.size {
          TouchKeeps(HandleOne(w, region.base + offset, false).1, id, offset, write);
        }
      }
    }
  }

  lemma OpeningKeeps(m: Mem)
    ensures var n := Mprotect(m, 0, WMEM_SIZE / 2, true);
            (Inv(m) ==> Inv(n)) && n.resident == m.resident && PagesIn(0, WMEM_SIZE / 2) <= n.rw
  {
  }

  lemma AddKeepsValid(w: World, id: nat)
    requires Valid(w) && id < |w.regions|
    ensures Valid(Take(w, Add(id)).1)
  {
    hide Inv, Separated, SumOf;
    RegionKeepsMapping(w, id);
    OpeningKeeps(w.regions[id].mem);
    var region := w.regions[id];
    var open := region.(mem := Mprotect(region.mem, 0, WMEM_SIZE / 2, true), registered := true);
    var mapped := w.(mappings := w.mappings + [(region.base, id)]);
    assert Valid(mapped) && IsMapped(mapped, id) by {
      assert mapped.mappings[|w.mappings|].1 == id;
      forall k | 0 <= k < |mapped.mappings| ensures MappingOk(mapped, mapped.mappings[k]) {
        assert k < |w.mappings| ==> MappingOk(w, w.mappings[k]);
      }
      forall i | 0 <= i < |w.regions| && w.regions[i].registered ensures IsMapped(mapped, i) {
        assert IsMapped(w, i);
        var k :| 0 <= k < |w.mappings| && w.mappings[k].1 == i;
        assert mapped.mappings[k].1 == i;
      }
    }
    RegionUpdate(mapped, id, open);
  }

  lemma MappedIsFound(w: World, id: nat)
    requires Valid(w) && id < |w.regions| && IsMapped(w, id)
    ensures MappingOf(Bases(w.mappings), w.regions[id].base) < |w.mappings|
  {
    var k :| 0 <= k < |w.mappings| && w.mappings[k].1 == id;
    assert MappingOk(w, w.mappings[k]) && Bases(w.mappings)[k] == w.regions[id].base;
  }

  lemma RemoveKeepsValid(w: World, id: nat)
    requires Valid(w) && id < |w.regions|
    ensures Valid(Take(w, Remove(id)).1)
    ensures w.regions[id].registered ==> Take(w, Remove(id)).0.Done?
  {
    hide Inv, Separated, SumOf, PageAligned;
    RegionKeepsMapping(w, id);
    var region := w.regions[id];
    var n := w.(regions := w.regions[id := region.(registered := false)]);
    RegionUpdate(w, id, region.(registered := false));
    var bases := Bases(w.mappings);
    var i := MappingOf(bases, region.base);
    if region.registered {
      MappedIsFound(w, id);
    }
    if i < |w.mappings| {
      assert MappingOk(w, w.mappings[i]) && bases[i] == region.base;
      EraseKeepsValid(n, i, id);
    }
  }

  lemma EraseKeepsValid(w: World, i: nat, id: nat)
    requires Valid(w) && i < |w.mappings| && id < |w.regions| && !w.regions[id].registered
    requires w.mappings[i].0 == w.regions[id].base
    ensures Valid(w.(mappings := w.mappings[..i] + w.mappings[i + 1..]))
  {
    hide Inv, Balanced, HalfOpen, SumOf, PageAligned;
    var n := w.(mappings := w.mappings[..i] + w.mappings[i + 1..]);
    assert MappingOk(w, w.mappings[i]);
    assert w.mappings[i].1 == id;
    forall k | 0 <= k < |n.mappings| ensures MappingOk(n, n.mappings[k]) {
      assert MappingOk(w, w.mappings[if k < i then k else k + 1]);
    }
    forall j | 0 <= j < |n.regions| && n.regions[j].registered ensures IsMapped(n, j) {
      assert IsMapped(w, j);
      var k :| 0 <= k < |w.mappings| && w.mappings[k].1 == j;
      assert n.mappings[if k < i then k else k - 1].1 == j;
    }
  }

  lemma ResizeKeepsValid(w: World, id: nat, strategy: Strategy, n: nat)
    requires Valid(w) && Allowed(w, ResizeTo(id, strategy, n))
    ensures Valid(Take(w, ResizeTo(id, strategy, n)).1)
  {
    hide Inv, Valid, Resize;
    RegionKeepsMapping(w, id);
    InvParts(w.regions[id].mem);
    ResizeKeepsInv(strategy, w.regions[id].mem, n);
    ResizeDrops(strategy, w.regions[id].mem, n);
    RegionUpdate(w, id, ResizeRegion(w.regions[id], strategy, n));
  }

  lemma StepKeepsValid(w: World, step: Step)
    requires Valid(w) && Allowed(w, step)
    ensures Valid(Take(w, step).1) && !Take(w, step).0.Crash?
  {
    hide AccessByte, ResizeRegion;
    match step
    case Add(id) =>
      hide Valid;
      AddKeepsValid(w, id);
    case Remove(id) =>
      hide Valid;
      RemoveKeepsValid(w, id);
    case SetSnapshot(_) =>
      var n := Take(w, step).1;
      forall k | 0 <= k < |n.mappings| ensures MappingOk(n, n.mappings[k]) {
        assert MappingOk(w, w.mappings[k]);
      }
      forall i | 0 <= i < |n.regions| && n.regions[i].registered ensures IsMapped(n, i) {
        assert IsMapped(w, i);
        var k :| 0 <= k < |w.mappings| && w.mappings[k].1 == i;
        assert n.mappings[k].1 == i;
      }
    case ResizeTo(id, strategy, size) =>
      hide Valid;
      ResizeKeepsValid(w, id, strategy, size);
    case Access(id, offset, write) =>
      hide Valid;
      AccessKeepsValid(w, id, offset, write);
  }

  // ---- Registration

  /** Registering opens exactly the pages of the lower half, maps the memory last, and
      changes nothing else. */
  lemma AddOpensExactly(w: World, id: nat)
    requires Valid(w) && id < |w.regions|
    ensures var (response, n) := Take(w, Add(id));
            var (r, before) := (n.regions[id], w.regions[id]);
            && response == Done && n.mappings == w.mappings + [(before.base, id)]
            && n.snapshot == w.snapshot && n.faults == w.faults && |n.regions| == |w.regions|
            && (forall i :: 0 <= i < |w.regions| && i != id ==> n.regions[i] == w.regions[i])
            && r == before.(registered := true, mem := before.mem.(rw := r.mem.rw))
            && forall p: nat :: p in r.mem.rw <==> p in before.mem.rw || p < 0x10_0000
  {
    hide Valid;
    forall p: nat ensures p in PagesIn(0, WMEM_SIZE / 2) <==> p < 0x10_0000 {
    }
  }

  /** Removing answers with the exception exactly when the memory is not mapped, and
      otherwise erases its first mapping; no byte and no protection changes. */
  lemma RemoveExactly(w: World, id: nat)
    requires Valid(w) && id < |w.regions|
    ensures var (response, n) := Take(w, Remove(id));
            && (response == Missing <==> !IsMapped(w, id)) && (response == Done <==> IsMapped(w, id))
            && n.regions == w.regions[id := w.regions[id].(registered := false)]
            && n.snapshot == w.snapshot && n.faults == w.faults
            && (response == Missing ==> n.mappings == w.mappings)
            && (response == Done ==>
                  exists i :: 0 <= i < |w.mappings| && w.mappings[i].1 == id
                    && (forall j :: 0 <= j < i ==> w.mappings[j].1 != id)
                    && n.mappings == w.mappings[..i] + w.mappings[i + 1..])
  {
    hide RegionsOk, SumOf, PageAligned;
    var base, i := w.regions[id].base, MappingOf(Bases(w.mappings), w.regions[id].base);
    forall k | 0 <= k < |w.mappings| ensures w.mappings[k].1 == id <==> Bases(w.mappings)[k] == base {
      assert MappingOk(w, w.mappings[k]);
    }
    if IsMapped(w, id) {
      MappedIsFound(w, id);
    }
    if i < |w.mappings| {
      assert w.mappings[i].1 == id;
    }
  }

  // ---- Whole runs

  /** The world after a run of steps; None when a step was not allowed. */
  function Run(w: World, steps: seq<Step>): (r: Option<World>)
    requires Valid(w)
    ensures r.Some? ==> Valid(r.value)
  {
    if steps == [] then Some(w)
    else
      match Run(w, Init(steps))
      case None => None
      case Some(n) =>
        if Allowed(n, Last(steps)) then
          StepKeepsValid(n, Last(steps));
          Some(Take(n, Last(steps)).1)
        else None
  }

  lemma FreshIsValid(bases: seq<nat>)
    requires forall i :: 0 <= i < |bases| ==> PageAligned(bases[i])
    requires forall i, j :: 0 <= i < |bases| && 0 <= j < |bases| && i != j ==>
               bases[i] + WMEM_SIZE <= bases[j] || bases[j] + WMEM_SIZE <= bases[i]
    ensures Valid(FreshWorld(bases))
  {
    NothingFilled(FreshWorld(bases).regions);
  }

  lemma {:induction false} NothingFilled(regions: seq<Region>)
    requires forall r :: r in regions ==> r.handlerFills == 0
    ensures SumOf(regions, HandlerFills) == 0
  {
    if regions != [] {
      NothingFilled(Init(regions));
    }
  }

  function KernelFills(r: Region): int { r.kernelFills }

  function Present(r: Region): int { |r.mem.resident| }

  function Dropped(r: Region): int { r.dropped }

  /** After any run the faults counted by the handler and the frames given by the kernel
      are together the frames present and the frames ever dropped; in every memory, and
      so over all of them. */
  lemma FaultsAreConserved(bases: seq<nat>, steps: seq<Step>)
    requires forall i :: 0 <= i < |bases| ==> PageAligned(bases[i])
    requires forall i, j :: 0 <= i < |bases| && 0 <= j < |bases| && i != j ==>
               bases[i] + WMEM_SIZE <= bases[j] || bases[j] + WMEM_SIZE <= bases[i]
    ensures Valid(FreshWorld(bases))
    ensures var r := Run(FreshWorld(bases), steps);
            r.Some? ==>
              && (forall i :: 0 <= i < |r.value.regions| ==> Balanced(r.value.regions[i]))
              && r.value.faults + SumOf(r.value.regions, KernelFills)
                 == SumOf(r.value.regions, Present) + SumOf(r.value.regions, Dropped)
  {
    hide FreshWorld, Run;
    FreshIsValid(bases);
    var r := Run(FreshWorld(bases), steps);
    if r.Some? {
      assert forall i :: 0 <= i < |r.value.regions| ==> Balanced(r.value.regions[i]);
      BalancedSums(r.value.regions);
    }
  }

  lemma {:induction false} BalancedSums(regions: seq<Region>)
    requires forall i :: 0 <= i < |regions| ==> Balanced(regions[i])
    ensures SumOf(regions, HandlerFills) + SumOf(regions, KernelFills)
         == SumOf(regions, Present) + SumOf(regions, Dropped)
  {
    if regions != [] {
      assert Balanced(Last(regions));
      BalancedSums(Init(regions));
    }
  }

  // ---- What accesses mean

  function Datas(w: World): (d: seq<seq<Byte>>)
    requires Valid(w)
    ensures |d| == |w.regions|
    ensures forall i :: 0 <= i < |d| ==> d[i] == Data(w.regions[i].mem)
  {
    seq(|w.regions|, i requires 0 <= i < |w.regions| => Data(w.regions[i].mem))
  }

  /** The handler fills with zeros: no snapshot, or every range lies above its size. */
  predicate ZeroFilling(w: World)
    requires w.snapshot.Some? ==> w.snapshot.value < |w.regions|
  {
    SnapshotSize(w).None? || forall i :: 0 <= i < |w.regions| ==> w.regions[i].base >= SnapshotSize(w).value
  }

  function SetByte(b: seq<Byte>, at: nat, v: Byte): (r: seq<Byte>)
    requires at < |b|
  {
    b[at := v]
  }

  /** What a step does to the bytes of all memories. */
  function Meaning(d: seq<seq<Byte>>, step: Step, response: Response): (r: seq<seq<Byte>>)
    ensures |r| == |d|
  {
    match step
    case ResizeTo(id, _, n) => if id < |d| then d[id := Resized(d[id], n)] else d
    case Access(id, offset, write) =>
      if response.Done? && write.Some? && id < |d| && offset < |d[id]|
      then d[id := SetByte(d[id], offset, write.value)] else d
    case Add(_) => d
    case Remove(_) => d
    case SetSnapshot(_) => d
  }

  lemma StoreMeans(m: Mem, a: nat, v: Byte)
    requires WellFormed(m) && Store(m, a, v).Some? && a < m.size
    ensures Data(Store(m, a, v).value) == SetByte(Data(m), a, v)
  {
    hide ByteAt, WellFormed;
    var n := Store(m, a, v).value;
    forall b | 0 <= b < m.size ensures Data(n)[b] == SetByte(Data(m), a, v)[b] {
      StoreByte(m, a, v, b);
    }
  }

  /** Giving a missing page a frame of zeros changes no byte. */
  lemma ZeroFillMeans(m: Mem, p: nat)
    requires WellFormed(m) && p !in m.resident
    ensures WellFormed(Install(m, p, ZeroPage())) && Data(Install(m, p, ZeroPage())) == Data(m)
  {
    var n := Install(m, p, ZeroPage());
    forall a: nat ensures ByteAt(n, a) == ByteAt(m, a) {
    }
  }

  lemma TouchMeans(w: World, id: nat, offset: nat, write: Option<Byte>)
    requires Valid(w) && id < |w.regions| && offset < w.regions[id].mem.size
    requires offset / PAGE in w.regions[id].mem.resident && offset / PAGE in w.regions[id].mem.rw
    ensures var n := Touch(w, id, offset, write);
            Valid(n) && Datas(n) == Meaning(Datas(w), Access(id, offset, write), Done)
  {
    hide Valid, Data;
    RegionKeepsMapping(w, id);
    TouchKeeps(w, id, offset, write);
    if write.Some? {
      StoreMeans(w.regions[id].mem, offset, write.value);
      var n := Touch(w, id, offset, write);
      forall i | 0 <= i < |w.regions|
        ensures Datas(n)[i] == Meaning(Datas(w), Access(id, offset, write), Done)[i]
      {
      }
    }
  }

  predicate Completed(r: Response) {
    r.Done? || r.Got?
  }

  /** However pages are filled: an access completes exactly when its page has access
      rights and it is in bounds; otherwise it traps and changes nothing. */
  lemma AccessOutcome(w: World, id: nat, offset: nat, write: Option<Byte>)
    requires Valid(w) && Allowed(w, Access(id, offset, write))
    ensures var region := w.regions[id];
            var (response, n) := AccessByte(w, id, offset, write);
            && (Completed(response) <==> offset / PAGE in region.mem.rw && offset < region.mem.size)
            && (Completed(response) ==> response.Got? == write.None?)
            && (!Completed(response) ==> response.Trap? && n == w)
  {
    hide Valid, Inv, HandleOne, Judge, Store, Touch;
    var region := w.regions[id];
    RegionKeepsMapping(w, id);
    InvParts(region.mem);
    if offset / PAGE in region.mem.rw {
      if offset / PAGE in region.mem.resident {
        FramesAreInBounds(region.mem, offset);
      } else if region.registered {
        OwnerIsJudged(w, id, offset, false);
      }
    }
  }

  lemma FinishMeans(w: World, id: nat, offset: nat, write: Option<Byte>)
    requires Valid(w) && id < |w.regions| && offset < w.regions[id].mem.size
    requires offset / PAGE in w.regions[id].mem.resident && offset / PAGE in w.regions[id].mem.rw
    ensures var (response, n) := Finish(w, id, offset, write);
            && Valid(n) && Datas(n) == Meaning(Datas(w), Access(id, offset, write), response)
            && response == if write.None? then Got(Datas(w)[id][offset]) else Done
  {
    hide Valid, Touch, ByteAt;
    RegionKeepsMapping(w, id);
    TouchMeans(w, id, offset, write);
  }

  /** Under zero filling a write changes its byte and nothing else, and a read changes
      no byte and yields the byte at its address. */
  lemma AccessMeans(w: World, id: nat, offset: nat, write: Option<Byte>)
    requires Valid(w) && Allowed(w, Access(id, offset, write)) && ZeroFilling(w)
    ensures var (response, n) := AccessByte(w, id, offset, write);
            && Valid(n) && Datas(n) == Meaning(Datas(w), Access(id, offset, write), response)
            && (response.Got? ==> offset < |Datas(w)[id]| && response.value == Datas(w)[id][offset])
  {
    hide Valid, Inv, HandleOne, Finish, Data, Meaning;
    var region := w.regions[id];
    var p := offset / PAGE;
    RegionKeepsMapping(w, id);
    InvParts(region.mem);
    PageBelow(offset, region.mem.size);
    AccessKeepsValid(w, id, offset, write);
    NoMeaning(Datas(w), id, offset, write);
    if p in region.mem.rw {
      if p in region.mem.resident {
        FramesAreInBounds(region.mem, offset);
        FinishMeans(w, id, offset, write);
      } else if !region.registered {
        InstallKeeps(region.mem, p, ZeroPage());
        ZeroFillMeans(region.mem, p);
        var filled := region.(mem := Install(region.mem, p, ZeroPage()), kernelFills := region.kernelFills + 1);
        RegionUpdate(w, id, filled);
        var n := w.(regions := w.regions[id := filled]);
        assert Datas(n) == Datas(w);
        FinishMeans(n, id, offset, write);
      } else {
        OwnerIsJudged(w, id, offset, false);
        if offset < region.mem.size {
          HandleKeepsValid(w, id, offset);
          ZeroFillMeans(region.mem, p);
          var n := HandleOne(w, region.base + offset, false).1;
          assert n.regions[id].mem == Install(region.mem, p, ZeroPage());
          assert Datas(n) == Datas(w);
          FinishMeans(n, id, offset, write);
        }
      }
    }
  }

  lemma NoMeaning(d: seq<seq<Byte>>, id: nat, offset: nat, write: Option<Byte>)
    ensures Meaning(d, Access(id, offset, write), Trap) == d
  {
  }

  lemma FramesAreInBounds(m: Mem, offset: nat)
    requires Inv(m) && offset / PAGE in m.resident
    ensures offset < m.size
  {
    PageBelow(offset, m.size);
  }

  /** Every step means what the bytes say: registering, removing and choosing snapshots
      change no byte, resizing truncates or appends zeros, whatever the strategy. */
  lemma StepMeans(w: World, step: Step)
    requires Valid(w) && Allowed(w, step) && (step.Access? ==> ZeroFilling(w))
    ensures var (response, n) := Take(w, step);
            Valid(n) && Datas(n) == Meaning(Datas(w), step, response)
  {
    hide Valid, AccessByte;
    StepKeepsValid(w, step);
    match step
    case Add(id) =>
      hide Data;
      RegionKeepsMapping(w, id);
      OpeningMeans(w.regions[id].mem);
    case Remove(id) =>
      hide Data;
    case SetSnapshot(_) =>
      hide Data;
    case ResizeTo(id, strategy, n) =>
      hide Data, Resize, Inv;
      RegionKeepsMapping(w, id);
      ResizeMeans(strategy, w.regions[id].mem, n);
    case Access(id, offset, write) =>
      hide Data, Meaning;
      AccessMeans(w, id, offset, write);
  }

  lemma OpeningMeans(m: Mem)
    requires WellFormed(m)
    ensures var n := Mprotect(m, 0, WMEM_SIZE / 2, true);
            WellFormed(n) && Data(n) == Data(m)
  {
    var n := Mprotect(m, 0, WMEM_SIZE / 2, true);
    forall a: nat ensures ByteAt(n, a) == ByteAt(m, a) {
    }
  }

  /** Zero filling at every access of a run. */
  predicate ZeroFillingRun(w: World, steps: seq<Step>)
    requires Valid(w)
  {
    steps == [] || (
      && ZeroFillingRun(w, Init(steps))
      && (Run(w, Init(steps)).Some? && Last(steps).Access? ==> ZeroFilling(Run(w, Init(steps)).value)))
  }

  /** The bytes of all memories after a run, from the responses alone. */
  function RunMeaning(w: World, steps: seq<Step>): seq<seq<Byte>>
    requires Valid(w) && Run(w, steps).Some?
  {
    if steps == [] then Datas(w)
    else Meaning(RunMeaning(w, Init(steps)), Last(steps), Take(Run(w, Init(steps)).value, Last(steps)).0)
  }

  /** Over any run with zero filling the memories hold exactly the bytes the steps say:
      faults, registrations and snapshots cannot be seen. */
  lemma {:induction false} RunMeans(w: World, steps: seq<Step>)
    requires Valid(w)
    ensures Run(w, steps).Some? && ZeroFillingRun(w, steps) ==>
              Datas(Run(w, steps).value) == RunMeaning(w, steps)
  {
    hide Valid, Take, Allowed, Meaning, ZeroFilling, Datas;
    if steps != [] && Run(w, steps).Some? && ZeroFillingRun(w, steps) {
      RunMeans(w, Init(steps));
      StepMeans(Run(w, Init(steps)).value, Last(steps));
    }
  }

  /** Ranges above any possible snapshot size: every run fills with zeros, whichever
      snapshot is set. */
  lemma {:induction false} HighRangesFillZeros(w: World, steps: seq<Step>)
    requires Valid(w) && (forall r :: r in w.regions ==> r.base >= WMEM_SIZE)
    ensures ZeroFillingRun(w, steps)
    ensures Run(w, steps).Some? ==> forall r :: r in Run(w, steps).value.regions ==> r.base >= WMEM_SIZE
  {
    hide Valid, Take, Allowed;
    if steps != [] {
      HighRangesFillZeros(w, Init(steps));
      if Run(w, Init(steps)).Some? {
        var n := Run(w, Init(steps)).value;
        SnapshotFits(n);
        if Allowed(n, Last(steps)) {
          BasesStay(n, Last(steps));
        }
      }
    }
  }

  lemma SnapshotFits(w: World)
    requires Valid(w) && (forall r :: r in w.regions ==> r.base >= WMEM_SIZE)
    ensures ZeroFilling(w)
  {
    if w.snapshot.Some? {
      assert Inv(w.regions[w.snapshot.value].mem);
    }
  }

  lemma BasesStay(w: World, step: Step)
    requires Valid(w) && Allowed(w, step)
    ensures var n := Take(w, step).1;
            |n.regions| == |w.regions| && forall i :: 0 <= i < |n.regions| ==> n.regions[i].base == w.regions[i].base
  {
    hide Valid, Judge, FillContent, Store, Resize, Inv, Install, ByteAt;
  }

  // ---- Lazy restoration

  /** What a fault on page p of a range at base installs: the snapshot's first page below
      the snapshot's size as an absolute address, and zeros from there on. */
  function LazyContent(base: nat, snap: Mem, p: nat): seq<Byte>
    requires WellFormed(snap)
  {
    if base + p * PAGE < snap.size then PageContent(snap, 0) else ZeroPage()
  }

  /** In-bounds reads of one memory. */
  predicate Reads(id: nat, size: nat, accesses: seq<Step>) {
    forall s :: s in accesses ==> s.Access? && s.id == id && s.write.None? && s.offset < size
  }

  /** Whether some access of the list touches page p. */
  predicate Touches(accesses: seq<Step>, p: nat) {
    exists i :: 0 <= i < |accesses| && accesses[i].Access? && accesses[i].offset / PAGE == p
  }

  predicate ReadyToFill(w: World, id: nat)
    requires Valid(w)
  {
    && id < |w.regions| && w.regions[id].registered && w.snapshot.Some?
    && w.regions[id].mem.resident == map[]
    && w.regions[id].mem.size == w.regions[w.snapshot.value].mem.size <= WMEM_SIZE / 2
  }

  /** Where reads can lead from the world w0: every present page holds what its fault
      installed, and the snapshot's first page is still the same. */
  ghost predicate LazyInv(w0: World, w: World, id: nat)
    requires Valid(w0) && ReadyToFill(w0, id)
  {
    && Valid(w) && |w.regions| == |w0.regions| && w.snapshot == w0.snapshot
    && (var (r, r0) := (w.regions[id], w0.regions[id]);
        && r.base == r0.base && r.registered && r.mem.size == r0.mem.size && r.mem.rw == r0.mem.rw)
    && (var (snap, snap0) := (w.regions[w.snapshot.value].mem, w0.regions[w.snapshot.value].mem);
        && snap.size == snap0.size && PageContent(snap, 0) == PageContent(snap0, 0)
        && forall p :: p in w.regions[id].mem.resident ==>
             w.regions[id].mem.resident[p] == LazyContent(w0.regions[id].base, snap0, p))
  }

  lemma HalfIsAccessible(r: Region, offset: nat)
    requires HalfOpen(r) && r.registered && offset < WMEM_SIZE / 2
    ensures offset / PAGE in r.mem.rw
  {
    assert offset / PAGE in PagesIn(0, WMEM_SIZE / 2);
  }

  lemma FillIsLazyContent(base: nat, size: nat, snap: Mem, offset: nat)
    requires PageAligned(base) && offset < size <= WMEM_SIZE / 2 && WellFormed(snap)
    ensures var v := Judge(base, size, Some(snap.size), base + offset, false);
            (v.CopySnapshot? || v.ZeroFill?) && FillContent(v, Some(snap)) == LazyContent(base, snap, offset / PAGE)
  {
    assert AlignDown(base + offset) == base + offset / PAGE * PAGE;
  }

  /** One in-bounds read changes nothing if the page is present, and otherwise installs
      the page's lazy content. */
  lemma ReadResult(w: World, id: nat, offset: nat)
    requires Valid(w) && id < |w.regions| && w.regions[id].registered && w.snapshot.Some?
    requires w.snapshot.value < |w.regions| && WellFormed(w.regions[w.snapshot.value].mem)
    requires offset < w.regions[id].mem.size <= WMEM_SIZE / 2
    ensures Allowed(w, Access(id, offset, None))
    ensures var region, snap, p := w.regions[id], w.regions[w.snapshot.value].mem, offset / PAGE;
            AccessByte(w, id, offset, None).1 ==
            if p in region.mem.resident then w
            else w.(faults := w.faults + 1,
                    regions := w.regions[id := region.(
                      mem := Install(region.mem, p, LazyContent(region.base, snap, p)),
                      handlerFills := region.handlerFills + 1)])
  {
    hide Valid, Inv, HandleOne, Judge, PageContent, ByteAt, LazyContent, ZeroPage, FillContent;
    var region := w.regions[id];
    RegionKeepsMapping(w, id);
    HalfIsAccessible(region, offset);
    AlignedBase(w, id);
    OwnerIsJudged(w, id, offset, false);
    FillIsLazyContent(region.base, region.mem.size, w.regions[w.snapshot.value].mem, offset);
  }

  lemma LazyRead(w0: World, w: World, id: nat, offset: nat)
    requires Valid(w0) && ReadyToFill(w0, id) && LazyInv(w0, w, id) && offset < w0.regions[id].mem.size
    ensures Allowed(w, Access(id, offset, None))
    ensures var n := AccessByte(w, id, offset, None).1;
            && LazyInv(w0, n, id)
            && n.regions[id].mem.resident.Keys == w.regions[id].mem.resident.Keys + {offset / PAGE}
  {
    hide Valid, AccessByte, PageContent, LazyContent;
    var region, p := w.regions[id], offset / PAGE;
    SnapshotIsWellFormed(w);
    SnapshotIsWellFormed(w0);
    var snap, snap0 := w.regions[w.snapshot.value].mem, w0.regions[w.snapshot.value].mem;
    AccessKeepsValid(w, id, offset, None);
    ReadResult(w, id, offset);
    SameLazyContent(region.base, snap, snap0, p);
    if p in region.mem.resident {
      assert region.mem.resident.Keys == region.mem.resident.Keys + {p};
    } else if id == w.snapshot.value {
      OwnSnapshot(region.mem, region.base, snap0, p);
    }
  }

  lemma AlignedBase(w: World, id: nat)
    requires Valid(w) && id < |w.regions|
    ensures PageAligned(w.regions[id].base)
  {
  }

  lemma SameLazyContent(base: nat, a: Mem, b: Mem, p: nat)
    requires WellFormed(a) && WellFormed(b) && a.size == b.size && PageContent(a, 0) == PageContent(b, 0)
    ensures LazyContent(base, a, p) == LazyContent(base, b, p) && |LazyContent(base, a, p)| == PAGE
  {
  }

  /** A memory that is its own snapshot had no page to begin with: all it installs is
      zeros. */
  lemma OwnSnapshot(m: Mem, base: nat, snap0: Mem, p: nat)
    requires WellFormed(m) && WellFormed(snap0) && snap0.resident == map[]
    requires PageContent(m, 0) == PageContent(snap0, 0)
    ensures var n := Install(m, p, LazyContent(base, snap0, p));
            WellFormed(n) && PageContent(n, 0) == PageContent(snap0, 0)
  {
  }

  lemma {:induction false} LazyRun(w: World, id: nat, accesses: seq<Step>)
    requires Valid(w) && ReadyToFill(w, id) && Reads(id, w.regions[id].mem.size, accesses)
    ensures var r := Run(w, accesses);
            && r.Some? && LazyInv(w, r.value, id)
            && forall p :: p in r.value.regions[id].mem.resident <==> Touches(accesses, p)
  {
    hide Valid, AccessByte, Allowed, PageContent, LazyContent, Inv, HandleOne, Resize, MappingOf, Mprotect;
    if accesses == [] {
      LazyStart(w, id);
    } else {
      var front, last := Init(accesses), Last(accesses);
      assert forall s :: s in front ==> s in accesses;
      assert last in accesses;
      LazyRun(w, id, front);
      LazyRead(w, Run(w, front).value, id, last.offset);
      forall p ensures Touches(accesses, p) <==> Touches(front, p) || p == last.offset / PAGE {
        TouchesSnoc(front, last, p);
        assert front + [last] == accesses;
      }
    }
  }

  lemma LazyStart(w: World, id: nat)
    requires Valid(w) && ReadyToFill(w, id)
    ensures LazyInv(w, w, id)
  {
  }

  lemma TouchesSnoc(front: seq<Step>, last: Step, p: nat)
    requires last.Access?
    ensures Touches(front + [last], p) <==> Touches(front, p) || p == last.offset / PAGE
  {
    if Touches(front, p) {
      var i :| 0 <= i < |front| && front[i].Access? && front[i].offset / PAGE == p;
      assert (front + [last])[i] == front[i];
    }
    assert (front + [last])[|front|] == last;
  }

  lemma PagesMakeData(a: Mem, b: Mem)
    requires WellFormed(a) && WellFormed(b) && PageAligned(a.size) && a.size == b.size
    ensures Data(a) == Data(b) <==> forall p: nat :: p < a.size / PAGE ==> PageContent(a, p) == PageContent(b, p)
  {
    hide PageContent;
    if forall p: nat :: p < a.size / PAGE ==> PageContent(a, p) == PageContent(b, p) {
      forall i | 0 <= i < a.size ensures Data(a)[i] == Data(b)[i] {
        PageBelow(i, a.size);
      }
    }
    if Data(a) == Data(b) {
      forall p: nat | p < a.size / PAGE ensures PageContent(a, p) == PageContent(b, p) {
        forall k | 0 <= k < PAGE ensures PageContent(a, p)[k] == PageContent(b, p)[k] {
          PagePosition(p, k, a.size);
          assert Data(a)[p * PAGE + k] == Data(b)[p * PAGE + k];
        }
      }
    }
  }

  lemma PagePosition(p: nat, k: nat, size: nat)
    requires k < PAGE && PageAligned(size) && p < size / PAGE
    ensures p * PAGE + k < size && (p * PAGE + k) / PAGE == p && (p * PAGE + k) % PAGE == k
  {
  }

  /** The accesses leave the bytes eager restoration would have written. */
  predicate YieldsSnapshot(w: World, id: nat, accesses: seq<Step>)
    requires Valid(w)
  {
    match Run(w, accesses)
    case None => false
    case Some(n) =>
      && id < |n.regions| && w.snapshot.Some?
      && Data(n.regions[id].mem) == Data(w.regions[w.snapshot.value].mem)
  }

  /** Every page of the snapshot is the one its fault installs. */
  ghost predicate PagesMatch(w: World, id: nat)
    requires Valid(w) && ReadyToFill(w, id)
  {
    var snap := w.regions[w.snapshot.value].mem;
    forall p: nat :: p < snap.size / PAGE ==> PageContent(snap, p) == LazyContent(w.regions[id].base, snap, p)
  }

  /** In-bounds reads of one memory that touch each of its pages, in any order. */
  ghost predicate ReadsEveryPage(w: World, id: nat, accesses: seq<Step>)
    requires Valid(w) && ReadyToFill(w, id)
  {
    && Reads(id, w.regions[id].mem.size, accesses)
    && forall p: nat :: p < w.regions[id].mem.size / PAGE ==> Touches(accesses, p)
  }

  /** Reading a lazily restored memory yields what eager restoration would have written
      exactly when every page of the snapshot is the one its fault installs: equal to the
      first page below the snapshot's size as an absolute address, and zeros above it. */
  lemma LazyFillIsEagerExactly(w: World, id: nat, accesses: seq<Step>)
    requires Valid(w) && ReadyToFill(w, id) && ReadsEveryPage(w, id, accesses)
    ensures Run(w, accesses).Some?
    ensures YieldsSnapshot(w, id, accesses) <==> PagesMatch(w, id)
  {
    hide Valid, Run, Reads, Touches, LazyContent, Inv, Data;
    SnapshotIsWellFormed(w);
    LazyRun(w, id, accesses);
    var n, snap := Run(w, accesses).value, w.regions[w.snapshot.value].mem;
    RegionKeepsMapping(w, id);
    RegionKeepsMapping(n, id);
    InvParts(n.regions[id].mem);
    PagesMakeData(n.regions[id].mem, snap);
  }

  /** A range at or above the snapshot's size is filled with zeros: there lazy and eager
      restoration agree exactly for a snapshot of zeros. */
  lemma HighRangeNeedsZeros(w: World, id: nat, accesses: seq<Step>)
    requires Valid(w) && ReadyToFill(w, id) && ReadsEveryPage(w, id, accesses)
    requires w.regions[id].base >= w.regions[id].mem.size
    ensures YieldsSnapshot(w, id, accesses)
            <==> forall b :: b in Data(w.regions[w.snapshot.value].mem) ==> b == 0
  {
    hide Valid, Run, Reads, Touches, Inv, Data, PageContent, YieldsSnapshot, ReadsEveryPage;
    SnapshotIsWellFormed(w);
    LazyFillIsEagerExactly(w, id, accesses);
    var snap := w.regions[w.snapshot.value].mem;
    RegionKeepsMapping(w, id);
    InvParts(w.regions[id].mem);
    EmptyMemory(snap.size);
    PagesMakeData(snap, Mem(snap.size, {}, map[]));
    AllZeros(Data(snap));
  }

  lemma EmptyMemory(size: nat)
    ensures var m := Mem(size, {}, map[]);
            Data(m) == Zeros(size) && forall p: nat :: PageContent(m, p) == ZeroPage()
  {
  }

  lemma AllZeros(d: seq<Byte>)
    ensures d == Zeros(|d|) <==> forall b :: b in d ==> b == 0
  {
    if d == Zeros(|d|) {
      forall b | b in d ensures b == 0 {
        var i :| 0 <= i < |d| && d[i] == b;
        assert Zeros(|d|)[i] == 0;
      }
    }
    if forall b :: b in d ==> b == 0 {
      forall i | 0 <= i < |d| ensures d[i] == Zeros(|d|)[i] {
        assert d[i] in d;
      }
    }
  }

  /** As written, a fault whose absolute address is below the snapshot's size installs
      the snapshot's first page, whichever page faulted. */
  lemma LowRangeCopiesFirstPage(w: World, id: nat, offset: nat)
    requires Valid(w) && id < |w.regions| && w.regions[id].registered && w.snapshot.Some?
    requires offset < w.regions[id].mem.size && offset / PAGE in w.regions[id].mem.rw
    requires offset / PAGE !in w.regions[id].mem.resident
    ensures var snap := w.regions[w.snapshot.value].mem;
            var a := AlignDown(w.regions[id].base + offset);
            var n := AccessByte(w, id, offset, None).1;
            && Valid(n)
            && PageContent(n.regions[id].mem, offset / PAGE)
               == if a < snap.size then PageContent(snap, 0) else ZeroPage()
  {
    hide Valid, HandleOne;
    InvParts(w.regions[id].mem);
    RegionKeepsMapping(w, id);
    SnapshotIsWellFormed(w);
    OwnerIsJudged(w, id, offset, false);
    AccessKeepsValid(w, id, offset, None);
  }

  // ---- A run in which lazy restoration fails

  lemma RunOneMore(w: World, steps: seq<Step>, step: Step)
    requires Valid(w) && Run(w, steps).Some? && Allowed(Run(w, steps).value, step)
    ensures Run(w, steps + [step]) == Some(Take(Run(w, steps).value, step).1)
  {
    hide Valid, Allowed, Take;
    assert Init(steps + [step]) == steps;
  }

  /** Two memories at usual addresses. */
  function SampleWorld(): World {
    FreshWorld([WMEM_SIZE, 2 * WMEM_SIZE])
  }

  /** The second memory gets one page with a byte that is not zero and becomes the
      snapshot; the first is registered and resized like it. */
  lemma SampleSetup() returns (steps: seq<Step>)
    ensures Valid(SampleWorld()) && Run(SampleWorld(), steps).Some?
    ensures var w := Run(SampleWorld(), steps).value;
            && ReadyToFill(w, 0) && w.regions[0].mem.size == PAGE && w.regions[0].base == WMEM_SIZE
            && 7 in Data(w.regions[w.snapshot.value].mem)
  {
    hide Valid, Run, ByteAt, Data;
    var w0 := SampleWorld();
    FreshIsValid([WMEM_SIZE, 2 * WMEM_SIZE]);
    assert Run(w0, []) == Some(w0) by {
      RunNothing(w0);
    }
    steps := [];
    RunOneMore(w0, steps, ResizeTo(1, Wavm, PAGE));
    steps := steps + [ResizeTo(1, Wavm, PAGE)];
    var w1 := Run(w0, steps).value;
    assert 0 in PagesIn(0, PAGE);
    RunOneMore(w0, steps, Access(1, 0, Some(7)));
    steps := steps + [Access(1, 0, Some(7))];
    var w2 := Run(w0, steps).value;
    assert ByteAt(w2.regions[1].mem, 0) == 7 by {
      FirstByte(w1.regions[1].mem, 7);
    }
    RunOneMore(w0, steps, SetSnapshot(Some(1)));
    steps := steps + [SetSnapshot(Some(1))];
    RunOneMore(w0, steps, Add(0));
    steps := steps + [Add(0)];
    RunOneMore(w0, steps, ResizeTo(0, Uffd, PAGE));
    steps := steps + [ResizeTo(0, Uffd, PAGE)];
    HoldsItsBytes(w2.regions[1].mem, 0);
  }

  lemma RunNothing(w: World)
    requires Valid(w)
    ensures Run(w, []) == Some(w)
  {
  }

  lemma FirstByte(m: Mem, v: Byte)
    requires WellFormed(m) && 0 in m.rw
    ensures Store(Install(m, 0, ZeroPage()), 0, v).Some?
    ensures ByteAt(Store(Install(m, 0, ZeroPage()), 0, v).value, 0) == v
  {
  }

  lemma HoldsItsBytes(m: Mem, a: nat)
    requires WellFormed(m) && a < m.size
    ensures ByteAt(m, a) in Data(m)
  {
    assert Data(m)[a] == ByteAt(m, a);
  }

  /** A run from fresh memories after which the lazily restored memory differs from its
      snapshot, although every page was read. */
  lemma LazyFillFails() returns (steps: seq<Step>, accesses: seq<Step>)
    ensures Valid(SampleWorld()) && Run(SampleWorld(), steps).Some?
    ensures var w := Run(SampleWorld(), steps).value;
            && ReadyToFill(w, 0) && ReadsEveryPage(w, 0, accesses)
            && Run(w, accesses).Some? && !YieldsSnapshot(w, 0, accesses)
  {
    hide Valid, Run, Data, YieldsSnapshot;
    steps := SampleSetup();
    var w := Run(SampleWorld(), steps).value;
    accesses := [Access(0, 0, None)];
    assert Touches(accesses, 0) by {
      assert accesses[0].offset / PAGE == 0;
    }
    LazyFillIsEagerExactly(w, 0, accesses);
    HighRangeNeedsZeros(w, 0, accesses);
  }

  // ---- The handler object

  lemma FirstCoveringIs(bases: seq<nat>, a: nat, i: nat)
    requires i <= |bases| && (forall j :: 0 <= j < i ==> !CoversAddress(bases[j], a))
    requires i < |bases| ==> CoversAddress(bases[i], a)
    ensures i == FirstCovering(bases, a)
  {
  }

  lemma MappingOfIs(bases: seq<nat>, base: nat, i: nat)
    requires i <= |bases| && (forall j :: 0 <= j < i ==> bases[j] != base)
    requires i < |bases| ==> bases[i] == base
    ensures i == MappingOf(bases, base)
  {
  }

  class Handler {
    var mappings: seq<(nat, WMemory)>
    var snapshot: WMemory?
    var faults: nat

    ghost function MappingBases(): (b: seq<nat>)
      reads this
      ensures |b| == |mappings| && forall i :: 0 <= i < |b| ==> b[i] == mappings[i].0
    {
      seq(|mappings|, i requires 0 <= i < |mappings| reads this => mappings[i].0)
    }

    ghost function SnapshotState(): (m: Option<Mem>)
      reads this, snapshot
    {
      if snapshot == null then None else Some(snapshot.State())
    }

    ghost function SnapshotLimit(): Option<nat>
      reads this, snapshot
    {
      if snapshot == null then None else Some(snapshot.size)
    }

    constructor ()
      ensures mappings == [] && snapshot == null && faults == 0
    {
      mappings, snapshot, faults := [], null, 0;
    }

    method SetSnapshot(m: WMemory?)
      modifies this`snapshot
      ensures snapshot == m
    {
      snapshot := m;
    }

    method Add(m: WMemory)
      modifies this`mappings, m`rw
      ensures mappings == old(mappings) + [(m.base, m)]
      ensures m.State() == Mprotect(old(m.State()), 0, WMEM_SIZE / 2, true)
    {
      mappings := mappings + [(m.base, m)];
      m.rw := m.rw + PagesIn(0, WMEM_SIZE / 2);
    }

    /** False stands for the exception of a memory that is not mapped. */
    method Remove(m: WMemory) returns (found: bool)
      modifies this`mappings
      ensures var i := MappingOf(old(MappingBases()), m.base);
              && (found <==> i < |old(mappings)|)
              && mappings == if found then old(mappings[..i] + mappings[i + 1..]) else old(mappings)
    {
      var i := 0;
      while i < |mappings| && mappings[i].0 != m.base
        invariant i <= |mappings| && forall j :: 0 <= j < i ==> mappings[j].0 != m.base
      {
        i := i + 1;
      }
      found := i < |mappings|;
      MappingOfIs(MappingBases(), m.base, i);
      if found {
        mappings := mappings[..i] + mappings[i + 1..];
      }
    }

    /** One page fault: for a page without a frame or, with wp, for a protected one. The
        last clause says the same of any list of objects, for use with a world. */
    method HandleFault(address: nat, wp: bool, ghost objects: seq<WMemory>) returns (v: Verdict, owner: WMemory?)
      requires snapshot != null ==> WellFormed(snapshot.State())
      modifies this`faults, (set k | 0 <= k < |mappings| :: mappings[k].1)`resident
      ensures var i := FirstCovering(MappingBases(), AlignDown(address));
              && (i == |mappings| ==> v == NoMapping && owner == null)
              && (i < |mappings| ==>
                    && owner == mappings[i].1
                    && v == Judge(owner.base, owner.size, SnapshotLimit(), address, wp))
      ensures faults == old(faults) + if v.Unprotect? || v.CopySnapshot? || v.ZeroFill? then 1 else 0
      ensures v.CopySnapshot? || v.ZeroFill? ==>
                && owner != null && AlignDown(address) >= owner.base
                && owner.State() == Install(old(owner.State()), (AlignDown(address) - owner.base) / PAGE,
                                            FillContent(v, old(SnapshotState())))
      ensures forall k :: 0 <= k < |mappings| && (mappings[k].1 != owner || !(v.CopySnapshot? || v.ZeroFill?))
                ==> mappings[k].1.State() == old(mappings[k].1.State())
      ensures Handled(this, objects, address, wp, v, owner)
    {
      var a := AlignDown(address);
      var i := 0;
      while i < |mappings| && !CoversAddress(mappings[i].0, a)
        invariant i <= |mappings| && forall j :: 0 <= j < i ==> !CoversAddress(mappings[j].0, a)
      {
        i := i + 1;
      }
      FirstCoveringIs(MappingBases(), a, i);
      if i == |mappings| {
        return NoMapping, null;
      }
      owner := mappings[i].1;
      if a < owner.base || a >= owner.base + WMEM_SIZE {
        return WrongMapping, owner;
      }
      if address >= owner.base + owner.size {
        return OutOfBounds, owner;
      }
      faults := faults + 1;
      if wp {
        return Unprotect, owner;
      }
      var page := (a - owner.base) / PAGE;
      if snapshot != null && a < snapshot.size {
        v := CopySnapshot;
        var first := if 0 in snapshot.resident then snapshot.resident[0] else ZeroPage();
        owner.resident := owner.resident[page := first];
      } else {
        v := ZeroFill;
        owner.resident := owner.resident[page := ZeroPage()];
      }
    }
  }

  // ---- The object and the world

  /** The handler names by reference the memories that the world names by number. */
  ghost predicate SameMappings(listed: seq<(nat, WMemory)>, objects: seq<WMemory>, mappings: seq<(nat, nat)>) {
    && |listed| == |mappings|
    && forall k :: 0 <= k < |listed| ==>
         && mappings[k].1 < |objects|
         && listed[k].0 == mappings[k].0 && listed[k].1 == objects[mappings[k].1]
  }

  lemma ErasedMappings(listed: seq<(nat, WMemory)>, objects: seq<WMemory>, mappings: seq<(nat, nat)>, i: nat)
    requires SameMappings(listed, objects, mappings) && i < |listed|
    ensures SameMappings(listed[..i] + listed[i + 1..], objects, mappings[..i] + mappings[i + 1..])
  {
  }

  /** The handler and a list of memory objects are in the state of a world. */
  ghost predicate Represents(h: Handler, objects: seq<WMemory>, w: World)
    reads h, objects
  {
    && |objects| == |w.regions| && h.faults == w.faults && SameMappings(h.mappings, objects, w.mappings)
    && (forall i, j :: 0 <= i < |objects| && 0 <= j < |objects| && i != j ==> objects[i] != objects[j])
    && (forall i :: 0 <= i < |objects| ==>
          objects[i].base == w.regions[i].base && objects[i].State() == w.regions[i].mem)
    && (match w.snapshot
        case None => h.snapshot == null
        case Some(i) => i < |objects| && h.snapshot == objects[i])
  }

  /** What HandleFault promises, for the objects of a world. */
  twostate predicate Handled(h: Handler, objects: seq<WMemory>, address: nat, wp: bool, v: Verdict, owner: WMemory?)
    reads h, objects
  {
    var i := FirstCovering(old(h.MappingBases()), AlignDown(address));
    var fills := v.CopySnapshot? || v.ZeroFill?;
    && h.mappings == old(h.mappings) && h.snapshot == old(h.snapshot)
    && (i == |old(h.mappings)| ==> v == NoMapping && owner == null)
    && (i < |old(h.mappings)| ==>
          && owner == old(h.mappings[i].1)
          && v == Judge(owner.base, old(owner.size), old(h.SnapshotLimit()), address, wp))
    && h.faults == old(h.faults) + (if v.Unprotect? || fills then 1 else 0)
    && (fills && owner in objects ==>
          && AlignDown(address) >= owner.base
          && (old(h.SnapshotState()).Some? ==> WellFormed(old(h.SnapshotState()).value))
          && owner.State() == Install(old(owner.State()), (AlignDown(address) - owner.base) / PAGE,
                                      FillContent(v, old(h.SnapshotState()))))
    && forall o :: o in objects && (o != owner || !fills) ==> o.State() == old(o.State())
  }

  /** In a valid world the object's handler answers a fault as the step of the world does,
      and leaves the objects in the state of the world's next state. */
  twostate lemma HandlesAsWorld(h: Handler, objects: seq<WMemory>, w: World, address: nat, wp: bool,
                                v: Verdict, owner: WMemory?)
    requires old(Represents(h, objects, w)) && Valid(w) && Handled(h, objects, address, wp, v, owner)
    ensures v == HandleOne(w, address, wp).0 && Represents(h, objects, HandleOne(w, address, wp).1)
  {
    hide Separated, RegionsOk, SumOf, Judge, FillContent, Install;
    assert old(h.MappingBases()) == Bases(w.mappings);
    var i := FirstCovering(Bases(w.mappings), AlignDown(address));
    if i < |w.mappings| {
      var id, n := w.mappings[i].1, HandleOne(w, address, wp).1;
      assert MappingOk(w, w.mappings[i]) && objects[id] in objects && owner == objects[id];
      assert old(h.SnapshotState()) == SnapshotMem(w) && old(h.SnapshotLimit()) == SnapshotSize(w);
      forall j | 0 <= j < |objects|
        ensures objects[j].base == n.regions[j].base && objects[j].State() == n.regions[j].mem
      {
        assert objects[j] in objects;
        assert j != id ==> objects[j] != owner;
      }
    } else {
      forall j | 0 <= j < |objects| ensures objects[j].State() == w.regions[j].mem {
        assert objects[j] in objects;
      }
    }
  }

  /** Registering an object is the world's step. */
  twostate lemma AddsAsWorld(h: Handler, objects: seq<WMemory>, w: World, id: nat)
    requires old(Represents(h, objects, w)) && Valid(w) && id < |objects|
    requires h.mappings == old(h.mappings) + [(objects[id].base, objects[id])]
    requires h.snapshot == old(h.snapshot) && h.faults == old(h.faults)
    requires objects[id].State() == Mprotect(old(objects[id].State()), 0, WMEM_SIZE / 2, true)
    requires forall i :: 0 <= i < |objects| && i != id ==> objects[i].State() == old(objects[i].State())
    ensures Represents(h, objects, Take(w, Add(id)).1)
  {
    hide Valid, Mprotect;
  }

  /** Removing an object is the world's step. */
  twostate lemma RemovesAsWorld(h: Handler, objects: seq<WMemory>, w: World, id: nat, found: bool)
    requires old(Represents(h, objects, w)) && Valid(w) && id < |objects|
    requires var i := MappingOf(old(h.MappingBases()), objects[id].base);
             && (found <==> i < |old(h.mappings)|)
             && h.mappings == if found then old(h.mappings[..i] + h.mappings[i + 1..]) else old(h.mappings)
    requires h.snapshot == old(h.snapshot) && h.faults == old(h.faults)
    requires forall i :: 0 <= i < |objects| ==> objects[i].State() == old(objects[i].State())
    ensures Represents(h, objects, Take(w, Remove(id)).1) && found == Take(w, Remove(id)).0.Done?
  {
    hide Valid, MappingOf, Take, SameMappings, WMemory.State;
    assert old(h.MappingBases()) == Bases(w.mappings) by {
      SameBases(old(h.mappings), objects, w.mappings, old(h.MappingBases()));
    }
    RemoveOutcome(w, id);
    if found {
      ErasedMappings(old(h.mappings), objects, w.mappings, MappingOf(Bases(w.mappings), w.regions[id].base));
    }
  }

  lemma SameBases(listed: seq<(nat, WMemory)>, objects: seq<WMemory>, mappings: seq<(nat, nat)>, bases: seq<nat>)
    requires SameMappings(listed, objects, mappings)
    requires |bases| == |listed| && forall i :: 0 <= i < |bases| ==> bases[i] == listed[i].0
    ensures bases == Bases(mappings)
  {
  }

  lemma RemoveOutcome(w: World, id: nat)
    requires Valid(w) && id < |w.regions|
    ensures var (i, (response, n)) := (MappingOf(Bases(w.mappings), w.regions[id].base), Take(w, Remove(id)));
            && (response.Done? <==> i < |w.mappings|)
            && n.mappings == (if i < |w.mappings| then w.mappings[..i] + w.mappings[i + 1..] else w.mappings)
            && n.regions == w.regions[id := w.regions[id].(registered := false)]
            && n.snapshot == w.snapshot && n.faults == w.faults
  {
    hide Valid;
  }
}
