/**
 The checked-in assembly of the parallel copy (memspeed/dpubin/wramcopy.s, built
 for four tasklets) as a register machine, and the proof that it refines the C
 loop: every instruction of every tasklet, under any interleaving, corresponds to
 zero, one or two steps of the transition system of the C code, and the target
 buffer is the same before and after.
 */
module WramAsm {
  import opened Wrappers
  import opened WramCopy

  // ---- The machine

  datatype Reg = R0 | R1 | R2 | R3 | R4 | R5 | R6 | R7 | R8

  datatype Sym = BufferA | BufferB | RunRepetitions | CopyWordsAmount

  /** What a move can copy: a register, an immediate, a symbol's address, the
      tasklet id, or four times the tasklet id. */
  datatype Operand = Const(n: nat) | Address(sym: Sym) | Id | Id4 | Of(reg: Reg)

  datatype Instr =
    | Lw(rd: Reg, sym: Sym)
    | LwIndexed(rd: Reg, ra: Reg, sym: Sym)
    | SwIndexed(ra: Reg, sym: Sym, rs: Reg)
    | Move(rd: Reg, from: Operand)
    | LslAdd(rd: Reg, ra: Reg, rb: Reg, shift: nat)
    | Add(rd: Reg, ra: Reg, operand: Operand)
    | Jump(target: nat)
    | Jeq(ra: Reg, n: nat, target: nat)
    | Jgeu(ra: Reg, rb: Reg, target: nat)
    | Jges(ra: Reg, rb: Reg, target: nat)
    | Jltu(ra: Reg, rb: Reg, target: nat)
    | Return

  const LBB0_5: nat := 10
  const LBB0_2: nat := 12
  const LBB0_4: nat := 14
  const LBB0_6: nat := 20

  /** The function main, instruction by instruction. */
  function Fetch(pc: nat): Instr {
    match pc
    case 0 => Lw(R0, RunRepetitions)
    case 1 => Jeq(R0, 0, LBB0_6)
    case 2 => Lw(R1, CopyWordsAmount)
    case 3 => Move(R2, Id)
    case 4 => Move(R3, Id4)
    case 5 => Move(R4, Address(BufferA))
    case 6 => LslAdd(R4, R4, R1, 2)
    case 7 => Move(R5, Const(0))
    case 8 => Move(R8, Address(BufferA))
    case 9 => Jump(LBB0_2)
    case 10 => Add(R5, R5, Const(1))
    case 11 => Jgeu(R5, R0, LBB0_6)
    case 12 => Jges(R2, R1, LBB0_5)
    case 13 => Move(R6, Of(R3))
    case 14 => LwIndexed(R7, R6, BufferA)
    case 15 => SwIndexed(R6, BufferB, R7)
    case 16 => Add(R6, R6, Const(16))
    case 17 => Add(R7, R8, Of(R6))
    case 18 => Jltu(R7, R4, LBB0_4)
    case 19 => Jump(LBB0_5)
    case 20 => Move(R0, Const(0))
    case _ => Return
  }

  datatype Regs = Regs(r0: nat, r1: nat, r2: nat, r3: nat, r4: nat, r5: nat, r6: nat, r7: nat, r8: nat)

  function Get(regs: Regs, r: Reg): nat {
    match r
    case R0 => regs.r0
    case R1 => regs.r1
    case R2 => regs.r2
    case R3 => regs.r3
    case R4 => regs.r4
    case R5 => regs.r5
    case R6 => regs.r6
    case R7 => regs.r7
    case R8 => regs.r8
  }

  function Set(regs: Regs, r: Reg, v: nat): Regs {
    match r
    case R0 => regs.(r0 := v)
    case R1 => regs.(r1 := v)
    case R2 => regs.(r2 := v)
    case R3 => regs.(r3 := v)
    case R4 => regs.(r4 := v)
    case R5 => regs.(r5 := v)
    case R6 => regs.(r6 := v)
    case R7 => regs.(r7 := v)
    case R8 => regs.(r8 := v)
  }

  datatype Cpu = Cpu(pc: nat, regs: Regs, halted: bool)

  /** Where the linker placed the symbols. */
  datatype Layout = Layout(bufferA: nat, bufferB: nat, runRepetitions: nat, copyWordsAmount: nat)

  function AddressOf(layout: Layout, sym: Sym): nat {
    match sym
    case BufferA => layout.bufferA
    case BufferB => layout.bufferB
    case RunRepetitions => layout.runRepetitions
    case CopyWordsAmount => layout.copyWordsAmount
  }

  function Wrap32(x: nat): nat {
    x % 0x1_0000_0000
  }

  function Signed32(x: nat): int {
    if x < 0x8000_0000 then x else x - 0x1_0000_0000
  }

  function Value(layout: Layout, id: nat, regs: Regs, operand: Operand): nat {
    match operand
    case Const(n) => n
    case Address(sym) => AddressOf(layout, sym)
    case Id => id
    case Id4 => 4 * id
    case Of(reg) => Get(regs, reg)
  }

  /** The shared memory, one 32-bit word at each mapped byte address. */
  type Memory = map<nat, nat>

  /** One instruction of one tasklet; None stands for an access to an address
      that holds no word. */
  function StepCpu(layout: Layout, id: nat, cpu: Cpu, mem: Memory): Option<(Cpu, Memory)> {
    var regs, next := cpu.regs, cpu.pc + 1;
    if cpu.halted then Some((cpu, mem))
    else
      match Fetch(cpu.pc)
      case Lw(rd, sym) =>
        var at := AddressOf(layout, sym);
        if at !in mem then None else Some((Cpu(next, Set(regs, rd, mem[at]), false), mem))
      case LwIndexed(rd, ra, sym) =>
        var at := Wrap32(Get(regs, ra) + AddressOf(layout, sym));
        if at !in mem then None else Some((Cpu(next, Set(regs, rd, mem[at]), false), mem))
      case SwIndexed(ra, sym, rs) =>
        var at := Wrap32(Get(regs, ra) + AddressOf(layout, sym));
        if at !in mem then None else Some((Cpu(next, regs, false), mem[at := Get(regs, rs)]))
      case Move(rd, from) =>
        Some((Cpu(next, Set(regs, rd, Value(layout, id, regs, from)), false), mem))
      case LslAdd(rd, ra, rb, shift) =>
        Some((Cpu(next, Set(regs, rd, Wrap32(Get(regs, ra) + Wrap32(Get(regs, rb) * Pow2(shift)))), false), mem))
      case Add(rd, ra, operand) =>
        Some((Cpu(next, Set(regs, rd, Wrap32(Get(regs, ra) + Value(layout, id, regs, operand))), false), mem))
      case Jump(target) =>
        Some((Cpu(target, regs, false), mem))
      case Jeq(ra, n, target) =>
        Some((Cpu(if Get(regs, ra) == n then target else next, regs, false), mem))
      case Jgeu(ra, rb, target) =>
        Some((Cpu(if Get(regs, ra) >= Get(regs, rb) then target else next, regs, false), mem))
      case Jges(ra, rb, target) =>
        Some((Cpu(if Signed32(Get(regs, ra)) >= Signed32(Get(regs, rb)) then target else next, regs, false), mem))
      case Jltu(ra, rb, target) =>
        Some((Cpu(if Get(regs, ra) < Get(regs, rb) then target else next, regs, false), mem))
      case Return =>
        Some((cpu.(halted := true), mem))
  }

  // ---- Memory contents

  predicate Apart(a: nat, sizeA: nat, b: nat, sizeB: nat) {
    a + sizeA <= b || b + sizeB <= a
  }

  const BUFFER_BYTES: nat := 24576

  /** The two buffers and the two parameters lie apart, at word boundaries, low
      enough that no address computation wraps. */
  predicate ValidLayout(layout: Layout) {
    && layout.bufferA % 4 == 0 && layout.bufferB % 4 == 0
    && layout.runRepetitions % 4 == 0 && layout.copyWordsAmount % 4 == 0
    && layout.bufferA + BUFFER_BYTES + 16 <= 0x1_0000_0000
    && layout.bufferB + BUFFER_BYTES <= 0x1_0000_0000
    && Apart(layout.bufferA, BUFFER_BYTES, layout.bufferB, BUFFER_BYTES)
    && Apart(layout.runRepetitions, 4, layout.bufferB, BUFFER_BYTES)
    && Apart(layout.copyWordsAmount, 4, layout.bufferB, BUFFER_BYTES)
  }

  predicate ValidParameters(c: Config) {
    c.Valid() && c.tasklets == 4 && c.repetitions < 0x1_0000_0000
  }

  /** The memory holds the parameters, the source buffer and the target buffer b. */
  predicate Holds(layout: Layout, c: Config, mem: Memory, b: seq<nat>)
    requires c.Valid() && |b| == BUFFER_WORDS
  {
    && layout.runRepetitions in mem && mem[layout.runRepetitions] == c.repetitions
    && layout.copyWordsAmount in mem && mem[layout.copyWordsAmount] == c.words
    && (forall i :: 0 <= i < BUFFER_WORDS ==>
          layout.bufferA + 4 * i in mem && mem[layout.bufferA + 4 * i] == c.source[i])
    && (forall i :: 0 <= i < BUFFER_WORDS ==>
          layout.bufferB + 4 * i in mem && mem[layout.bufferB + 4 * i] == b[i])
  }

  // ---- One tasklet

  /** What the registers of tasklet id hold at each program point. */
  predicate CpuInv(layout: Layout, c: Config, id: nat, cpu: Cpu)
    requires c.Valid()
  {
    var r, pc := cpu.regs, cpu.pc;
    && pc <= 21
    && (cpu.halted ==> pc == 21)
    && (1 <= pc < 20 ==> r.r0 == c.repetitions)
    && (2 <= pc < 20 ==> c.repetitions > 0)
    && (3 <= pc < 20 ==> r.r1 == c.words)
    && (4 <= pc < 20 ==> r.r2 == id)
    && (5 <= pc < 20 ==> r.r3 == 4 * id)
    && (pc == 6 ==> r.r4 == layout.bufferA)
    && (7 <= pc < 20 ==> r.r4 == layout.bufferA + 4 * c.words)
    && (8 <= pc < 10 ==> r.r5 == 0)
    && (9 <= pc < 20 ==> r.r8 == layout.bufferA)
    && (pc == 10 || 12 <= pc < 20 ==> r.r5 < c.repetitions)
    && (pc == 11 ==> r.r5 <= c.repetitions)
    && (pc == 13 ==> id < c.words)
    && (14 <= pc < 17 ==> r.r6 % 4 == 0 && r.r6 / 4 < c.words)
    && (17 <= pc < 20 ==> r.r6 % 4 == 0 && r.r6 / 4 < c.words + 4)
    && (pc == 15 ==> r.r7 == c.source[r.r6 / 4])
    && (pc == 18 ==> r.r7 == layout.bufferA + r.r6)
    && (pc == 19 ==> r.r6 / 4 >= c.words)
  }

  /** Where the C code of the tasklet is when the machine is at an instruction. */
  function Abs(c: Config, cpu: Cpu): Local {
    var r, pc := cpu.regs, cpu.pc;
    if pc < 10 then Outer(0)
    else if pc == 10 then Outer(r.r5 + 1)
    else if pc <= 12 then Outer(r.r5)
    else if pc == 13 then Inner(r.r5, r.r3 / 4)
    else if pc == 14 then Inner(r.r5, r.r6 / 4)
    else if pc == 15 then Loaded(r.r5, r.r6 / 4, r.r7)
    else if pc == 16 then Inner(r.r5, r.r6 / 4 + 4)
    else if pc < 20 then Inner(r.r5, r.r6 / 4)
    else Halted
  }

  /** How many steps of the C code an instruction stands for. */
  function CSteps(c: Config, cpu: Cpu): nat {
    match cpu.pc
    case 1 => if c.repetitions == 0 then 1 else 0
    case 11 => if cpu.regs.r5 >= c.repetitions then 1 else 0
    case 12 => if cpu.regs.r2 >= c.words then 2 else 1
    case 14 => 1
    case 15 => 1
    case 19 => 1
    case _ => 0
  }

  function StepsLocal(c: Config, me: nat, l: Local, n: nat): Local
    requires c.Valid()
    decreases n
  {
    if n == 0 then l else StepsLocal(c, me, StepLocal(c, me, l), n - 1)
  }

  /** The result of an instruction, given that it does not trap. */
  predicate Refines(layout: Layout, c: Config, id: nat, cpu: Cpu, mem: Memory, b: seq<nat>)
    requires c.Valid() && |b| == BUFFER_WORDS
  {
    var step, l := StepCpu(layout, id, cpu, mem), Abs(c, cpu);
    && step.Some?
    && CpuInv(layout, c, id, step.value.0)
    && Abs(c, step.value.0) == StepsLocal(c, id, l, CSteps(c, cpu))
    && (cpu.pc == 15 ==> l.Loaded? && l.pos < c.words)
    && (cpu.pc != 15 ==> step.value.1 == mem)
    && (cpu.pc == 15 ==> step.value.1 == mem[layout.bufferB + 4 * l.pos := l.value])
  }

  /** The situation of one instruction of tasklet id. */
  predicate Running(layout: Layout, c: Config, id: nat, cpu: Cpu, mem: Memory, b: seq<nat>) {
    && ValidLayout(layout) && ValidParameters(c) && id < 4 && |b| == BUFFER_WORDS
    && Holds(layout, c, mem, b) && CpuInv(layout, c, id, cpu)
  }

  lemma StepsLocalParts(c: Config, t: nat, l: Local)
    requires c.Valid()
    ensures StepsLocal(c, t, l, 0) == l
    ensures StepsLocal(c, t, l, 1) == StepLocal(c, t, l)
    ensures StepsLocal(c, t, l, 2) == StepLocal(c, t, StepLocal(c, t, l))
  {
    hide StepLocal;
    assert StepsLocal(c, t, l, 1) == StepsLocal(c, t, StepLocal(c, t, l), 0);
    assert StepsLocal(c, t, l, 2) == StepsLocal(c, t, StepLocal(c, t, l), 1);
  }

  lemma EntryRefines(layout: Layout, c: Config, id: nat, cpu: Cpu, mem: Memory, b: seq<nat>)
    requires Running(layout, c, id, cpu, mem, b) && cpu.pc < 5
    ensures Refines(layout, c, id, cpu, mem, b)
  {
  }

  lemma AddressRefines(layout: Layout, c: Config, id: nat, cpu: Cpu, mem: Memory, b: seq<nat>)
    requires Running(layout, c, id, cpu, mem, b) && 5 <= cpu.pc < 7
    ensures Refines(layout, c, id, cpu, mem, b)
  {
    hide Holds, Wrap32, Pow2;
    EndOfSource(layout.bufferA, c.words);
  }

  lemma EndOfSource(base: nat, words: nat)
    requires base + BUFFER_BYTES < 0x1_0000_0000 && words <= BUFFER_WORDS
    ensures Wrap32(base + Wrap32(words * Pow2(2))) == base + 4 * words
  {
    assert Pow2(2) == 4;
  }

  lemma SetupRefines(layout: Layout, c: Config, id: nat, cpu: Cpu, mem: Memory, b: seq<nat>)
    requires Running(layout, c, id, cpu, mem, b) && 7 <= cpu.pc < 10
    ensures Refines(layout, c, id, cpu, mem, b)
  {
    hide Holds;
  }

  lemma OuterLoopRefines(layout: Layout, c: Config, id: nat, cpu: Cpu, mem: Memory, b: seq<nat>)
    requires Running(layout, c, id, cpu, mem, b) && 10 <= cpu.pc < 12
    ensures Refines(layout, c, id, cpu, mem, b)
  {
    hide Holds, StepsLocal;
    StepsLocalParts(c, id, Abs(c, cpu));
  }

  lemma OuterTestRefines(layout: Layout, c: Config, id: nat, cpu: Cpu, mem: Memory, b: seq<nat>)
    requires Running(layout, c, id, cpu, mem, b) && 12 <= cpu.pc < 14
    ensures Refines(layout, c, id, cpu, mem, b)
  {
    hide Holds, StepsLocal, Wrap32;
    StepsLocalParts(c, id, Abs(c, cpu));
  }

  lemma ExitRefines(layout: Layout, c: Config, id: nat, cpu: Cpu, mem: Memory, b: seq<nat>)
    requires Running(layout, c, id, cpu, mem, b) && cpu.pc >= 19
    ensures Refines(layout, c, id, cpu, mem, b)
  {
    hide Holds, StepsLocal, Wrap32;
    StepsLocalParts(c, id, Abs(c, cpu));
  }

  lemma LoadStoreRefines(layout: Layout, c: Config, id: nat, cpu: Cpu, mem: Memory, b: seq<nat>)
    requires Running(layout, c, id, cpu, mem, b) && 14 <= cpu.pc < 16
    ensures Refines(layout, c, id, cpu, mem, b)
  {
    var i := cpu.regs.r6 / 4;
    assert cpu.regs.r6 == 4 * i;
    assert layout.bufferA + 4 * i in mem && layout.bufferB + 4 * i in mem;
  }

  lemma AdvanceRefines(layout: Layout, c: Config, id: nat, cpu: Cpu, mem: Memory, b: seq<nat>)
    requires Running(layout, c, id, cpu, mem, b) && 16 <= cpu.pc < 18
    ensures Refines(layout, c, id, cpu, mem, b)
  {
    hide Holds, Wrap32;
    NextWord(cpu.regs.r6);
    NoWrap(layout.bufferA, cpu.regs.r6);
  }

  lemma NextWord(offset: nat)
    requires offset % 4 == 0
    ensures offset / 4 < BUFFER_WORDS ==> Wrap32(offset + 16) == offset + 16
    ensures (offset + 16) % 4 == 0 && (offset + 16) / 4 == offset / 4 + 4
    ensures offset / 4 < BUFFER_WORDS + 4 ==> offset < BUFFER_BYTES + 16
  {
  }

  lemma NoWrap(base: nat, offset: nat)
    ensures base + offset < 0x1_0000_0000 ==> Wrap32(base + offset) == base + offset
  {
  }

  lemma InnerTestRefines(layout: Layout, c: Config, id: nat, cpu: Cpu, mem: Memory, b: seq<nat>)
    requires Running(layout, c, id, cpu, mem, b) && cpu.pc == 18
    ensures Refines(layout, c, id, cpu, mem, b)
  {
    hide Holds;
    assert cpu.regs.r6 == 4 * (cpu.regs.r6 / 4);
  }

  /** Translation validation, one instruction at a time: no instruction of the
      function traps, and each stands for its number of steps of the C code. */
  lemma InstructionRefines(layout: Layout, c: Config, id: nat, cpu: Cpu, mem: Memory, b: seq<nat>)
    requires Running(layout, c, id, cpu, mem, b)
    ensures Refines(layout, c, id, cpu, mem, b)
  {
    hide Refines, CpuInv;
    assert cpu.pc <= 21 by {
      CounterInRange(layout, c, id, cpu);
    }
    if cpu.pc < 5 {
      EntryRefines(layout, c, id, cpu, mem, b);
    } else if cpu.pc < 7 {
      AddressRefines(layout, c, id, cpu, mem, b);
    } else if cpu.pc < 10 {
      SetupRefines(layout, c, id, cpu, mem, b);
    } else if 14 <= cpu.pc < 16 {
      LoadStoreRefines(layout, c, id, cpu, mem, b);
    } else if 16 <= cpu.pc < 18 {
      AdvanceRefines(layout, c, id, cpu, mem, b);
    } else if cpu.pc == 18 {
      InnerTestRefines(layout, c, id, cpu, mem, b);
    } else if cpu.pc >= 19 {
      ExitRefines(layout, c, id, cpu, mem, b);
    } else if cpu.pc >= 12 {
      OuterTestRefines(layout, c, id, cpu, mem, b);
    } else {
      OuterLoopRefines(layout, c, id, cpu, mem, b);
    }
  }

  lemma CounterInRange(layout: Layout, c: Config, id: nat, cpu: Cpu)
    requires c.Valid() && CpuInv(layout, c, id, cpu)
    ensures cpu.pc <= 21
  {
  }

  lemma StoreHolds(layout: Layout, c: Config, mem: Memory, b: seq<nat>, pos: nat, v: nat)
    requires ValidLayout(layout) && c.Valid() && |b| == BUFFER_WORDS && Holds(layout, c, mem, b) && pos < BUFFER_WORDS
    ensures Holds(layout, c, mem[layout.bufferB + 4 * pos := v], b[pos := v])
  {
  }

  // ---- Four tasklets on one memory

  datatype Machine = Machine(cpus: seq<Cpu>, mem: Memory)

  predicate ValidMachine(layout: Layout, c: Config, m: Machine, b: seq<nat>) {
    && ValidLayout(layout) && ValidParameters(c) && |b| == BUFFER_WORDS
    && |m.cpus| == 4 && Holds(layout, c, m.mem, b)
    && forall id :: 0 <= id < 4 ==> CpuInv(layout, c, id, m.cpus[id])
  }

  function StepMachine(layout: Layout, m: Machine, id: nat): Option<Machine>
    requires id < |m.cpus|
  {
    match StepCpu(layout, id, m.cpus[id], m.mem)
    case None => None
    case Some((cpu, mem)) => Some(Machine(m.cpus[id := cpu], mem))
  }

  /** The machine after its tasklets executed instructions in the given order. */
  function RunMachine(layout: Layout, start: Machine, schedule: seq<nat>): (r: Option<Machine>)
    requires forall k :: 0 <= k < |schedule| ==> schedule[k] < |start.cpus|
    ensures r.Some? ==> |r.value.cpus| == |start.cpus|
  {
    if schedule == [] then Some(start)
    else
      match RunMachine(layout, start, Init(schedule))
      case None => None
      case Some(m) => StepMachine(layout, m, Last(schedule))
  }

  /** All tasklets at the entry of main. The registers hold anything. */
  predicate AtEntry(m: Machine) {
    |m.cpus| == 4 && forall id :: 0 <= id < 4 ==> m.cpus[id].pc == 0 && !m.cpus[id].halted
  }

  function Repeat(t: nat, n: nat): seq<nat> {
    if n == 0 then [] else Repeat(t, n - 1) + [t]
  }

  /** The schedule of the C code that corresponds to a schedule of instructions. */
  function CSchedule(layout: Layout, c: Config, start: Machine, schedule: seq<nat>): seq<nat>
    requires forall k :: 0 <= k < |schedule| ==> schedule[k] < |start.cpus|
  {
    if schedule == [] then []
    else
      var front := CSchedule(layout, c, start, Init(schedule));
      match RunMachine(layout, start, Init(schedule))
      case None => front
      case Some(m) => front + Repeat(Last(schedule), CSteps(c, m.cpus[Last(schedule)]))
  }

  predicate InstructionSchedule(schedule: seq<nat>) {
    forall k :: 0 <= k < |schedule| ==> schedule[k] < 4
  }

  /** The machine and the system of the C code agree: same program points, same
      target buffer. */
  predicate Corresponds(layout: Layout, c: Config, m: Machine, s: System) {
    && ValidMachine(layout, c, m, s.b)
    && |s.locals| == 4
    && forall id :: 0 <= id < 4 ==> s.locals[id] == Abs(c, m.cpus[id])
  }

  lemma RunSystemSnoc(c: Config, b: seq<nat>, schedule: seq<nat>, t: nat)
    requires c.Valid() && |b| == BUFFER_WORDS && ValidSchedule(c, schedule) && t < c.tasklets
    ensures ValidSchedule(c, schedule + [t])
    ensures var s, r := RunSystem(c, b, schedule), RunSystem(c, b, schedule + [t]);
            && r.locals == s.locals[t := StepLocal(c, t, s.locals[t])]
            && r.b == StepBuffer(s.locals[t], s.b)
  {
    hide StepLocal, StepBuffer;
    assert Init(schedule + [t]) == schedule;
  }

  lemma RepeatParts(schedule: seq<nat>, t: nat)
    ensures schedule + Repeat(t, 0) == schedule
    ensures schedule + Repeat(t, 1) == schedule + [t]
    ensures schedule + Repeat(t, 2) == schedule + [t] + [t]
  {
    assert Repeat(t, 1) == Repeat(t, 0) + [t] == [t];
    assert Repeat(t, 2) == Repeat(t, 1) + [t] == [t, t];
  }

  /** A few turns of one tasklet that store at most in the first of them. */
  lemma RunSystemRepeat(c: Config, b: seq<nat>, schedule: seq<nat>, t: nat, n: nat)
    requires c.Valid() && |b| == BUFFER_WORDS && ValidSchedule(c, schedule) && t < c.tasklets && n <= 2
    requires n == 2 ==> !StepLocal(c, t, RunSystem(c, b, schedule).locals[t]).Loaded?
    ensures ValidSchedule(c, schedule + Repeat(t, n))
    ensures var s, r := RunSystem(c, b, schedule), RunSystem(c, b, schedule + Repeat(t, n));
            && r.locals == s.locals[t := StepsLocal(c, t, s.locals[t], n)]
            && r.b == if n == 0 then s.b else StepBuffer(s.locals[t], s.b)
  {
    hide RunSystem, StepLocal, StepsLocal, Repeat;
    RepeatParts(schedule, t);
    StepsLocalParts(c, t, RunSystem(c, b, schedule).locals[t]);
    if n > 0 {
      RunSystemSnoc(c, b, schedule, t);
      if n == 2 {
        RunSystemSnoc(c, b, schedule + [t], t);
      }
    }
  }

  /** What a single instruction does to a machine that corresponds to a system. */
  lemma StepCorresponds(layout: Layout, c: Config, b: seq<nat>, cs: seq<nat>, m: Machine, t: nat)
    requires c.Valid() && |b| == BUFFER_WORDS && ValidSchedule(c, cs) && t < 4
    requires Corresponds(layout, c, m, RunSystem(c, b, cs))
    ensures StepMachine(layout, m, t).Some?
    ensures var n := CSteps(c, m.cpus[t]);
            && ValidSchedule(c, cs + Repeat(t, n))
            && Corresponds(layout, c, StepMachine(layout, m, t).value, RunSystem(c, b, cs + Repeat(t, n)))
  {
    hide RunSystem, StepCpu, CpuInv, Holds, ValidLayout, StepLocal, StepsLocal, Repeat, CSteps, Abs;
    var s, cpu := RunSystem(c, b, cs), m.cpus[t];
    var n := CSteps(c, cpu);
    InstructionRefines(layout, c, t, cpu, m.mem, s.b);
    TwoSteps(c, t, cpu);
    RunSystemRepeat(c, b, cs, t, n);
    var step, r := StepCpu(layout, t, cpu, m.mem).value, RunSystem(c, b, cs + Repeat(t, n));
    if cpu.pc == 15 {
      StoreHolds(layout, c, m.mem, s.b, s.locals[t].pos, s.locals[t].value);
    }
    assert Holds(layout, c, step.1, r.b);
    Transfer(layout, c, m, s, t, step.0, step.1, r);
  }

  lemma Transfer(layout: Layout, c: Config, m: Machine, s: System, t: nat, cpu: Cpu, mem: Memory, r: System)
    requires Corresponds(layout, c, m, s) && t < 4
    requires CpuInv(layout, c, t, cpu) && |r.b| == BUFFER_WORDS && Holds(layout, c, mem, r.b)
    requires r.locals == s.locals[t := Abs(c, cpu)]
    ensures Corresponds(layout, c, Machine(m.cpus[t := cpu], mem), r)
  {
    hide CpuInv, Holds, Abs;
  }

  lemma TwoSteps(c: Config, t: nat, cpu: Cpu)
    requires c.Valid()
    ensures CSteps(c, cpu) <= 2
    ensures cpu.pc == 15 ==> CSteps(c, cpu) == 1
    ensures CSteps(c, cpu) == 2 ==> !StepLocal(c, t, Abs(c, cpu)).Loaded?
    ensures CSteps(c, cpu) > 0 && cpu.pc != 15 ==> !Abs(c, cpu).Loaded?
  {
  }

  /** Every run of the assembly, whatever the interleaving of its instructions, is
      a run of the C code: it never traps, and at its end both agree on every
      program point and on the whole target buffer. */
  lemma {:induction false} AssemblyRefinesC(layout: Layout, c: Config, b: seq<nat>, start: Machine, schedule: seq<nat>)
    requires ValidLayout(layout) && ValidParameters(c) && |b| == BUFFER_WORDS
    requires AtEntry(start) && Holds(layout, c, start.mem, b) && InstructionSchedule(schedule)
    ensures var cs, m := CSchedule(layout, c, start, schedule), RunMachine(layout, start, schedule);
            && ValidSchedule(c, cs)
            && m.Some? && Corresponds(layout, c, m.value, RunSystem(c, b, cs))
  {
    hide StepMachine, Holds, ValidLayout, CSteps;
    if schedule != [] {
      AssemblyRefinesC(layout, c, b, start, Init(schedule));
      var m := RunMachine(layout, start, Init(schedule)).value;
      StepCorresponds(layout, c, b, CSchedule(layout, c, start, Init(schedule)), m, Last(schedule));
    }
  }

  // ---- Termination

  /** The instructions a tasklet executes between two steps of the C code. */
  function Rank(cpu: Cpu): nat {
    var pc := cpu.pc;
    if cpu.halted then 0
    else if pc < 10 then 13 - pc
    else if pc <= 12 then 13 - pc
    else if pc == 13 then 2
    else if pc == 14 then 1
    else if pc == 15 then 0
    else if pc <= 18 then 20 - pc
    else if pc == 19 then 1
    else if pc == 20 then 2
    else 1
  }

  function InstructionsLeft(c: Config, id: nat, cpu: Cpu): nat
    requires c.Valid()
  {
    14 * StepsLeft(c, id, Abs(c, cpu)) + Rank(cpu)
  }

  function Budget(c: Config, id: nat): nat
    requires c.Valid()
  {
    14 * StepsLeft(c, id, Outer(0)) + 13
  }

  lemma StepDrops(c: Config, me: nat, l: Local)
    requires c.Valid() && LocalInv(c, me, l)
    ensures l.Halted? <==> StepsLeft(c, me, l) == 0
    ensures !l.Halted? ==> StepsLeft(c, me, StepLocal(c, me, l)) + 1 == StepsLeft(c, me, l)
  {
  }

  /** Where control goes. */
  lemma StepRank(layout: Layout, c: Config, id: nat, cpu: Cpu, mem: Memory, b: seq<nat>)
    requires Running(layout, c, id, cpu, mem, b) && StepCpu(layout, id, cpu, mem).Some? && !cpu.halted
    ensures Rank(StepCpu(layout, id, cpu, mem).value.0) <= 13
    ensures CSteps(c, cpu) == 0 ==> Rank(StepCpu(layout, id, cpu, mem).value.0) < Rank(cpu)
  {
    hide Holds, ValidLayout, Pow2;
  }

  lemma StepsDrop(c: Config, id: nat, l: Local, n: nat)
    requires c.Valid() && id < c.tasklets && LocalInv(c, id, l) && n <= 2
    requires n > 0 ==> !l.Halted?
    requires n == 2 ==> !StepLocal(c, id, l).Halted?
    ensures StepsLeft(c, id, StepsLocal(c, id, l, n)) + n == StepsLeft(c, id, l)
  {
    hide StepLocal, LocalInv, StepsLeft, StepsLocal;
    StepsLocalParts(c, id, l);
    if n > 0 {
      StepDrops(c, id, l);
      if n == 2 {
        LocalStepInv(c, id, l);
        StepDrops(c, id, StepLocal(c, id, l));
      }
    }
  }

  lemma NotHalted(c: Config, id: nat, cpu: Cpu)
    requires c.Valid()
    ensures CSteps(c, cpu) > 0 ==> !Abs(c, cpu).Halted?
    ensures CSteps(c, cpu) == 2 ==> cpu.pc == 12 && Abs(c, cpu).Outer? && cpu.regs.r5 == Abs(c, cpu).rep
    ensures !cpu.halted && Abs(c, cpu).Halted? ==> Rank(cpu) > 0
  {
  }

  lemma StillInner(c: Config, id: nat, l: Local)
    requires c.Valid() && l.Outer? && l.rep < c.repetitions
    ensures !StepLocal(c, id, l).Halted?
  {
  }

  /** Every instruction of a tasklet that has not returned brings its end closer. */
  lemma InstructionCounts(layout: Layout, c: Config, id: nat, cpu: Cpu, mem: Memory, b: seq<nat>)
    requires Running(layout, c, id, cpu, mem, b) && LocalInv(c, id, Abs(c, cpu)) && !cpu.halted
    ensures StepCpu(layout, id, cpu, mem).Some?
    ensures InstructionsLeft(c, id, StepCpu(layout, id, cpu, mem).value.0) < InstructionsLeft(c, id, cpu)
  {
    hide StepCpu, Abs, CSteps, Rank, StepsLeft, StepsLocal, StepLocal, Holds, ValidLayout, LocalInv;
    InstructionRefines(layout, c, id, cpu, mem, b);
    StepRank(layout, c, id, cpu, mem, b);
    TwoSteps(c, id, cpu);
    NotHalted(c, id, cpu);
    if CSteps(c, cpu) == 2 {
      StillInner(c, id, Abs(c, cpu));
    }
    StepsDrop(c, id, Abs(c, cpu), CSteps(c, cpu));
  }

  lemma NothingLeft(c: Config, id: nat, cpu: Cpu)
    requires c.Valid() && LocalInv(c, id, Abs(c, cpu))
    ensures InstructionsLeft(c, id, cpu) == 0 ==> cpu.halted
  {
    hide StepsLeft, Rank, LocalInv;
    StepDrops(c, id, Abs(c, cpu));
    NotHalted(c, id, cpu);
  }

  lemma EntryBudget(c: Config, id: nat, cpu: Cpu)
    requires c.Valid() && cpu.pc == 0 && !cpu.halted
    ensures InstructionsLeft(c, id, cpu) == Budget(c, id)
  {
    hide StepsLeft;
  }

  predicate SoundStart(layout: Layout, c: Config, b: seq<nat>, start: Machine) {
    && ValidLayout(layout) && ValidParameters(c) && |b| == BUFFER_WORDS
    && AtEntry(start) && Holds(layout, c, start.mem, b)
  }

  lemma {:induction false} TurnsUseUpInstructions(layout: Layout, c: Config, b: seq<nat>, start: Machine,
                                                  schedule: seq<nat>, id: nat)
    requires SoundStart(layout, c, b, start) && InstructionSchedule(schedule) && id < 4
    ensures RunMachine(layout, start, schedule).Some?
    ensures var cpu := RunMachine(layout, start, schedule).value.cpus[id];
            cpu.halted || InstructionsLeft(c, id, cpu) + Turns(schedule, id) <= Budget(c, id)
  {
    hide Holds, ValidLayout, InstructionsLeft, Budget, RunSystem, StepCpu, LocalInv;
    AssemblyRefinesC(layout, c, b, start, schedule);
    if schedule == [] {
      EntryBudget(c, id, start.cpus[id]);
    } else {
      var front, t := Init(schedule), Last(schedule);
      TurnsUseUpInstructions(layout, c, b, start, front, id);
      AssemblyRefinesC(layout, c, b, start, front);
      var cs, m := CSchedule(layout, c, start, front), RunMachine(layout, start, front).value;
      if t == id && !m.cpus[id].halted {
        LocalsKeepInv(c, b, cs, id);
        InstructionCounts(layout, c, id, m.cpus[id], m.mem, RunSystem(c, b, cs).b);
      } else if t == id {
        HaltedStays(layout, id, m.cpus[id], m.mem);
      }
    }
  }

  lemma HaltedStays(layout: Layout, id: nat, cpu: Cpu, mem: Memory)
    requires cpu.halted
    ensures StepCpu(layout, id, cpu, mem) == Some((cpu, mem))
  {
  }

  lemma HaltedMeans(layout: Layout, c: Config, id: nat, cpu: Cpu)
    requires c.Valid() && CpuInv(layout, c, id, cpu) && cpu.halted
    ensures Abs(c, cpu).Halted?
  {
  }

  /** The compiled copy is correct: under every schedule that gives each of the
      four tasklets its budget of instructions, the machine never traps, every
      tasklet returns, and memory holds the completed copy of the C code. */
  lemma AssemblyCopies(layout: Layout, c: Config, b: seq<nat>, start: Machine, schedule: seq<nat>)
    requires SoundStart(layout, c, b, start) && InstructionSchedule(schedule)
    requires forall id :: 0 <= id < 4 ==> Turns(schedule, id) >= Budget(c, id)
    ensures RunMachine(layout, start, schedule).Some?
    ensures var m := RunMachine(layout, start, schedule).value;
            && (forall id :: 0 <= id < 4 ==> m.cpus[id].halted)
            && Holds(layout, c, m.mem, Copied(c, b))
    ensures var m := RunMachine(layout, start, schedule).value;
            forall i :: 0 <= i < BUFFER_WORDS ==>
              layout.bufferB + 4 * i in m.mem
              && m.mem[layout.bufferB + 4 * i] == if c.repetitions > 0 && i < c.words then c.source[i] else b[i]
  {
    hide ValidLayout, InstructionsLeft, Budget, RunSystem, LocalInv, Abs, CpuInv, Copied, RunMachine, CSchedule;
    AssemblyRefinesC(layout, c, b, start, schedule);
    var cs, m := CSchedule(layout, c, start, schedule), RunMachine(layout, start, schedule).value;
    forall id | 0 <= id < 4 ensures m.cpus[id].halted && RunSystem(c, b, cs).locals[id].Halted? {
      TurnsUseUpInstructions(layout, c, b, start, schedule, id);
      LocalsKeepInv(c, b, cs, id);
      NothingLeft(c, id, m.cpus[id]);
      HaltedMeans(layout, c, id, m.cpus[id]);
    }
    CopyIsComplete(c, b, cs);
  }

  /** One tasklet on its own leaves in memory what the C function leaves. */
  lemma AssemblyOfOneTasklet(layout: Layout, c: Config, b: seq<nat>, start: Machine, schedule: seq<nat>, me: nat)
    requires SoundStart(layout, c, b, start) && InstructionSchedule(schedule) && me < 4
    requires Turns(schedule, me) >= Budget(c, me)
    requires forall id :: 0 <= id < 4 && id != me ==> Turns(schedule, id) == 0
    ensures RunMachine(layout, start, schedule).Some?
    ensures var m, cs := RunMachine(layout, start, schedule).value, CSchedule(layout, c, start, schedule);
            && m.cpus[me].halted && ValidSchedule(c, cs)
            && Holds(layout, c, m.mem, RunSystem(c, b, cs).b)
            && TaskletDone(c, me, b, RunSystem(c, b, cs).b)
  {
    hide Holds, ValidLayout, InstructionsLeft, Budget, RunSystem, LocalInv, CpuInv, RunMachine, CSchedule;
    AssemblyRefinesC(layout, c, b, start, schedule);
    var cs, m := CSchedule(layout, c, start, schedule), RunMachine(layout, start, schedule).value;
    TurnsUseUpInstructions(layout, c, b, start, schedule, me);
    LocalsKeepInv(c, b, cs, me);
    NothingLeft(c, me, m.cpus[me]);
    HaltedMeans(layout, c, me, m.cpus[me]);
    forall index | 0 <= index < BUFFER_WORDS
      ensures RunSystem(c, b, cs).b[index]
              == if c.repetitions > 0 && index < c.words && Owns(c, me, index) then c.source[index] else b[index]
    {
      IndexKeepsInv(c, b, cs, index);
      if index % 4 != me {
        UntouchedStays(layout, start, schedule, index % 4);
      }
    }
  }

  lemma {:induction false} UntouchedStays(layout: Layout, start: Machine, schedule: seq<nat>, id: nat)
    requires |start.cpus| == 4 && InstructionSchedule(schedule) && id < 4 && Turns(schedule, id) == 0
    requires RunMachine(layout, start, schedule).Some?
    ensures RunMachine(layout, start, schedule).value.cpus[id] == start.cpus[id]
  {
    hide StepCpu;
    if schedule != [] {
      UntouchedStays(layout, start, Init(schedule), id);
    }
  }
}
