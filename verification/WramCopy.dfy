/**
 The parallel copy of the DPU benchmark (memspeed/dpusrc/wramcopy.c): T tasklets
 copy one word buffer to another, tasklet t taking the words t, t + T, t + 2T and
 so on, and all of them repeat the copy a given number of times.

 The tasklets are a transition system whose steps (test, load, store) interleave
 in any order; the C function of one tasklet is also given as a method.
 */
module WramCopy {
  import opened Arithmetic
  import opened Wrappers

  const BUFFER_WORDS: nat := 6144

  datatype Config = Config(source: seq<nat>, words: nat, repetitions: nat, tasklets: nat) {
    predicate Valid() {
      |source| == BUFFER_WORDS && words <= BUFFER_WORDS && tasklets >= 1
    }
  }

  /** Where one tasklet is in its two loops. */
  datatype Local =
    | Outer(rep: nat)
    | Inner(rep: nat, pos: nat)
    | Loaded(rep: nat, pos: nat, value: nat)
    | Halted

  predicate InBounds(c: Config, l: Local) {
    l.Loaded? ==> l.pos < c.words
  }

  function StepLocal(c: Config, me: nat, l: Local): Local
    requires c.Valid()
  {
    match l
    case Outer(rep) => if rep < c.repetitions then Inner(rep, me) else Halted
    case Inner(rep, pos) => if pos < c.words then Loaded(rep, pos, c.source[pos]) else Outer(rep + 1)
    case Loaded(rep, pos, value) => Inner(rep, pos + c.tasklets)
    case Halted => Halted
  }

  /** The only effect of a step on the target buffer. */
  function StepBuffer(l: Local, b: seq<nat>): seq<nat>
    requires l.Loaded? ==> l.pos < |b|
  {
    if l.Loaded? then b[l.pos := l.value] else b
  }

  // ---- All tasklets together

  datatype Write = Write(tasklet: nat, index: nat)

  /** The tasklets, the target buffer, and the history of stores. */
  datatype System = System(locals: seq<Local>, b: seq<nat>, history: seq<Write>)

  predicate ValidSystem(c: Config, s: System) {
    && c.Valid()
    && |s.locals| == c.tasklets && |s.b| == BUFFER_WORDS
    && forall t :: 0 <= t < c.tasklets ==> InBounds(c, s.locals[t])
  }

  function StartSystem(c: Config, b: seq<nat>): System {
    System(seq(c.tasklets, t => Outer(0)), b, [])
  }

  function StepSystem(c: Config, s: System, t: nat): (r: System)
    requires ValidSystem(c, s) && t < c.tasklets
    ensures ValidSystem(c, r)
  {
    var l := s.locals[t];
    System(s.locals[t := StepLocal(c, t, l)], StepBuffer(l, s.b),
           if l.Loaded? then s.history + [Write(t, l.pos)] else s.history)
  }

  predicate ValidSchedule(c: Config, schedule: seq<nat>) {
    forall k :: 0 <= k < |schedule| ==> schedule[k] < c.tasklets
  }

  /** The system after the tasklets ran in the order of the schedule. */
  function RunSystem(c: Config, b: seq<nat>, schedule: seq<nat>): (s: System)
    requires c.Valid() && |b| == BUFFER_WORDS && ValidSchedule(c, schedule)
    ensures ValidSystem(c, s)
  {
    if schedule == [] then StartSystem(c, b)
    else StepSystem(c, RunSystem(c, b, Init(schedule)), Last(schedule))
  }

  // ---- Ownership

  predicate Owns(c: Config, t: nat, index: nat)
    requires c.Valid()
  {
    index % c.tasklets == t
  }

  /** How often a tasklet has stored to an index it owns. */
  function Passes(c: Config, l: Local, index: nat): nat {
    match l
    case Outer(rep) => rep
    case Inner(rep, pos) => rep + if index < pos then 1 else 0
    case Loaded(rep, pos, _) => rep + if index < pos then 1 else 0
    case Halted => c.repetitions
  }

  predicate LocalInv(c: Config, t: nat, l: Local)
    requires c.Valid()
  {
    match l
    case Outer(rep) => rep <= c.repetitions
    case Inner(rep, pos) => rep < c.repetitions && Owns(c, t, pos)
    case Loaded(rep, pos, value) => rep < c.repetitions && Owns(c, t, pos) && pos < c.words && value == c.source[pos]
    case Halted => true
  }

  function WriteCount(history: seq<Write>, index: nat): nat {
    if history == [] then 0 else WriteCount(Init(history), index) + if Last(history).index == index then 1 else 0
  }

  lemma OwnsNext(c: Config, t: nat, pos: nat, index: nat)
    requires c.Valid() && Owns(c, t, pos)
    ensures Owns(c, t, pos + c.tasklets)
    ensures Owns(c, t, index) && pos <= index < pos + c.tasklets ==> index == pos
  {
    var n := c.tasklets;
    RemainderShift(pos, n, 1);
    if Owns(c, t, index) && pos <= index < pos + n {
      var d := index / n - pos / n;
      assert index == n * (index / n) + t && pos == n * (pos / n) + t;
      assert index - pos == n * d by {
        Distribute(index / n, -(pos / n), n);
      }
      MultipleBelow(n, d);
    }
  }

  // ---- What every interleaving keeps

  /** One index of the target buffer: it holds the source word exactly if its
      owner has stored to it, and it was stored to as often as the owner passed. */
  predicate IndexInv(c: Config, b0: seq<nat>, s: System, index: nat)
    requires ValidSystem(c, s) && |b0| == BUFFER_WORDS && index < BUFFER_WORDS
  {
    if index < c.words then
      var passes := Passes(c, s.locals[index % c.tasklets], index);
      && WriteCount(s.history, index) == passes
      && s.b[index] == if passes > 0 then c.source[index] else b0[index]
    else
      WriteCount(s.history, index) == 0 && s.b[index] == b0[index]
  }

  lemma {:induction false} LocalsKeepInv(c: Config, b: seq<nat>, schedule: seq<nat>, t: nat)
    requires c.Valid() && |b| == BUFFER_WORDS && ValidSchedule(c, schedule) && t < c.tasklets
    ensures LocalInv(c, t, RunSystem(c, b, schedule).locals[t])
  {
    if schedule != [] {
      LocalsKeepInv(c, b, Init(schedule), t);
      LocalStepInv(c, t, RunSystem(c, b, Init(schedule)).locals[t]);
    }
  }

  lemma LocalStepInv(c: Config, t: nat, l: Local)
    requires c.Valid() && t < c.tasklets && LocalInv(c, t, l)
    ensures LocalInv(c, t, StepLocal(c, t, l))
  {
    match l
    case Outer(rep) =>
      SmallResidue(t, c.tasklets);
    case Loaded(rep, pos, _) =>
      OwnsNext(c, t, pos, pos);
    case _ =>
  }

  lemma SmallResidue(t: nat, n: nat)
    requires t < n
    ensures t % n == t
  {
  }

  /** A step of the owner changes the pass count exactly when it stores there. */
  lemma PassesStep(c: Config, t: nat, l: Local, index: nat)
    requires c.Valid() && t < c.tasklets && LocalInv(c, t, l) && Owns(c, t, index) && index < c.words
    ensures Passes(c, StepLocal(c, t, l), index)
            == Passes(c, l, index) + if l.Loaded? && l.pos == index then 1 else 0
  {
    match l
    case Outer(rep) =>
      OwnerIsLeast(c, t, index);
    case Loaded(rep, pos, _) =>
      OwnsNext(c, t, pos, index);
    case _ =>
  }

  lemma OwnerIsLeast(c: Config, t: nat, index: nat)
    requires c.Valid() && Owns(c, t, index)
    ensures t <= index
  {
    assert index == c.tasklets * (index / c.tasklets) + t;
    assert c.tasklets * (index / c.tasklets) >= 0;
  }

  lemma {:induction false} IndexKeepsInv(c: Config, b: seq<nat>, schedule: seq<nat>, index: nat)
    requires c.Valid() && |b| == BUFFER_WORDS && ValidSchedule(c, schedule) && index < BUFFER_WORDS
    ensures IndexInv(c, b, RunSystem(c, b, schedule), index)
  {
    if schedule != [] {
      var front, t := Init(schedule), Last(schedule);
      IndexKeepsInv(c, b, front, index);
      LocalsKeepInv(c, b, front, t);
      var s := RunSystem(c, b, front);
      IndexStep(c, b, s, t, index);
    }
  }

  lemma IndexStep(c: Config, b: seq<nat>, s: System, t: nat, index: nat)
    requires ValidSystem(c, s) && |b| == BUFFER_WORDS && index < BUFFER_WORDS && t < c.tasklets
    requires LocalInv(c, t, s.locals[t]) && IndexInv(c, b, s, index)
    ensures IndexInv(c, b, StepSystem(c, s, t), index)
  {
    var l, r := s.locals[t], StepSystem(c, s, t);
    if l.Loaded? {
      assert Init(r.history) == s.history;
    }
    if Owns(c, t, index) && index < c.words {
      PassesStep(c, t, l, index);
    } else if l.Loaded? {
      assert l.pos != index;
    }
  }

  /** In every interleaving an index is stored to only by the tasklet that owns
      it, and only below the word count: the footprints are disjoint. */
  lemma {:induction false} OnlyTheOwnerWrites(c: Config, b: seq<nat>, schedule: seq<nat>)
    requires c.Valid() && |b| == BUFFER_WORDS && ValidSchedule(c, schedule)
    ensures forall w :: w in RunSystem(c, b, schedule).history ==> w.index < c.words && w.tasklet == w.index % c.tasklets
  {
    if schedule != [] {
      OnlyTheOwnerWrites(c, b, Init(schedule));
      LocalsKeepInv(c, b, Init(schedule), Last(schedule));
    }
  }

  /** The target buffer after a complete copy. */
  function Copied(c: Config, b: seq<nat>): seq<nat>
    requires c.Valid() && |b| == BUFFER_WORDS
  {
    if c.repetitions == 0 then b else c.source[..c.words] + b[c.words..]
  }

  predicate AllHalted(s: System) {
    forall t :: 0 <= t < |s.locals| ==> s.locals[t].Halted?
  }

  /** However the tasklets interleave, once all have finished the target holds
      the source words and nothing else changed, and every word was stored
      exactly once per repetition. */
  lemma CopyIsComplete(c: Config, b: seq<nat>, schedule: seq<nat>)
    requires c.Valid() && |b| == BUFFER_WORDS && ValidSchedule(c, schedule)
    requires AllHalted(RunSystem(c, b, schedule))
    ensures RunSystem(c, b, schedule).b == Copied(c, b)
    ensures forall index :: 0 <= index < BUFFER_WORDS ==>
              RunSystem(c, b, schedule).b[index]
              == if c.repetitions > 0 && index < c.words then c.source[index] else b[index]
    ensures forall index :: 0 <= index < BUFFER_WORDS ==>
              WriteCount(RunSystem(c, b, schedule).history, index) == if index < c.words then c.repetitions else 0
  {
    hide RunSystem;
    var s := RunSystem(c, b, schedule);
    forall index | 0 <= index < BUFFER_WORDS
      ensures s.b[index] == Copied(c, b)[index]
      ensures WriteCount(s.history, index) == if index < c.words then c.repetitions else 0
    {
      IndexKeepsInv(c, b, schedule, index);
      assert s.locals[index % c.tasklets].Halted?;
    }
  }

  // ---- Termination

  function RoundsLeft(c: Config, l: Local): nat {
    match l
    case Outer(rep) => if rep < c.repetitions then c.repetitions - rep else 0
    case Inner(rep, _) => if rep < c.repetitions then c.repetitions - rep - 1 else 0
    case Loaded(rep, _, _) => if rep < c.repetitions then c.repetitions - rep - 1 else 0
    case Halted => 0
  }

  function WordsLeft(c: Config, l: Local): nat {
    match l
    case Inner(_, pos) => if pos < c.words then 1 + c.words - pos else 1
    case Loaded(_, pos, _) => if pos < c.words then 1 + c.words - pos else 1
    case _ => 0
  }

  /** The number of own steps a tasklet still makes. */
  function StepsLeft(c: Config, me: nat, l: Local): nat
    requires c.Valid()
    decreases RoundsLeft(c, l), WordsLeft(c, l), if l.Inner? then 1 else 0
  {
    match l
    case Halted => 0
    case Outer(rep) => if rep < c.repetitions then 1 + StepsLeft(c, me, Inner(rep, me)) else 1
    case Inner(rep, pos) =>
      if pos < c.words then 1 + StepsLeft(c, me, Loaded(rep, pos, c.source[pos]))
      else if rep < c.repetitions then 1 + StepsLeft(c, me, Outer(rep + 1))
      else 1
    case Loaded(rep, pos, _) =>
      if pos < c.words then 1 + StepsLeft(c, me, Inner(rep, pos + c.tasklets)) else 1
  }

  function Turns(schedule: seq<nat>, t: nat): nat {
    if schedule == [] then 0 else Turns(Init(schedule), t) + if Last(schedule) == t then 1 else 0
  }

  lemma {:induction false} TurnsCountDown(c: Config, b: seq<nat>, schedule: seq<nat>, t: nat)
    requires c.Valid() && |b| == BUFFER_WORDS && ValidSchedule(c, schedule) && t < c.tasklets
    ensures var left, all := StepsLeft(c, t, RunSystem(c, b, schedule).locals[t]), StepsLeft(c, t, Outer(0));
            left == if Turns(schedule, t) < all then all - Turns(schedule, t) else 0
  {
    if schedule != [] {
      TurnsCountDown(c, b, Init(schedule), t);
      LocalsKeepInv(c, b, Init(schedule), t);
    }
  }

  /** Every tasklet finishes after a number of own turns that does not depend on
      the other tasklets, so every schedule that gives each of them that many
      turns completes the copy. */
  lemma EnoughTurnsHalt(c: Config, b: seq<nat>, schedule: seq<nat>)
    requires c.Valid() && |b| == BUFFER_WORDS && ValidSchedule(c, schedule)
    requires forall t :: 0 <= t < c.tasklets ==> Turns(schedule, t) >= StepsLeft(c, t, Outer(0))
    ensures AllHalted(RunSystem(c, b, schedule))
    ensures RunSystem(c, b, schedule).b == Copied(c, b)
  {
    hide RunSystem, Copied;
    forall t | 0 <= t < c.tasklets ensures RunSystem(c, b, schedule).locals[t].Halted? {
      TurnsCountDown(c, b, schedule, t);
    }
    CopyIsComplete(c, b, schedule);
  }

  // ---- The C function of one tasklet

  /** The target buffer after one tasklet ran on its own. */
  predicate TaskletDone(c: Config, me: nat, before: seq<nat>, after: seq<nat>)
    requires c.Valid() && |before| == |after| == BUFFER_WORDS
  {
    forall index :: 0 <= index < BUFFER_WORDS ==>
      after[index] == if c.repetitions > 0 && index < c.words && index % c.tasklets == me then c.source[index]
                      else before[index]
  }

  method TaskletMain(c: Config, me: nat, bufferA: array<nat>, bufferB: array<nat>)
    requires c.Valid() && me < c.tasklets && bufferA != bufferB
    requires bufferA[..] == c.source && bufferB.Length == BUFFER_WORDS
    modifies bufferB
    ensures TaskletDone(c, me, old(bufferB[..]), bufferB[..])
  {
    var readEnd := c.words;
    var rep := 0;
    while rep < c.repetitions
      invariant 0 <= rep <= c.repetitions && bufferA[..] == c.source
      invariant forall index :: 0 <= index < BUFFER_WORDS ==>
                  bufferB[index] == if rep > 0 && index < c.words && Owns(c, me, index) then c.source[index]
                                    else old(bufferB[index])
    {
      var readBegin, writeBegin := me, me;
      SmallResidue(me, c.tasklets);
      forall index | 0 <= index < BUFFER_WORDS && Owns(c, me, index) ensures me <= index {
        OwnerIsLeast(c, me, index);
      }
      while readBegin < readEnd
        invariant readBegin == writeBegin && Owns(c, me, readBegin) && bufferA[..] == c.source
        invariant forall index :: 0 <= index < BUFFER_WORDS ==>
                    bufferB[index] == if (rep > 0 || index < readBegin) && index < c.words && Owns(c, me, index)
                                      then c.source[index] else old(bufferB[index])
      {
        forall index | 0 <= index < BUFFER_WORDS
          ensures Owns(c, me, readBegin + c.tasklets)
          ensures Owns(c, me, index) && readBegin <= index < readBegin + c.tasklets ==> index == readBegin
        {
          OwnsNext(c, me, readBegin, index);
        }
        bufferB[writeBegin] := bufferA[readBegin];
        readBegin := readBegin + c.tasklets;
        writeBegin := writeBegin + c.tasklets;
      }
      rep := rep + 1;
    }
  }
}
