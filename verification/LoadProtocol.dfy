/**
 The concurrent protocol of the faasmspeed load generator (run_function and
 async_main in faasmspeed/src/main.rs) as a transition system: any number of
 function workers and one coordinator share a reusable barrier and four counters;
 every worker spawns request tasks that finish in any order, and a progress
 reader polls the counters.
 */
module LoadProtocol {
  import opened Arithmetic
  import opened Wrappers
  import opened OffloadScheduler

  /** Per function the number of requests and the offload numerator, then the
      common denominator, the number of monitoring hosts, and the two switches. */
  datatype Config = Config(quotas: seq<nat>, nums: seq<int>, den: int, hosts: nat, oneshot: bool, dryRun: bool) {
    predicate Valid() {
      |quotas| > 0 && |nums| == |quotas| && den >= 1
    }

    function N(): nat {
      |quotas|
    }

    /** A dry run connects to no monitor. */
    function Monitors(): nat {
      if dryRun then 0 else hosts
    }

    /** How often every participant waits at the barrier. */
    function Waits(): nat {
      if oneshot then 1 else 4
    }
  }

  // ---- States

  /** A participant's view of the barrier: the waits it has completed, and
      whether it is inside the next one. */
  datatype Seat = Seat(waits: nat, blocked: bool)

  datatype Task = Spawned | Sent | Finished(ok: bool)

  /** A worker: whether it has added its quota to the total, its tasks in spawn
      order, and how many of them it has joined. */
  datatype Worker = Worker(added: bool, tasks: seq<Task>, joined: nat)

  /** The progress reader between its loads; it remembers what it loaded. Crashed is
      the division by a total of zero, which aborts the whole process. */
  datatype Progress =
    | NotStarted
    | AtDone
    | AtTotal
    | AtSent(total: nat)
    | AtRecv(total: nat, sent: nat)
    | AtPrint(total: nat, sent: nat, recv: nat)
    | Ended
    | Crashed

  datatype Coordinator = Coordinator(begins: nat, done: bool, ends: nat, progressJoined: bool, collected: nat)

  datatype Counters = Counters(total: nat, sent: nat, recv: nat, ndp: nat)

  /** The barrier has a generation and counts the arrivals of the current one;
      the last seat is the coordinator's. */
  datatype State = State(
    generation: nat,
    arrivals: nat,
    seats: seq<Seat>,
    workers: seq<Worker>,
    counters: Counters,
    coordinator: Coordinator,
    progress: Progress)

  function InitialState(c: Config): State {
    State(0, 0,
          seq(c.N() + 1, p => Seat(0, false)),
          seq(c.N(), w => Worker(false, [], 0)),
          Counters(0, 0, 0, 0),
          Coordinator(0, false, 0, false, 0),
          NotStarted)
  }

  predicate Shaped(c: Config, s: State) {
    c.Valid() && |s.seats| == c.N() + 1 && |s.workers| == c.N()
  }

  // ---- Steps

  datatype Step =
    | Arrive(p: nat)
    | Resume(p: nat)
    | AddTotal(w: nat)
    | Spawn(w: nat)
    | SendTask(w: nat, i: nat)
    | FinishTask(w: nat, i: nat, ok: bool)
    | JoinTask(w: nat)
    | BeginMonitor
    | StartProgress
    | Poll
    | SetDone
    | EndMonitor
    | JoinProgress
    | Collect

  /** What a worker does before it arrives at its wait number k. */
  predicate WorkerReady(quota: nat, k: nat, worker: Worker) {
    match k
    case 2 => worker.added
    case 3 => |worker.tasks| == quota && worker.joined == quota
    case _ => true
  }

  /** What the coordinator does before it arrives at its wait number k. */
  predicate CoordinatorReady(c: Config, k: nat, s: State) {
    match k
    case 1 => s.coordinator.begins == c.Monitors()
    case 3 => !s.progress.NotStarted?
    case _ => true
  }

  predicate At(seat: Seat, k: nat) {
    !seat.blocked && seat.waits == k
  }

  predicate Enabled(c: Config, s: State, step: Step)
    requires Shaped(c, s)
  {
    var n := c.N();
    var lead, co := s.seats[n], s.coordinator;
    !s.progress.Crashed? &&
    match step
    case Arrive(p) =>
      && p <= n && !s.seats[p].blocked && s.seats[p].waits < c.Waits()
      && if p == n then CoordinatorReady(c, lead.waits, s) else WorkerReady(c.quotas[p], s.seats[p].waits, s.workers[p])
    case Resume(p) => p <= n && s.seats[p].blocked && s.seats[p].waits < s.generation
    case AddTotal(w) => w < n && At(s.seats[w], 2) && !s.workers[w].added
    case Spawn(w) => w < n && At(s.seats[w], 3) && |s.workers[w].tasks| < c.quotas[w]
    case SendTask(w, i) => w < n && i < |s.workers[w].tasks| && s.workers[w].tasks[i] == Spawned
    case FinishTask(w, i, ok) =>
      w < n && i < |s.workers[w].tasks| && s.workers[w].tasks[i] == Sent && (c.dryRun ==> ok)
    case JoinTask(w) =>
      && w < n && At(s.seats[w], 3) && |s.workers[w].tasks| == c.quotas[w]
      && s.workers[w].joined < |s.workers[w].tasks| && s.workers[w].tasks[s.workers[w].joined].Finished?
    case BeginMonitor => !c.oneshot && At(lead, 1) && co.begins < c.Monitors()
    case StartProgress => At(lead, 3) && s.progress.NotStarted?
    case Poll => !s.progress.NotStarted? && !s.progress.Ended?
    case SetDone => At(lead, 4) && !co.done
    case EndMonitor => At(lead, 4) && co.done && co.ends < c.Monitors()
    case JoinProgress => At(lead, 4) && co.done && co.ends == c.Monitors() && s.progress.Ended? && !co.progressJoined
    case Collect => co.progressJoined && co.collected < n && At(s.seats[co.collected], c.Waits())
  }

  /** One load or print of the progress reader. */
  function PollStep(counters: Counters, done: bool, progress: Progress): Progress {
    match progress
    case AtDone => if done then Ended else AtTotal
    case AtTotal => AtSent(counters.total)
    case AtSent(total) => AtRecv(total, counters.sent)
    case AtRecv(total, sent) => AtPrint(total, sent, counters.recv)
    case AtPrint(total, _, _) => if total == 0 then Crashed else AtDone
    case _ => progress
  }

  function Next(c: Config, s: State, step: Step): (r: State)
    requires Shaped(c, s) && Enabled(c, s, step)
    ensures Shaped(c, r)
  {
    var co, k := s.coordinator, s.counters;
    match step
    case Arrive(p) =>
      var seats := s.seats[p := Seat(s.seats[p].waits, true)];
      if s.arrivals + 1 == c.N() + 1 then s.(seats := seats, generation := s.generation + 1, arrivals := 0)
      else s.(seats := seats, arrivals := s.arrivals + 1)
    case Resume(p) =>
      s.(seats := s.seats[p := Seat(s.seats[p].waits + 1, false)])
    case AddTotal(w) =>
      s.(workers := s.workers[w := s.workers[w].(added := true)], counters := k.(total := k.total + c.quotas[w]))
    case Spawn(w) =>
      var worker := s.workers[w];
      var offloaded := Offloaded(c.nums[w], c.den, |worker.tasks|);
      s.(workers := s.workers[w := worker.(tasks := worker.tasks + [Spawned])],
         counters := k.(ndp := k.ndp + if offloaded then 1 else 0))
    case SendTask(w, i) =>
      var worker := s.workers[w];
      s.(workers := s.workers[w := worker.(tasks := worker.tasks[i := Sent])], counters := k.(sent := k.sent + 1))
    case FinishTask(w, i, ok) =>
      var worker := s.workers[w];
      s.(workers := s.workers[w := worker.(tasks := worker.tasks[i := Finished(ok)])],
         counters := k.(recv := k.recv + if ok then 1 else 0))
    case JoinTask(w) =>
      s.(workers := s.workers[w := s.workers[w].(joined := s.workers[w].joined + 1)])
    case BeginMonitor => s.(coordinator := co.(begins := co.begins + 1))
    case StartProgress => s.(progress := AtDone)
    case Poll => s.(progress := PollStep(k, co.done, s.progress))
    case SetDone => s.(coordinator := co.(done := true))
    case EndMonitor => s.(coordinator := co.(ends := co.ends + 1))
    case JoinProgress => s.(coordinator := co.(progressJoined := true))
    case Collect => s.(coordinator := co.(collected := co.collected + 1))
  }

  /** The state after some steps, in any interleaving; a step that is not
      enabled is skipped. */
  function Run(c: Config, steps: seq<Step>): (s: State)
    requires c.Valid()
    ensures Shaped(c, s)
  {
    if steps == [] then InitialState(c)
    else
      var s := Run(c, Init(steps));
      if Enabled(c, s, Last(steps)) then Next(c, s, Last(steps)) else s
  }

  predicate Final(c: Config, s: State)
    requires Shaped(c, s)
  {
    && (forall p :: 0 <= p <= c.N() ==> At(s.seats[p], c.Waits()))
    && (!c.oneshot ==> s.coordinator.progressJoined && s.coordinator.collected == c.N())
  }

  // ---- Sums over the workers

  datatype Quantity = Added | SentTasks | OkTasks | NdpTasks | Quotas | Effort

  function CountSent(tasks: seq<Task>): nat {
    if tasks == [] then 0 else CountSent(Init(tasks)) + if Last(tasks).Spawned? then 0 else 1
  }

  function CountOk(tasks: seq<Task>): nat {
    if tasks == [] then 0 else CountOk(Init(tasks)) + if Last(tasks) == Finished(true) then 1 else 0
  }

  function TaskEffort(tasks: seq<Task>): nat {
    if tasks == [] then 0
    else TaskEffort(Init(tasks)) + if Last(tasks).Spawned? then 2 else if Last(tasks).Sent? then 1 else 0
  }

  function Of(c: Config, q: Quantity, w: nat, worker: Worker): nat
    requires c.Valid() && w < c.N()
  {
    match q
    case Added => if worker.added then c.quotas[w] else 0
    case SentTasks => CountSent(worker.tasks)
    case OkTasks => CountOk(worker.tasks)
    case NdpTasks => OffloadCount(c.nums[w], c.den, |worker.tasks|)
    case Quotas => c.quotas[w]
    case Effort =>
      (if worker.added then 0 else 1)
      + (if |worker.tasks| < c.quotas[w] then 4 * (c.quotas[w] - |worker.tasks|) else 0)
      + TaskEffort(worker.tasks)
      + (if worker.joined < c.quotas[w] then c.quotas[w] - worker.joined else 0)
  }

  function Sum(c: Config, q: Quantity, workers: seq<Worker>): nat
    requires c.Valid() && |workers| <= c.N()
  {
    if workers == [] then 0 else Sum(c, q, Init(workers)) + Of(c, q, |workers| - 1, Last(workers))
  }

  lemma {:induction false} SumUpdate(c: Config, q: Quantity, workers: seq<Worker>, w: nat, worker: Worker)
    requires c.Valid() && |workers| <= c.N() && w < |workers|
    ensures Sum(c, q, workers[w := worker]) == Sum(c, q, workers) - Of(c, q, w, workers[w]) + Of(c, q, w, worker)
  {
    hide Of;
    var updated := workers[w := worker];
    if w == |workers| - 1 {
      assert Init(updated) == Init(workers);
    } else {
      assert Init(updated) == Init(workers)[w := worker];
      SumUpdate(c, q, Init(workers), w, worker);
    }
  }

  lemma {:induction false} SumLe(c: Config, q: Quantity, r: Quantity, workers: seq<Worker>)
    requires c.Valid() && |workers| <= c.N()
    requires forall w :: 0 <= w < |workers| ==> Of(c, q, w, workers[w]) <= Of(c, r, w, workers[w])
    ensures Sum(c, q, workers) <= Sum(c, r, workers)
  {
    hide Of;
    if workers != [] {
      SumLe(c, q, r, Init(workers));
    }
  }

  lemma {:induction false} CountsUpdate(tasks: seq<Task>, i: nat, t: Task)
    requires i < |tasks|
    ensures var u := tasks[i := t];
            && CountSent(u) == CountSent(tasks) - (if tasks[i].Spawned? then 0 else 1) + (if t.Spawned? then 0 else 1)
            && CountOk(u) == CountOk(tasks) - (if tasks[i] == Finished(true) then 1 else 0)
                             + (if t == Finished(true) then 1 else 0)
            && TaskEffort(u) == TaskEffort(tasks)
                                - (if tasks[i].Spawned? then 2 else if tasks[i].Sent? then 1 else 0)
                                + (if t.Spawned? then 2 else if t.Sent? then 1 else 0)
  {
    var u := tasks[i := t];
    if i == |tasks| - 1 {
      assert Init(u) == Init(tasks);
    } else {
      assert Init(u) == Init(tasks)[i := t];
      CountsUpdate(Init(tasks), i, t);
    }
  }

  lemma CountsSnoc(tasks: seq<Task>)
    ensures var u := tasks + [Spawned];
            && CountSent(u) == CountSent(tasks)
            && CountOk(u) == CountOk(tasks)
            && TaskEffort(u) == TaskEffort(tasks) + 2
  {
    assert Init(tasks + [Spawned]) == tasks;
  }

  lemma {:induction false} CountsBounds(tasks: seq<Task>)
    ensures CountOk(tasks) <= CountSent(tasks) <= |tasks|
    ensures (forall i :: 0 <= i < |tasks| ==> tasks[i].Finished?) ==> CountSent(tasks) == |tasks|
  {
    if tasks != [] {
      CountsBounds(Init(tasks));
    }
  }

  // ---- Invariants

  /** The participants inside the current generation of the barrier. */
  function CountArrived(seats: seq<Seat>, generation: nat): nat {
    if seats == [] then 0
    else CountArrived(Init(seats), generation) + if Last(seats).blocked && Last(seats).waits == generation then 1 else 0
  }

  /** No participant is more than one generation behind, and only a participant
      already released from its wait is behind at all. */
  predicate SeatInv(c: Config, generation: nat, seat: Seat) {
    if seat.blocked then
      seat.waits < c.Waits() && (seat.waits == generation || seat.waits + 1 == generation)
    else seat.waits == generation
  }

  predicate BarrierInv(c: Config, s: State) {
    && Shaped(c, s)
    && s.generation <= c.Waits()
    && s.arrivals == CountArrived(s.seats, s.generation) <= c.N()
    && forall p :: 0 <= p <= c.N() ==> SeatInv(c, s.generation, s.seats[p])
  }

  /** The participant has arrived at its wait number k, or is past it. */
  predicate Passed(seat: Seat, k: nat) {
    seat.waits > k || (seat.waits == k && seat.blocked)
  }

  predicate WorkerInv(quota: nat, seat: Seat, worker: Worker) {
    && worker.joined <= |worker.tasks| <= quota
    && (worker.added ==> seat.waits >= 2)
    && (Passed(seat, 2) ==> worker.added)
    && (worker.tasks != [] ==> seat.waits >= 3)
    && (Passed(seat, 3) ==> |worker.tasks| == quota && worker.joined == quota)
    && forall i :: 0 <= i < worker.joined ==> worker.tasks[i].Finished?
  }

  predicate WorkersInv(c: Config, s: State) {
    Shaped(c, s) && forall w :: 0 <= w < c.N() ==> WorkerInv(c.quotas[w], s.seats[w], s.workers[w])
  }

  predicate CoordinatorInv(c: Config, s: State) {
    && Shaped(c, s)
    && var seat, co := s.seats[c.N()], s.coordinator;
      && co.begins <= c.Monitors() && co.ends <= c.Monitors() && co.collected <= c.N()
      && (co.begins > 0 ==> !c.oneshot && seat.waits >= 1)
      && (Passed(seat, 1) && !c.oneshot ==> co.begins == c.Monitors())
      && (!s.progress.NotStarted? ==> seat.waits >= 3)
      && (Passed(seat, 3) ==> !s.progress.NotStarted?)
      && (co.done ==> seat.waits == 4)
      && (s.progress.Ended? ==> co.done)
      && (co.ends > 0 ==> co.done)
      && (co.progressJoined ==> co.done && s.progress.Ended? && co.ends == c.Monitors())
      && (co.collected > 0 ==> co.progressJoined)
  }

  predicate SumsInv(c: Config, s: State) {
    && Shaped(c, s)
    && s.counters.total == Sum(c, Added, s.workers)
    && s.counters.sent == Sum(c, SentTasks, s.workers)
    && s.counters.recv == Sum(c, OkTasks, s.workers)
    && s.counters.ndp == Sum(c, NdpTasks, s.workers)
  }

  /** What the progress reader holds was true when it loaded it. */
  predicate SnapshotInv(c: Config, s: State) {
    match s.progress
    case AtSent(total) => total == s.counters.total
    case AtRecv(total, _) => total == s.counters.total
    case AtPrint(total, _, recv) => total == s.counters.total && recv <= s.counters.recv
    case Crashed => s.counters.total == 0
    case _ => true
  }

  predicate Inv(c: Config, s: State) {
    && Shaped(c, s)
    && BarrierInv(c, s) && WorkersInv(c, s) && CoordinatorInv(c, s) && SumsInv(c, s) && SnapshotInv(c, s)
  }

  // ---- The barrier

  lemma {:induction false} ArrivedUpdate(seats: seq<Seat>, p: nat, seat: Seat, generation: nat)
    requires p < |seats|
    ensures CountArrived(seats[p := seat], generation)
            == CountArrived(seats, generation)
               - (if seats[p].blocked && seats[p].waits == generation then 1 else 0)
               + (if seat.blocked && seat.waits == generation then 1 else 0)
  {
    var u := seats[p := seat];
    if p == |seats| - 1 {
      assert Init(u) == Init(seats);
    } else {
      assert Init(u) == Init(seats)[p := seat];
      ArrivedUpdate(Init(seats), p, seat, generation);
    }
  }

  lemma {:induction false} ArrivedBounds(seats: seq<Seat>, generation: nat)
    ensures CountArrived(seats, generation) <= |seats|
    ensures CountArrived(seats, generation) == |seats| <==>
              forall p :: 0 <= p < |seats| ==> seats[p].blocked && seats[p].waits == generation
    ensures (forall p :: 0 <= p < |seats| ==> !(seats[p].blocked && seats[p].waits == generation))
            ==> CountArrived(seats, generation) == 0
  {
    if seats != [] {
      ArrivedBounds(Init(seats), generation);
      assert seats == Init(seats) + [Last(seats)];
    }
  }

  lemma BarrierStep(c: Config, s: State, step: Step)
    requires BarrierInv(c, s) && Enabled(c, s, step)
    ensures BarrierInv(c, Next(c, s, step))
  {
    hide CountArrived, Offloaded, WorkerReady, CoordinatorReady;
    match step
    case Arrive(p) =>
      var seat := Seat(s.seats[p].waits, true);
      var seats := s.seats[p := seat];
      ArrivedUpdate(s.seats, p, seat, s.generation);
      ArrivedBounds(seats, s.generation);
      if s.arrivals + 1 == c.N() + 1 {
        ArrivedBounds(seats, s.generation + 1);
      }
    case Resume(p) =>
      ArrivedUpdate(s.seats, p, Seat(s.seats[p].waits + 1, false), s.generation);
    case _ =>
  }

  // ---- Every step keeps the invariants

  lemma WorkerStep(c: Config, s: State, step: Step, w: nat)
    requires BarrierInv(c, s) && WorkersInv(c, s) && Enabled(c, s, step) && w < c.N()
    ensures var r := Next(c, s, step);
            WorkerInv(c.quotas[w], r.seats[w], r.workers[w])
  {
    hide CountArrived, Offloaded;
    assert WorkerInv(c.quotas[w], s.seats[w], s.workers[w]);
    assert SeatInv(c, s.generation, s.seats[w]);
  }

  lemma CoordinatorStep(c: Config, s: State, step: Step)
    requires BarrierInv(c, s) && CoordinatorInv(c, s) && Enabled(c, s, step)
    ensures CoordinatorInv(c, Next(c, s, step))
  {
    hide CountArrived, Offloaded, WorkerReady;
    assert SeatInv(c, s.generation, s.seats[c.N()]);
  }

  function Account(k: Counters, q: Quantity): nat {
    match q
    case Added => k.total
    case SentTasks => k.sent
    case OkTasks => k.recv
    case NdpTasks => k.ndp
    case _ => 0
  }

  predicate Accounted(c: Config, s: State, q: Quantity)
    requires Shaped(c, s)
  {
    Account(s.counters, q) == Sum(c, q, s.workers)
  }

  lemma SumSpawn(c: Config, s: State, w: nat, q: Quantity)
    requires Shaped(c, s) && Accounted(c, s, q) && Enabled(c, s, Spawn(w)) && q != Effort && q != Quotas
    ensures Accounted(c, Next(c, s, Spawn(w)), q)
  {
    hide Sum, CountSent, CountOk, TaskEffort, Offloaded, OffloadCount;
    var tasks := s.workers[w].tasks;
    CountsSnoc(tasks);
    OffloadCountNext(c.nums[w], c.den, |tasks|);
    SumUpdate(c, q, s.workers, w, s.workers[w].(tasks := tasks + [Spawned]));
  }

  lemma SumTask(c: Config, s: State, step: Step, q: Quantity)
    requires Shaped(c, s) && Accounted(c, s, q) && Enabled(c, s, step) && q != Effort && q != Quotas
    requires step.SendTask? || step.FinishTask?
    ensures Accounted(c, Next(c, s, step), q)
  {
    hide Sum, CountSent, CountOk, TaskEffort, Offloaded, OffloadCount;
    var tasks := s.workers[step.w].tasks;
    var t := if step.SendTask? then Sent else Finished(step.ok);
    CountsUpdate(tasks, step.i, t);
    SumUpdate(c, q, s.workers, step.w, s.workers[step.w].(tasks := tasks[step.i := t]));
  }

  lemma SumStep(c: Config, s: State, step: Step, q: Quantity)
    requires Shaped(c, s) && Accounted(c, s, q) && Enabled(c, s, step) && q != Effort && q != Quotas
    ensures Accounted(c, Next(c, s, step), q)
  {
    hide Sum, CountSent, CountOk, TaskEffort, Offloaded, OffloadCount, WorkerReady, CoordinatorReady;
    match step
    case AddTotal(w) =>
      SumUpdate(c, q, s.workers, w, s.workers[w].(added := true));
    case Spawn(w) =>
      hide Next, Enabled;
      SumSpawn(c, s, w, q);
    case SendTask(w, i) =>
      hide Next, Enabled;
      SumTask(c, s, step, q);
    case FinishTask(w, i, ok) =>
      hide Next, Enabled;
      SumTask(c, s, step, q);
    case JoinTask(w) =>
      SumUpdate(c, q, s.workers, w, s.workers[w].(joined := s.workers[w].joined + 1));
    case _ =>
  }

  lemma SumsStep(c: Config, s: State, step: Step)
    requires SumsInv(c, s) && Enabled(c, s, step)
    ensures SumsInv(c, Next(c, s, step))
  {
    hide Sum, Next, Enabled;
    SumStep(c, s, step, Added);
    SumStep(c, s, step, SentTasks);
    SumStep(c, s, step, OkTasks);
    SumStep(c, s, step, NdpTasks);
  }

  lemma SnapshotStep(c: Config, s: State, step: Step)
    requires BarrierInv(c, s) && CoordinatorInv(c, s) && SnapshotInv(c, s) && Enabled(c, s, step)
    ensures SnapshotInv(c, Next(c, s, step))
  {
    hide CountArrived, Offloaded, WorkerReady, CoordinatorReady;
    var n := c.N();
    assert SeatInv(c, s.generation, s.seats[n]);
    if step.AddTotal? {
      assert SeatInv(c, s.generation, s.seats[step.w]);
    }
  }

  lemma InvStep(c: Config, s: State, step: Step)
    requires Inv(c, s) && Enabled(c, s, step)
    ensures Inv(c, Next(c, s, step))
  {
    hide Next, Enabled, WorkerInv, CoordinatorInv, SumsInv, SnapshotInv, BarrierInv;
    BarrierStep(c, s, step);
    forall w | 0 <= w < c.N()
      ensures var r := Next(c, s, step); WorkerInv(c.quotas[w], r.seats[w], r.workers[w])
    {
      WorkerStep(c, s, step, w);
    }
    CoordinatorStep(c, s, step);
    SumsStep(c, s, step);
    SnapshotStep(c, s, step);
  }

  lemma {:induction false} InitialSum(c: Config, q: Quantity, n: nat)
    requires c.Valid() && n <= c.N() && q != Effort && q != Quotas
    ensures Sum(c, q, seq(n, w => Worker(false, [], 0))) == 0
  {
    if n > 0 {
      assert Init(seq(n, w => Worker(false, [], 0))) == seq(n - 1, w => Worker(false, [], 0));
      InitialSum(c, q, n - 1);
    }
  }

  lemma InitialInv(c: Config)
    requires c.Valid()
    ensures Inv(c, InitialState(c))
  {
    hide Sum;
    ArrivedBounds(InitialState(c).seats, 0);
    InitialSum(c, Added, c.N());
    InitialSum(c, SentTasks, c.N());
    InitialSum(c, OkTasks, c.N());
    InitialSum(c, NdpTasks, c.N());
  }

  /** Every state any interleaving can reach satisfies the invariants; in
      particular no two participants are ever more than one barrier generation
      apart. */
  lemma {:induction false} ReachableInv(c: Config, steps: seq<Step>)
    requires c.Valid()
    ensures Inv(c, Run(c, steps))
  {
    hide Inv, Enabled, Next;
    if steps == [] {
      InitialInv(c);
    } else {
      ReachableInv(c, Init(steps));
      var s := Run(c, Init(steps));
      if Enabled(c, s, Last(steps)) {
        InvStep(c, s, Last(steps));
      }
    }
  }

  // ---- Safety over whole runs

  /** No load request exists before every monitor was told to begin, and no
      monitor is told to end before every request of every worker has been sent,
      has finished and has been joined. */
  lemma LoadInsideMonitoring(c: Config, steps: seq<Step>, w: nat)
    requires c.Valid() && w < c.N()
    ensures var s := Run(c, steps);
            && (s.workers[w].tasks != [] ==> s.coordinator.begins == if c.dryRun then 0 else c.hosts)
            && (s.coordinator.ends > 0 || s.coordinator.done ==>
                  && |s.workers[w].tasks| == s.workers[w].joined == c.quotas[w]
                  && forall i :: 0 <= i < c.quotas[w] ==> s.workers[w].tasks[i].Finished?)
  {
    hide Run, SumsInv, CountArrived;
    ReachableInv(c, steps);
    var s := Run(c, steps);
    assert SeatInv(c, s.generation, s.seats[w]) && SeatInv(c, s.generation, s.seats[c.N()]);
    assert WorkerInv(c.quotas[w], s.seats[w], s.workers[w]);
  }

  /** The same in terms of the options: in a full run that is not dry no request exists
      before all hosts were told to begin, and at the end each was told to begin and to
      end; in a dry run no host hears anything. */
  lemma EveryHostIsMonitored(c: Config, steps: seq<Step>, w: nat)
    requires c.Valid() && !c.oneshot && w < c.N()
    ensures var s := Run(c, steps);
            && (!c.dryRun && s.workers[w].tasks != [] ==> s.coordinator.begins == c.hosts)
            && (!c.dryRun && s.coordinator.ends > 0 ==> s.coordinator.begins == c.hosts)
            && (!c.dryRun && Final(c, s) ==> s.coordinator.begins == s.coordinator.ends == c.hosts)
            && (c.dryRun ==> s.coordinator.begins == s.coordinator.ends == 0)
  {
    hide Run, SumsInv, CountArrived;
    ReachableInv(c, steps);
    LoadInsideMonitoring(c, steps, w);
    var s := Run(c, steps);
    assert SeatInv(c, s.generation, s.seats[c.N()]);
    if Final(c, s) {
      assert At(s.seats[c.N()], c.Waits());
    }
  }

  /** At the end every participant has waited once in a oneshot run and four times in a
      full one. */
  lemma EqualWaits(c: Config, steps: seq<Step>)
    requires c.Valid() && Final(c, Run(c, steps))
    ensures forall p :: 0 <= p <= |c.quotas| ==>
              Run(c, steps).seats[p] == Seat(if c.oneshot then 1 else 4, false)
  {
    hide Run;
    forall p | 0 <= p <= |c.quotas| ensures Run(c, steps).seats[p] == Seat(if c.oneshot then 1 else 4, false) {
      assert At(Run(c, steps).seats[p], c.Waits());
    }
  }

  // ---- What the counters count

  function AllTasks(workers: seq<Worker>): seq<Task> {
    if workers == [] then [] else AllTasks(Init(workers)) + Last(workers).tasks
  }

  lemma {:induction false} CountsAreMultiplicities(tasks: seq<Task>)
    ensures CountOk(tasks) == multiset(tasks)[Finished(true)]
    ensures CountFailed(tasks) == multiset(tasks)[Finished(false)]
    ensures CountSent(tasks) == |tasks| - multiset(tasks)[Spawned]
  {
    if tasks != [] {
      CountsAreMultiplicities(Init(tasks));
      assert tasks == Init(tasks) + [Last(tasks)];
    }
  }

  lemma {:induction false} SumsAreMultiplicities(c: Config, workers: seq<Worker>)
    requires c.Valid() && |workers| <= c.N()
    ensures Sum(c, OkTasks, workers) == multiset(AllTasks(workers))[Finished(true)]
    ensures Sum(c, SentTasks, workers) == |AllTasks(workers)| - multiset(AllTasks(workers))[Spawned]
  {
    hide CountOk, CountFailed, CountSent, OffloadCount;
    if workers != [] {
      SumsAreMultiplicities(c, Init(workers));
      CountsAreMultiplicities(Last(workers).tasks);
      assert multiset(AllTasks(workers)) == multiset(AllTasks(Init(workers))) + multiset(Last(workers).tasks);
    }
  }

  /** In every reachable state the received count is the number of requests that finished
      well, and the sent count the number of those that are past their start. */
  lemma CountersCountTasks(c: Config, steps: seq<Step>)
    requires c.Valid()
    ensures var s := Run(c, steps);
            && s.counters.recv == multiset(AllTasks(s.workers))[Finished(true)]
            && s.counters.sent == |AllTasks(s.workers)| - multiset(AllTasks(s.workers))[Spawned]
  {
    hide Run, Sum, AllTasks, BarrierInv, WorkersInv, CoordinatorInv;
    ReachableInv(c, steps);
    SumsAreMultiplicities(c, Run(c, steps).workers);
  }

  lemma {:induction false} QuotaSum(c: Config, workers: seq<Worker>)
    requires c.Valid() && |workers| <= c.N()
    ensures Sum(c, Quotas, workers) == SumOf(c.quotas[..|workers|], (q: nat) => q)
  {
    if workers != [] {
      QuotaSum(c, Init(workers));
      assert Init(c.quotas[..|workers|]) == c.quotas[..|workers| - 1];
    }
  }

  lemma GrandTotalIsSum(c: Config)
    requires c.Valid()
    ensures GrandTotal(c) == SumOf(c.quotas, (q: nat) => q)
  {
    QuotaSum(c, InitialState(c).workers);
    assert c.quotas[..|c.quotas|] == c.quotas;
  }

  lemma AllAdded(c: Config, s: State)
    requires Inv(c, s) && s.generation >= 3
    ensures s.counters.total == Sum(c, Quotas, s.workers)
  {
    hide Sum;
    forall w | 0 <= w < c.N() ensures Of(c, Added, w, s.workers[w]) == Of(c, Quotas, w, s.workers[w]) {
      assert SeatInv(c, s.generation, s.seats[w]);
      assert WorkerInv(c.quotas[w], s.seats[w], s.workers[w]);
    }
    SumLe(c, Added, Quotas, s.workers);
    SumLe(c, Quotas, Added, s.workers);
  }

  lemma NothingSent(c: Config, s: State)
    requires Inv(c, s) && s.generation < 3
    ensures s.counters.sent == 0 && s.counters.recv == 0
  {
    hide Sum;
    forall w | 0 <= w < c.N()
      ensures Of(c, SentTasks, w, s.workers[w]) == 0 && Of(c, OkTasks, w, s.workers[w]) == 0
    {
      assert SeatInv(c, s.generation, s.seats[w]);
      assert WorkerInv(c.quotas[w], s.seats[w], s.workers[w]);
    }
    SumZero(c, SentTasks, s.workers);
    SumZero(c, OkTasks, s.workers);
  }

  lemma {:induction false} SumZero(c: Config, q: Quantity, workers: seq<Worker>)
    requires c.Valid() && |workers| <= c.N()
    ensures (forall w :: 0 <= w < |workers| ==> Of(c, q, w, workers[w]) == 0) <==> Sum(c, q, workers) == 0
  {
    hide Of;
    if workers != [] {
      SumZero(c, q, Init(workers));
      assert workers == Init(workers) + [Last(workers)];
    }
  }

  /** The sum of all quotas, which no step changes. */
  function GrandTotal(c: Config): nat
    requires c.Valid()
  {
    Sum(c, Quotas, InitialState(c).workers)
  }

  lemma {:induction false} QuotasFixed(c: Config, a: seq<Worker>, b: seq<Worker>)
    requires c.Valid() && |a| == |b| <= c.N()
    ensures Sum(c, Quotas, a) == Sum(c, Quotas, b)
  {
    if a != [] {
      QuotasFixed(c, Init(a), Init(b));
    }
  }

  lemma RecvLeSent(c: Config, s: State)
    requires Inv(c, s)
    ensures s.counters.recv <= s.counters.sent
  {
    hide Sum, CountOk, CountSent, BarrierInv, WorkerInv, CoordinatorInv;
    forall w | 0 <= w < c.N() ensures Of(c, OkTasks, w, s.workers[w]) <= Of(c, SentTasks, w, s.workers[w]) {
      CountsBounds(s.workers[w].tasks);
    }
    SumLe(c, OkTasks, SentTasks, s.workers);
  }

  lemma SentLeQuotas(c: Config, s: State)
    requires Inv(c, s)
    ensures s.counters.sent <= Sum(c, Quotas, s.workers)
  {
    hide Sum, CountOk, CountSent, BarrierInv, CoordinatorInv;
    forall w | 0 <= w < c.N() ensures Of(c, SentTasks, w, s.workers[w]) <= Of(c, Quotas, w, s.workers[w]) {
      CountsBounds(s.workers[w].tasks);
      assert WorkerInv(c.quotas[w], s.seats[w], s.workers[w]);
    }
    SumLe(c, SentTasks, Quotas, s.workers);
  }

  /** In every reachable state received <= sent <= total, and from the moment the
      progress reader starts the total is the sum of all quotas, for good. */
  lemma CountersOrdered(c: Config, steps: seq<Step>)
    requires c.Valid()
    ensures var s := Run(c, steps);
            && s.counters.recv <= s.counters.sent <= s.counters.total
            && (!s.progress.NotStarted? ==> s.counters.total == GrandTotal(c))
  {
    hide Run, Sum, CountArrived, SumsInv;
    ReachableInv(c, steps);
    var s := Run(c, steps);
    RecvLeSent(c, s);
    SentLeQuotas(c, s);
    QuotasFixed(c, s.workers, InitialState(c).workers);
    assert SeatInv(c, s.generation, s.seats[c.N()]);
    if s.generation >= 3 {
      AllAdded(c, s);
    } else {
      NothingSent(c, s);
    }
  }

  /** The percentage the progress reader prints is between 0 and 100, although it
      loads the three counters at different times; the division is by zero exactly
      when every function has a quota of zero. */
  lemma PrintedPercentage(c: Config, steps: seq<Step>)
    requires c.Valid() && Run(c, steps).progress.AtPrint?
    ensures var p := Run(c, steps).progress;
            && p.total == GrandTotal(c)
            && (p.total == 0 <==> forall w :: 0 <= w < c.N() ==> c.quotas[w] == 0)
            && (p.total > 0 ==> 0 <= p.recv * 100 / p.total <= 100)
  {
    hide Run, Sum;
    ReachableInv(c, steps);
    CountersOrdered(c, steps);
    var p, s := Run(c, steps).progress, Run(c, steps);
    SumZero(c, Quotas, s.workers);
    QuotasFixed(c, s.workers, InitialState(c).workers);
    assert forall w :: 0 <= w < c.N() ==> Of(c, Quotas, w, s.workers[w]) == c.quotas[w];
    if p.total > 0 {
      Percentage(p.recv, p.total);
    }
  }

  lemma Percentage(part: nat, whole: nat)
    requires part <= whole && whole > 0
    ensures 0 <= part * 100 / whole <= 100
  {
    var q := part * 100 / whole;
    assert part * 100 == whole * q + part * 100 % whole;
    if q > 100 {
      Monotone(whole, 101, q);
    }
  }

  function CountFailed(tasks: seq<Task>): nat {
    if tasks == [] then 0 else CountFailed(Init(tasks)) + if Last(tasks) == Finished(false) then 1 else 0
  }

  lemma {:induction false} OkOrFailed(tasks: seq<Task>)
    requires forall i :: 0 <= i < |tasks| ==> tasks[i].Finished?
    ensures CountOk(tasks) + CountFailed(tasks) == |tasks|
  {
    if tasks != [] {
      OkOrFailed(Init(tasks));
    }
  }

  /** At the end of a full run every request was sent, the received count is the
      number of successful results, results and errors of each function add up to
      its quota, and the offload counter is what the scheduler promises. */
  lemma FinalAccounts(c: Config, steps: seq<Step>)
    requires c.Valid() && !c.oneshot && Final(c, Run(c, steps))
    ensures var s := Run(c, steps);
            && s.counters.sent == s.counters.total == GrandTotal(c)
            && s.counters.recv == Sum(c, OkTasks, s.workers)
            && s.counters.ndp == Sum(c, NdpTasks, s.workers)
            && forall w :: 0 <= w < c.N() ==>
                 && CountOk(s.workers[w].tasks) + CountFailed(s.workers[w].tasks) == c.quotas[w]
                 && Of(c, NdpTasks, w, s.workers[w]) == OffloadCount(c.nums[w], c.den, c.quotas[w])
  {
    hide Run, Sum, CountArrived, CountOk, CountFailed, CountSent, OffloadCount;
    ReachableInv(c, steps);
    CountersOrdered(c, steps);
    var s := Run(c, steps);
    forall w | 0 <= w < c.N()
      ensures Of(c, Quotas, w, s.workers[w]) == Of(c, SentTasks, w, s.workers[w])
      ensures CountOk(s.workers[w].tasks) + CountFailed(s.workers[w].tasks) == c.quotas[w]
      ensures Of(c, NdpTasks, w, s.workers[w]) == OffloadCount(c.nums[w], c.den, c.quotas[w])
    {
      assert At(s.seats[w], c.Waits());
      assert WorkerInv(c.quotas[w], s.seats[w], s.workers[w]);
      CountsBounds(s.workers[w].tasks);
      OkOrFailed(s.workers[w].tasks);
    }
    SumLe(c, Quotas, SentTasks, s.workers);
    QuotasFixed(c, s.workers, InitialState(c).workers);
  }

  // ---- The crash on a total of zero

  /** No step is left once the process has aborted or the run is over. */
  lemma NothingAfterTheEnd(c: Config, steps: seq<Step>, step: Step)
    requires c.Valid() && (Final(c, Run(c, steps)) || Run(c, steps).progress.Crashed?)
    ensures !Enabled(c, Run(c, steps), step)
  {
    hide Run, CountArrived, SumsInv;
    ReachableInv(c, steps);
    var s := Run(c, steps);
    if !s.progress.Crashed? {
      assert At(s.seats[c.N()], c.Waits());
      if step.SendTask? || step.FinishTask? {
        if step.w < c.N() {
          assert At(s.seats[step.w], c.Waits()) && WorkerInv(c.quotas[step.w], s.seats[step.w], s.workers[step.w]);
        }
      }
    }
  }

  /** A reader that will divide by zero, or has done so. */
  predicate Doomed(c: Config, s: State)
    requires c.Valid()
  {
    GrandTotal(c) == 0 && !s.progress.NotStarted? && !s.progress.AtDone? && !s.progress.Ended?
  }

  lemma CrashNeedsNoRequests(c: Config, steps: seq<Step>)
    requires c.Valid() && Run(c, steps).progress.Crashed?
    ensures !c.oneshot && GrandTotal(c) == 0
  {
    hide Run, Sum, SumsInv, CountArrived;
    ReachableInv(c, steps);
    CountersOrdered(c, steps);
    StartedIsFull(c, steps);
  }

  lemma StartedIsFull(c: Config, steps: seq<Step>)
    requires c.Valid() && !Run(c, steps).progress.NotStarted?
    ensures !c.oneshot
  {
    hide Run, Sum, SumsInv, CountArrived;
    ReachableInv(c, steps);
    var s := Run(c, steps);
    assert SeatInv(c, s.generation, s.seats[c.N()]);
  }

  /** A reader past its first look at the flag never comes back if the total is zero. */
  lemma DoomedStays(c: Config, steps: seq<Step>, step: Step)
    requires c.Valid() && Doomed(c, Run(c, steps)) && Enabled(c, Run(c, steps), step)
    ensures Doomed(c, Next(c, Run(c, steps), step))
  {
    hide Run, Sum, SumsInv, CountArrived, GrandTotal, Offloaded;
    ReachableInv(c, steps);
    CountersOrdered(c, steps);
  }

  lemma {:induction false} DoomedNeverFinishes(c: Config, steps: seq<Step>, more: seq<Step>)
    requires c.Valid() && Doomed(c, Run(c, steps))
    ensures Doomed(c, Run(c, steps + more)) && !Final(c, Run(c, steps + more))
  {
    hide Enabled, Next, Doomed, Final;
    if more == [] {
      assert steps + more == steps;
    } else {
      assert Init(steps + more) == steps + Init(more);
      DoomedNeverFinishes(c, steps, Init(more));
      if Enabled(c, Run(c, steps + Init(more)), Last(more)) {
        DoomedStays(c, steps + Init(more), Last(more));
      }
    }
    DoomedIsNotFinal(c, steps + more);
  }

  lemma DoomedIsNotFinal(c: Config, steps: seq<Step>)
    requires c.Valid() && Doomed(c, Run(c, steps))
    ensures !Final(c, Run(c, steps))
  {
    hide Run, Sum, SumsInv, CountArrived;
    ReachableInv(c, steps);
    StartedIsFull(c, steps);
  }

  // ---- Progress

  /** A turn of the progress reader while the run is not yet done: it only reads. */
  predicate IdlePoll(s: State, step: Step) {
    step.Poll? && !s.coordinator.done && !(s.progress.AtPrint? && s.progress.total == 0)
  }

  /** A worker that is past its first wait of a generation and not blocked can do
      something, or one of its tasks can. */
  lemma WorkerCanMove(c: Config, s: State, w: nat) returns (step: Step)
    requires Inv(c, s) && !s.progress.Crashed?
    requires w < c.N() && !s.seats[w].blocked && s.seats[w].waits < c.Waits()
    ensures Enabled(c, s, step) && !step.Poll?
    ensures s.seats[w].waits < 3 ==> step == AddTotal(w) || step == Arrive(w)
  {
    hide BarrierInv, CoordinatorInv, SumsInv, SnapshotInv;
    var worker, quota := s.workers[w], c.quotas[w];
    assert WorkerInv(quota, s.seats[w], worker);
    if s.seats[w].waits == 2 && !worker.added {
      step := AddTotal(w);
    } else if s.seats[w].waits == 3 && |worker.tasks| < quota {
      step := Spawn(w);
    } else if s.seats[w].waits == 3 && worker.joined < quota {
      match worker.tasks[worker.joined]
      case Spawned => step := SendTask(w, worker.joined);
      case Sent => step := FinishTask(w, worker.joined, true);
      case Finished(_) => step := JoinTask(w);
    } else {
      step := Arrive(w);
    }
  }

  lemma CoordinatorCanMove(c: Config, s: State) returns (step: Step)
    requires Inv(c, s) && !s.progress.Crashed?
    requires !s.seats[c.N()].blocked && s.seats[c.N()].waits < c.Waits()
    ensures Enabled(c, s, step) && !step.Poll?
    ensures s.seats[c.N()].waits < 3 ==> step.BeginMonitor? || step == Arrive(c.N())
  {
    hide BarrierInv, WorkersInv, SumsInv, SnapshotInv;
    var lead := s.seats[c.N()];
    if lead.waits == 1 && s.coordinator.begins < c.Monitors() {
      step := BeginMonitor;
    } else if lead.waits == 3 && s.progress.NotStarted? {
      step := StartProgress;
    } else {
      step := Arrive(c.N());
    }
  }

  /** The protocol is free of deadlocks: in every reachable state some step other than
      an idle poll is enabled, unless the run is over or the process has aborted. */
  lemma NoDeadlock(c: Config, steps: seq<Step>) returns (step: Step)
    requires c.Valid() && !Final(c, Run(c, steps)) && !Run(c, steps).progress.Crashed?
    ensures Enabled(c, Run(c, steps), step) && !IdlePoll(Run(c, steps), step)
    ensures step.Poll? ==> Run(c, steps).coordinator.done
  {
    hide Run, CountArrived, SumsInv;
    ReachableInv(c, steps);
    var s := Run(c, steps);
    ArrivedBounds(s.seats, s.generation);
    if p :| 0 <= p <= c.N() && s.seats[p].blocked && s.seats[p].waits < s.generation {
      step := Resume(p);
    } else if p :| 0 <= p <= c.N() && !s.seats[p].blocked && s.seats[p].waits < c.Waits() {
      if p < c.N() {
        step := WorkerCanMove(c, s, p);
      } else {
        step := CoordinatorCanMove(c, s);
      }
    } else {
      AllReleased(c, s);
      var co := s.coordinator;
      if !co.done {
        step := SetDone;
      } else if co.ends < c.Monitors() {
        step := EndMonitor;
      } else if !co.progressJoined {
        step := if s.progress.Ended? then JoinProgress else Poll;
      } else {
        step := Collect;
      }
    }
  }

  lemma AllReleased(c: Config, s: State)
    requires BarrierInv(c, s)
    requires forall p :: 0 <= p <= c.N() && s.seats[p].blocked ==> s.seats[p].waits >= s.generation
    requires forall p :: 0 <= p <= c.N() && !s.seats[p].blocked ==> s.seats[p].waits >= c.Waits()
    ensures forall p :: 0 <= p <= c.N() ==> At(s.seats[p], c.Waits())
  {
    hide CountArrived;
    ArrivedBounds(s.seats, s.generation);
    forall p | 0 <= p <= c.N() ensures SeatInv(c, s.generation, s.seats[p]) {
    }
  }

  // ---- Termination

  function SeatEffort(c: Config, seat: Seat): nat {
    if seat.waits >= c.Waits() then 0
    else 2 * (c.Waits() - seat.waits) - if seat.blocked then 1 else 0
  }

  function SeatsEffort(c: Config, seats: seq<Seat>): nat {
    if seats == [] then 0 else SeatsEffort(c, Init(seats)) + SeatEffort(c, Last(seats))
  }

  function CoordinatorEffort(c: Config, s: State): nat {
    var co := s.coordinator;
    (if co.begins < c.Monitors() then c.Monitors() - co.begins else 0)
    + (if s.progress.NotStarted? then 1 else 0)
    + (if co.done then 0 else 1)
    + (if co.ends < c.Monitors() then c.Monitors() - co.ends else 0)
    + (if co.progressJoined then 0 else 1)
    + (if co.collected < c.N() then c.N() - co.collected else 0)
  }

  /** How far the progress reader is from noticing that the run is done. */
  function ReaderEffort(s: State): nat {
    if s.progress.Crashed? then 0
    else if !s.coordinator.done then 5
    else
      match s.progress
      case NotStarted => 0
      case AtDone => 1
      case AtTotal => 5
      case AtSent(_) => 4
      case AtRecv(_, _) => 3
      case AtPrint(_, _, _) => 2
      case Ended => 0
      case Crashed => 0
  }

  /** A bound on the steps still to come, not counting idle polls. */
  function Remaining(c: Config, s: State): nat
    requires Shaped(c, s)
  {
    6 * (SeatsEffort(c, s.seats) + Sum(c, Effort, s.workers) + CoordinatorEffort(c, s)) + ReaderEffort(s)
  }

  lemma {:induction false} SeatsEffortUpdate(c: Config, seats: seq<Seat>, p: nat, seat: Seat)
    requires p < |seats|
    ensures SeatsEffort(c, seats[p := seat]) == SeatsEffort(c, seats) - SeatEffort(c, seats[p]) + SeatEffort(c, seat)
  {
    hide SeatEffort;
    var u := seats[p := seat];
    if p == |seats| - 1 {
      assert Init(u) == Init(seats);
    } else {
      assert Init(u) == Init(seats)[p := seat];
      SeatsEffortUpdate(c, Init(seats), p, seat);
    }
  }

  lemma SeatStepCounts(c: Config, s: State, step: Step)
    requires Inv(c, s) && Enabled(c, s, step) && (step.Arrive? || step.Resume?)
    ensures SeatsEffort(c, Next(c, s, step).seats) < SeatsEffort(c, s.seats)
  {
    hide SeatsEffort, CountArrived, SumsInv, WorkerInv, CoordinatorInv;
    var p := step.p;
    assert SeatInv(c, s.generation, s.seats[p]);
    SeatsEffortUpdate(c, s.seats, p, Next(c, s, step).seats[p]);
  }

  predicate IsWorkerStep(step: Step) {
    step.AddTotal? || step.Spawn? || step.SendTask? || step.FinishTask? || step.JoinTask?
  }

  lemma WorkerStepCounts(c: Config, s: State, step: Step)
    requires Inv(c, s) && Enabled(c, s, step) && IsWorkerStep(step)
    ensures Sum(c, Effort, Next(c, s, step).workers) < Sum(c, Effort, s.workers)
  {
    hide Sum, CountArrived, SumsInv, BarrierInv, CoordinatorInv, CountSent, CountOk, TaskEffort, Offloaded;
    var w := step.w;
    var worker := s.workers[w];
    var tasks := worker.tasks;
    assert WorkerInv(c.quotas[w], s.seats[w], worker);
    SumUpdate(c, Effort, s.workers, w, Next(c, s, step).workers[w]);
    match step
    case Spawn(_) => CountsSnoc(tasks);
    case SendTask(_, i) => CountsUpdate(tasks, i, Sent);
    case FinishTask(_, i, ok) => CountsUpdate(tasks, i, Finished(ok));
    case _ =>
  }

  lemma LeadStepCounts(c: Config, s: State, step: Step)
    requires Shaped(c, s) && CoordinatorInv(c, s) && Enabled(c, s, step)
    requires !step.Arrive? && !step.Resume? && !IsWorkerStep(step)
    ensures var r := Next(c, s, step);
            var before, after := 6 * CoordinatorEffort(c, s) + ReaderEffort(s), 6 * CoordinatorEffort(c, r) + ReaderEffort(r);
            && r.seats == s.seats && r.workers == s.workers
            && if IdlePoll(s, step) then after == before else after < before
  {
  }

  lemma StepTouches(c: Config, s: State, step: Step)
    requires Shaped(c, s) && Enabled(c, s, step)
    ensures var r := Next(c, s, step);
            && (step.Arrive? || step.Resume? || IsWorkerStep(step) ==> r.coordinator == s.coordinator && r.progress == s.progress)
            && (step.Arrive? || step.Resume? ==> r.workers == s.workers)
            && (IsWorkerStep(step) ==> r.seats == s.seats)
  {
    hide Offloaded, TaskEffort, CountSent, CountOk, WorkerReady, CoordinatorReady;
  }

  lemma SameLeadSameEffort(c: Config, r: State, s: State)
    requires r.coordinator == s.coordinator && r.progress == s.progress
    ensures CoordinatorEffort(c, r) == CoordinatorEffort(c, s) && ReaderEffort(r) == ReaderEffort(s)
  {
  }

  /** Every step except an idle poll brings the end of the run closer, and an idle
      poll changes nothing. */
  lemma StepCounts(c: Config, s: State, step: Step)
    requires Inv(c, s) && Enabled(c, s, step)
    ensures if IdlePoll(s, step) then Remaining(c, Next(c, s, step)) == Remaining(c, s)
            else Remaining(c, Next(c, s, step)) < Remaining(c, s)
  {
    hide Sum, SeatsEffort, SumsInv, BarrierInv, WorkersInv, CoordinatorInv, Next, Enabled, CoordinatorEffort, ReaderEffort;
    StepTouches(c, s, step);
    if step.Arrive? || step.Resume? {
      SameLeadSameEffort(c, Next(c, s, step), s);
      SeatStepCounts(c, s, step);
    } else if IsWorkerStep(step) {
      SameLeadSameEffort(c, Next(c, s, step), s);
      WorkerStepCounts(c, s, step);
    } else {
      LeadStepCounts(c, s, step);
    }
  }

  /** The steps of a run that were taken and were not idle polls. */
  function WorkDone(c: Config, steps: seq<Step>): nat
    requires c.Valid()
  {
    if steps == [] then 0
    else
      var s := Run(c, Init(steps));
      WorkDone(c, Init(steps)) + if Enabled(c, s, Last(steps)) && !IdlePoll(s, Last(steps)) then 1 else 0
  }

  /** Apart from idle polls every run is finite, with a bound that is known from
      the start; together with the absence of deadlocks, every run that keeps
      taking steps other than idle polls reaches the final state. */
  lemma {:induction false} RunsAreFinite(c: Config, steps: seq<Step>)
    requires c.Valid()
    ensures WorkDone(c, steps) + Remaining(c, Run(c, steps)) <= Remaining(c, InitialState(c))
  {
    hide Remaining, Enabled, Next, IdlePoll, Inv;
    if steps != [] {
      RunsAreFinite(c, Init(steps));
      ReachableInv(c, Init(steps));
      var s := Run(c, Init(steps));
      if Enabled(c, s, Last(steps)) {
        StepCounts(c, s, Last(steps));
      }
    }
  }

  /** From every reachable state that is not doomed the run can be completed: the reader
      may find the run done before it divides. */
  lemma {:induction false} CanFinish(c: Config, steps: seq<Step>) returns (more: seq<Step>)
    requires c.Valid() && !Doomed(c, Run(c, steps))
    ensures Final(c, Run(c, steps + more))
    decreases Remaining(c, Run(c, steps))
  {
    hide Remaining, Enabled, Next, IdlePoll, Inv, Final, GrandTotal;
    if Final(c, Run(c, steps)) {
      more := [];
      assert steps + more == steps;
    } else {
      if Run(c, steps).progress.Crashed? {
        CrashNeedsNoRequests(c, steps);
      }
      var step := NoDeadlock(c, steps);
      ReachableInv(c, steps);
      StepCounts(c, Run(c, steps), step);
      assert Init(steps + [step]) == steps;
      StaysClear(c, steps, step);
      var rest := CanFinish(c, steps + [step]);
      more := [step] + rest;
      assert steps + more == steps + [step] + rest;
    }
  }

  /** Only a poll before the end of the run dooms the reader. */
  lemma StaysClear(c: Config, steps: seq<Step>, step: Step)
    requires c.Valid() && !Doomed(c, Run(c, steps)) && Enabled(c, Run(c, steps), step)
    requires step.Poll? ==> Run(c, steps).coordinator.done
    ensures !Doomed(c, Next(c, Run(c, steps), step))
  {
    hide Run, GrandTotal, Offloaded;
  }

  /** A reachable state can be completed exactly when it is not doomed. */
  lemma CanFinishExactly(c: Config, steps: seq<Step>)
    requires c.Valid()
    ensures (exists more :: Final(c, Run(c, steps + more))) <==> !Doomed(c, Run(c, steps))
  {
    hide Run, Final, Doomed;
    if Doomed(c, Run(c, steps)) {
      forall more ensures !Final(c, Run(c, steps + more)) {
        DoomedNeverFinishes(c, steps, more);
      }
    } else {
      var more := CanFinish(c, steps);
      assert Final(c, Run(c, steps + more));
    }
  }

  // ---- What the progress reader can meet

  lemma Extend(c: Config, steps: seq<Step>, step: Step)
    requires c.Valid() && Enabled(c, Run(c, steps), step)
    ensures Run(c, steps + [step]) == Next(c, Run(c, steps), step)
  {
    assert Init(steps + [step]) == steps;
  }

  /** Before the reader starts and before any request. */
  predicate Early(c: Config, s: State)
    requires Shaped(c, s)
  {
    s.progress.NotStarted? && forall w :: 0 <= w < c.N() ==> s.workers[w].tasks == []
  }

  /** Until the coordinator can start the reader, some step towards that is enabled. */
  lemma EarlyStep(c: Config, steps: seq<Step>) returns (step: Step)
    requires c.Valid() && !c.oneshot && Early(c, Run(c, steps)) && !At(Run(c, steps).seats[c.N()], 3)
    ensures Enabled(c, Run(c, steps), step) && !IdlePoll(Run(c, steps), step)
    ensures Early(c, Next(c, Run(c, steps), step))
  {
    hide Run, CountArrived, SumsInv, Offloaded;
    ReachableInv(c, steps);
    var s := Run(c, steps);
    var lead := s.seats[c.N()];
    assert SeatInv(c, s.generation, lead);
    if !lead.blocked {
      step := CoordinatorCanMove(c, s);
    } else if lead.waits < s.generation {
      step := Resume(c.N());
    } else {
      ArrivedBounds(s.seats, s.generation);
      var p :| 0 <= p <= c.N() && !(s.seats[p].blocked && s.seats[p].waits == s.generation);
      assert SeatInv(c, s.generation, s.seats[p]);
      if s.seats[p].blocked {
        step := Resume(p);
      } else {
        step := WorkerCanMove(c, s, p);
      }
    }
  }

  lemma {:induction false} ReachStart(c: Config, steps: seq<Step>) returns (more: seq<Step>)
    requires c.Valid() && !c.oneshot && Early(c, Run(c, steps))
    ensures var s := Run(c, more); Early(c, s) && At(s.seats[c.N()], 3)
    decreases Remaining(c, Run(c, steps))
  {
    hide Remaining, Enabled, Next, IdlePoll, Inv, Early, Run;
    if At(Run(c, steps).seats[c.N()], 3) {
      more := steps;
    } else {
      var step := EarlyStep(c, steps);
      ReachableInv(c, steps);
      StepCounts(c, Run(c, steps), step);
      Extend(c, steps, step);
      more := ReachStart(c, steps + [step]);
    }
  }

  /** The reader has started and loaded the total and the sent count, before any request. */
  lemma ReachLoads(c: Config) returns (steps: seq<Step>)
    requires c.Valid() && !c.oneshot
    ensures var s := Run(c, steps);
            && s.progress == AtRecv(GrandTotal(c), 0) && s.counters.recv == 0 && !s.coordinator.done
            && At(s.seats[c.N()], 3) && forall w :: 0 <= w < c.N() ==> s.workers[w].tasks == []
  {
    hide Run, Sum, SumsInv, Offloaded, GrandTotal;
    StartOfRun(c);
    steps := ReachStart(c, []);
    ReachableInv(c, steps);
    var start := Run(c, steps);
    NoTasksNoCounts(c, start);
    Extend(c, steps, StartProgress);
    steps := steps + [StartProgress];
    CountersOrdered(c, steps);
    Extend(c, steps, Poll);
    steps := steps + [Poll];
    Extend(c, steps, Poll);
    steps := steps + [Poll];
    Extend(c, steps, Poll);
    steps := steps + [Poll];
  }

  lemma StartOfRun(c: Config)
    requires c.Valid()
    ensures Run(c, []) == InitialState(c) && Early(c, InitialState(c))
  {
  }

  lemma NoTasksNoCounts(c: Config, s: State)
    requires Inv(c, s) && forall w :: 0 <= w < c.N() ==> s.workers[w].tasks == []
    ensures s.counters.sent == 0 && s.counters.recv == 0
  {
    hide Sum;
    SumZero(c, SentTasks, s.workers);
    SumZero(c, OkTasks, s.workers);
  }

  /** The process can abort exactly in a full run without a single request. */
  lemma CrashExactly(c: Config)
    requires c.Valid()
    ensures (exists steps :: Run(c, steps).progress.Crashed?) <==> !c.oneshot && GrandTotal(c) == 0
  {
    hide Run, GrandTotal;
    if steps :| Run(c, steps).progress.Crashed? {
      CrashNeedsNoRequests(c, steps);
    }
    if !c.oneshot && GrandTotal(c) == 0 {
      var steps := ReachLoads(c);
      Extend(c, steps, Poll);
      Extend(c, steps + [Poll], Poll);
      assert Run(c, steps + [Poll] + [Poll]).progress.Crashed?;
    }
  }

  /** The three counters are loaded one after the other: a printed line can show more
      requests received than sent exactly in a full run with at least one request. */
  lemma PrintedLineOutOfOrderExactly(c: Config)
    requires c.Valid()
    ensures (exists steps :: Run(c, steps).progress.AtPrint? && Run(c, steps).progress.recv > Run(c, steps).progress.sent)
            <==> !c.oneshot && GrandTotal(c) > 0
  {
    hide Run, GrandTotal, Sum, SumsInv, CountArrived;
    if steps :| Run(c, steps).progress.AtPrint? && Run(c, steps).progress.recv > Run(c, steps).progress.sent {
      ReachableInv(c, steps);
      CountersOrdered(c, steps);
      StartedIsFull(c, steps);
    }
    if !c.oneshot && GrandTotal(c) > 0 {
      var steps := OutOfOrder(c);
      assert Run(c, steps).progress.AtPrint? && Run(c, steps).progress.recv > Run(c, steps).progress.sent;
    }
  }

  lemma SomeQuota(c: Config) returns (w: nat)
    requires c.Valid() && GrandTotal(c) > 0
    ensures w < c.N() && c.quotas[w] > 0
  {
    hide Sum;
    SumZero(c, Quotas, InitialState(c).workers);
    w :| w < c.N() && Of(c, Quotas, w, InitialState(c).workers[w]) != 0;
  }

  /** After the sent count was loaded a request is sent and answered, and only then is
      the received count loaded. */
  lemma OutOfOrder(c: Config) returns (steps: seq<Step>)
    requires c.Valid() && !c.oneshot && GrandTotal(c) > 0
    ensures var p := Run(c, steps).progress;
            p.AtPrint? && p.recv > p.sent
  {
    hide Run, Offloaded, GrandTotal, Sum, SumsInv, CountArrived;
    var w := SomeQuota(c);
    steps := ReachLoads(c);
    ReachableInv(c, steps);
    var s := Run(c, steps);
    assert SeatInv(c, s.generation, s.seats[c.N()]) && SeatInv(c, s.generation, s.seats[w]);
    assert WorkerInv(c.quotas[w], s.seats[w], s.workers[w]);
    if s.seats[w].blocked {
      Extend(c, steps, Resume(w));
      steps := steps + [Resume(w)];
    }
    Extend(c, steps, Spawn(w));
    steps := steps + [Spawn(w)];
    Extend(c, steps, SendTask(w, 0));
    steps := steps + [SendTask(w, 0)];
    Extend(c, steps, FinishTask(w, 0, true));
    steps := steps + [FinishTask(w, 0, true)];
    Extend(c, steps, Poll);
    steps := steps + [Poll];
  }
}
