/**
 * The test runner's worker pool: worker threads on a shared input queue that
 * ends in one poison pill for each, and a main thread that dispatches,
 * collects and joins. All interleavings, with an interrupt at any moment.
 */
module WorkerPool {

  /** The number of workers, and for each job whether it is to be skipped. */
  datatype Plan = Plan(workers: nat, skip: seq<bool>)

  predicate PlanOk(p: Plan) {
    p.workers > 0
  }

  datatype Item = Job(id: nat) | Pill

  /** What comes back for a job: it may have been interrupted before it was looked at. */
  datatype Result = Interrupted | Skipped | Finished(returncode: int)

  datatype Return = Return(id: nat, result: Result)

  datatype Worker = Waiting | Holding(id: nat) | Returning(ret: Return) | Exited

  datatype Main = Dispatching(nextJob: nat) | Poisoning(pills: nat) | Collecting | Joining(thread: nat) | Ended

  datatype Pool = Pool(input: seq<Item>, output: seq<Return>, workers: seq<Worker>, main: Main, collected: seq<Return>, exit: bool)

  datatype Step = MainStep | WorkerStep(w: nat, returncode: int) | Interrupt

  function Start(p: Plan): Pool {
    Pool([], [], seq(p.workers, _ => Waiting), if |p.skip| == 0 then Poisoning(0) else Dispatching(0), [], false)
  }

  predicate Enabled(p: Plan, s: Pool, step: Step) {
    match step
    case Interrupt => !s.exit
    case MainStep =>
      (match s.main
       case Dispatching(_) => true
       case Poisoning(_) => true
       case Collecting => s.output != []
       case Joining(t) => t < |s.workers| && s.workers[t] == Exited
       case Ended => false)
    case WorkerStep(w, _) =>
      w < |s.workers| &&
      (match s.workers[w]
       case Waiting => s.input != []
       case Holding(_) => true
       case Returning(_) => true
       case Exited => false)
  }

  /** After the last job come the pills, after the last pill the results, after the last result the joins. */
  function AfterDispatch(p: Plan, next: nat): Main {
    if next < |p.skip| then Dispatching(next) else Poisoning(0)
  }

  function AfterPill(p: Plan, pills: nat): Main {
    if pills < p.workers then Poisoning(pills) else if |p.skip| == 0 then Joining(0) else Collecting
  }

  function AfterCollect(p: Plan, count: nat): Main {
    if count < |p.skip| then Collecting else Joining(0)
  }

  function AfterJoin(p: Plan, thread: nat): Main {
    if thread < p.workers then Joining(thread) else Ended
  }

  /** A worker with a job: give it back at once after an interrupt, skip it, or run it. */
  function Work(p: Plan, s: Pool, id: nat, returncode: int): Return {
    Return(id, if s.exit then Interrupted else if id < |p.skip| && p.skip[id] then Skipped else Finished(returncode))
  }

  function MainNext(p: Plan, s: Pool): Pool
    requires Enabled(p, s, MainStep)
  {
    match s.main
    case Dispatching(next) => s.(input := s.input + [Job(next)], main := AfterDispatch(p, next + 1))
    case Poisoning(pills) => s.(input := s.input + [Pill], main := AfterPill(p, pills + 1))
    case Collecting =>
      s.(output := s.output[1..], collected := s.collected + [s.output[0]], main := AfterCollect(p, |s.collected| + 1))
    case Joining(t) => s.(main := AfterJoin(p, t + 1))
  }

  function WorkerNext(p: Plan, s: Pool, w: nat, returncode: int): Pool
    requires Enabled(p, s, WorkerStep(w, returncode))
  {
    match s.workers[w]
    case Waiting =>
      var took := if s.input[0].Pill? then Exited else Holding(s.input[0].id);
      s.(input := s.input[1..], workers := s.workers[w := took])
    case Holding(id) => s.(workers := s.workers[w := Returning(Work(p, s, id, returncode))])
    case Returning(ret) => s.(output := s.output + [ret], workers := s.workers[w := Waiting])
  }

  function Next(p: Plan, s: Pool, step: Step): Pool
    requires Enabled(p, s, step)
  {
    match step
    case Interrupt => s.(exit := true)
    case MainStep => MainNext(p, s)
    case WorkerStep(w, returncode) => WorkerNext(p, s, w, returncode)
  }

  predicate Run(p: Plan, pools: seq<Pool>, steps: seq<Step>) {
    && |pools| == |steps| + 1
    && pools[0] == Start(p)
    && forall i :: 0 <= i < |steps| ==> Enabled(p, pools[i], steps[i]) && pools[i + 1] == Next(p, pools[i], steps[i])
  }

  // ---------- Where the jobs are ----------

  function JobsIn(q: seq<Item>, id: nat): nat {
    if q == [] then 0 else (if q[0] == Job(id) then 1 else 0) + JobsIn(q[1..], id)
  }

  function Pills(q: seq<Item>): nat {
    if q == [] then 0 else (if q[0].Pill? then 1 else 0) + Pills(q[1..])
  }

  function Has(w: Worker, id: nat): nat {
    if w == Holding(id) || (w.Returning? && w.ret.id == id) then 1 else 0
  }

  function InHands(ws: seq<Worker>, id: nat): nat {
    if ws == [] then 0 else Has(ws[0], id) + InHands(ws[1..], id)
  }

  function Gone(ws: seq<Worker>): nat {
    if ws == [] then 0 else (if ws[0].Exited? then 1 else 0) + Gone(ws[1..])
  }

  function Returned(rs: seq<Return>, id: nat): nat {
    if rs == [] then 0 else (if rs[0].id == id then 1 else 0) + Returned(rs[1..], id)
  }

  /** How often a job exists: queued, in a worker's hands, returned or collected. */
  function Copies(s: Pool, id: nat): nat {
    JobsIn(s.input, id) + InHands(s.workers, id) + Returned(s.output, id) + Returned(s.collected, id)
  }

  function Dispatched(p: Plan, s: Pool): nat {
    if s.main.Dispatching? then s.main.nextJob else |p.skip|
  }

  function PillsSent(p: Plan, s: Pool): nat {
    match s.main
    case Dispatching(_) => 0
    case Poisoning(pills) => pills
    case _ => p.workers
  }

  lemma {:induction false} InputSnoc(q: seq<Item>, x: Item, id: nat)
    ensures JobsIn(q + [x], id) == JobsIn(q, id) + if x == Job(id) then 1 else 0
    ensures Pills(q + [x]) == Pills(q) + if x.Pill? then 1 else 0
  {
    if q == [] {
      assert q + [x] == [x];
    } else {
      InputSnoc(q[1..], x, id);
      assert (q + [x])[0] == q[0] && (q + [x])[1..] == q[1..] + [x];
    }
  }

  lemma {:induction false} ReturnedSnoc(rs: seq<Return>, r: Return, id: nat)
    ensures Returned(rs + [r], id) == Returned(rs, id) + if r.id == id then 1 else 0
  {
    if rs == [] {
      assert rs + [r] == [r];
    } else {
      ReturnedSnoc(rs[1..], r, id);
      assert (rs + [r])[0] == rs[0] && (rs + [r])[1..] == rs[1..] + [r];
    }
  }

  lemma {:induction false} WorkerUpdate(ws: seq<Worker>, w: nat, x: Worker, id: nat)
    requires w < |ws|
    ensures InHands(ws[w := x], id) + Has(ws[w], id) == InHands(ws, id) + Has(x, id)
    ensures Gone(ws[w := x]) + (if ws[w].Exited? then 1 else 0) == Gone(ws) + if x.Exited? then 1 else 0
  {
    if w == 0 {
      assert ws[w := x][1..] == ws[1..];
    } else {
      WorkerUpdate(ws[1..], w - 1, x, id);
      assert ws[w := x][1..] == ws[1..][w - 1 := x];
    }
  }

  // ---------- The invariant ----------

  /** A job exists once from its dispatch on, and not before. */
  ghost predicate JobsOk(p: Plan, s: Pool) {
    forall id: nat :: Copies(s, id) == if id < Dispatched(p, s) then 1 else 0
  }

  /** No job stands behind a pill. */
  predicate JobsFirst(q: seq<Item>) {
    forall i, j :: 0 <= i < j < |q| && q[i].Pill? ==> q[j].Pill?
  }

  predicate OnlyPills(q: seq<Item>) {
    forall i :: 0 <= i < |q| ==> q[i].Pill?
  }

  /** Every pill sent is still queued or has ended a worker, and the first pill is taken after the last job. */
  predicate PillsOk(p: Plan, s: Pool) {
    && |s.workers| == p.workers
    && Pills(s.input) + Gone(s.workers) == PillsSent(p, s)
    && JobsFirst(s.input)
    && (Gone(s.workers) > 0 ==> OnlyPills(s.input))
  }

  /** A result is what the job calls for; an interrupted one only exists after an interrupt. */
  predicate Genuine(p: Plan, exit: bool, r: Return) {
    && r.id < |p.skip|
    && (r.result.Interrupted? ==> exit)
    && (r.result.Skipped? ==> p.skip[r.id])
    && (r.result.Finished? ==> !p.skip[r.id])
  }

  ghost predicate ResultsOk(p: Plan, s: Pool) {
    && (forall i :: 0 <= i < |s.input| && s.input[i].Job? ==> s.input[i].id < |p.skip|)
    && (forall i :: 0 <= i < |s.workers| && s.workers[i].Holding? ==> s.workers[i].id < |p.skip|)
    && (forall i :: 0 <= i < |s.workers| && s.workers[i].Returning? ==> Genuine(p, s.exit, s.workers[i].ret))
    && (forall i :: 0 <= i < |s.output| ==> Genuine(p, s.exit, s.output[i]))
    && (forall i :: 0 <= i < |s.collected| ==> Genuine(p, s.exit, s.collected[i]))
  }

  predicate MainOk(p: Plan, s: Pool) {
    && |s.workers| == p.workers
    && match s.main
       case Dispatching(n) => n < |p.skip| && s.collected == []
       case Poisoning(k) => k < p.workers && s.collected == []
       case Collecting => |s.collected| < |p.skip|
       case Joining(t) => t < p.workers && |s.collected| == |p.skip| && forall i :: 0 <= i < t ==> s.workers[i] == Exited
       case Ended => |s.collected| == |p.skip| && forall i :: 0 <= i < |s.workers| ==> s.workers[i] == Exited
  }

  ghost predicate PoolOk(p: Plan, s: Pool) {
    JobsOk(p, s) && PillsOk(p, s) && ResultsOk(p, s) && MainOk(p, s)
  }

  lemma {:induction false} NoPills(q: seq<Item>)
    requires Pills(q) == 0
    ensures forall i :: 0 <= i < |q| ==> q[i].Job?
  {
    if q != [] {
      NoPills(q[1..]);
      forall i | 0 <= i < |q|
        ensures q[i].Job?
      {
        if i > 0 {
          assert q[i] == q[1..][i - 1];
        }
      }
    }
  }

  lemma {:induction false} AllPills(q: seq<Item>, id: nat)
    requires OnlyPills(q)
    ensures JobsIn(q, id) == 0 && Pills(q) == |q|
  {
    if q != [] {
      AllPills(q[1..], id);
    }
  }

  lemma {:induction false} AllWaiting(ws: seq<Worker>, id: nat)
    requires forall i :: 0 <= i < |ws| ==> ws[i] == Waiting
    ensures InHands(ws, id) == 0 && Gone(ws) == 0 && HandsWeight(ws) == 0
  {
    if ws != [] {
      AllWaiting(ws[1..], id);
    }
  }

  lemma StartOk(p: Plan)
    requires PlanOk(p)
    ensures PoolOk(p, Start(p))
  {
    forall id: nat
      ensures Copies(Start(p), id) == 0 && Gone(Start(p).workers) == 0
    {
      AllWaiting(Start(p).workers, id);
    }
    assert Copies(Start(p), 0) == 0;
  }

  lemma MainKeepsJobs(p: Plan, s: Pool)
    requires PlanOk(p) && PoolOk(p, s) && Enabled(p, s, MainStep)
    ensures JobsOk(p, MainNext(p, s))
  {
    var s1 := MainNext(p, s);
    forall id: nat
      ensures Copies(s1, id) == if id < Dispatched(p, s1) then 1 else 0
    {
      assert Copies(s, id) == if id < Dispatched(p, s) then 1 else 0;
      match s.main
      case Dispatching(next) => InputSnoc(s.input, Job(next), id);
      case Poisoning(pills) => InputSnoc(s.input, Pill, id);
      case Collecting => ReturnedSnoc(s.collected, s.output[0], id);
      case Joining(t) =>
    }
  }

  lemma MainKeepsPills(p: Plan, s: Pool)
    requires PlanOk(p) && PoolOk(p, s) && Enabled(p, s, MainStep)
    ensures PillsOk(p, MainNext(p, s))
  {
    match s.main
    case Dispatching(next) =>
      InputSnoc(s.input, Job(next), 0);
      NoPills(s.input);
    case Poisoning(pills) =>
      InputSnoc(s.input, Pill, 0);
    case Collecting =>
    case Joining(t) =>
  }

  lemma MainKeeps(p: Plan, s: Pool)
    requires PlanOk(p) && PoolOk(p, s) && Enabled(p, s, MainStep)
    ensures PoolOk(p, MainNext(p, s))
  {
    MainKeepsJobs(p, s);
    MainKeepsPills(p, s);
  }

  lemma WorkerKeepsJobs(p: Plan, s: Pool, w: nat, returncode: int)
    requires PlanOk(p) && PoolOk(p, s) && Enabled(p, s, WorkerStep(w, returncode))
    ensures JobsOk(p, WorkerNext(p, s, w, returncode))
  {
    var s1 := WorkerNext(p, s, w, returncode);
    forall id: nat
      ensures Copies(s1, id) == Copies(s, id)
    {
      WorkerUpdate(s.workers, w, s1.workers[w], id);
      if s.workers[w].Returning? {
        ReturnedSnoc(s.output, s.workers[w].ret, id);
      }
    }
    assert forall id: nat :: Copies(s, id) == if id < Dispatched(p, s) then 1 else 0;
  }

  lemma WorkerKeepsPills(p: Plan, s: Pool, w: nat, returncode: int)
    requires PlanOk(p) && PoolOk(p, s) && Enabled(p, s, WorkerStep(w, returncode))
    ensures PillsOk(p, WorkerNext(p, s, w, returncode))
  {
    WorkerUpdate(s.workers, w, WorkerNext(p, s, w, returncode).workers[w], 0);
  }

  lemma WorkerKeeps(p: Plan, s: Pool, w: nat, returncode: int)
    requires PlanOk(p) && PoolOk(p, s) && Enabled(p, s, WorkerStep(w, returncode))
    ensures PoolOk(p, WorkerNext(p, s, w, returncode))
  {
    WorkerKeepsJobs(p, s, w, returncode);
    WorkerKeepsPills(p, s, w, returncode);
  }

  lemma InterruptKeeps(p: Plan, s: Pool)
    requires PlanOk(p) && PoolOk(p, s)
    ensures PoolOk(p, s.(exit := true))
  {
    assert forall id: nat :: Copies(s.(exit := true), id) == Copies(s, id);
  }

  lemma {:induction false} PoolAlwaysOk(p: Plan, pools: seq<Pool>, steps: seq<Step>, i: nat)
    requires PlanOk(p) && Run(p, pools, steps) && i < |pools|
    ensures PoolOk(p, pools[i])
  {
    if i == 0 {
      StartOk(p);
    } else {
      PoolAlwaysOk(p, pools, steps, i - 1);
      match steps[i - 1]
      case Interrupt => InterruptKeeps(p, pools[i - 1]);
      case MainStep => MainKeeps(p, pools[i - 1]);
      case WorkerStep(w, returncode) => WorkerKeeps(p, pools[i - 1], w, returncode);
    }
  }

  // ---------- Counting ----------

  function SumReturned(rs: seq<Return>, n: nat): nat {
    if n == 0 then 0 else SumReturned(rs, n - 1) + Returned(rs, n - 1)
  }

  lemma {:induction false} SumCons(r: Return, rest: seq<Return>, n: nat)
    ensures SumReturned([r] + rest, n) == SumReturned(rest, n) + if r.id < n then 1 else 0
  {
    if n > 0 {
      SumCons(r, rest, n - 1);
      assert ([r] + rest)[1..] == rest;
    }
  }

  /** Results for the ids below `n` add up to the number of results. */
  lemma {:induction false} SumIsLength(rs: seq<Return>, n: nat)
    requires forall i :: 0 <= i < |rs| ==> rs[i].id < n
    ensures SumReturned(rs, n) == |rs|
  {
    if rs == [] {
      SumIsNone([], n);
    } else {
      SumIsLength(rs[1..], n);
      SumCons(rs[0], rs[1..], n);
      assert rs == [rs[0]] + rs[1..];
    }
  }

  lemma {:induction false} SumIsNone(rs: seq<Return>, n: nat)
    requires forall id: nat :: id < n ==> Returned(rs, id) == 0
    ensures SumReturned(rs, n) == 0
  {
    if n > 0 {
      SumIsNone(rs, n - 1);
    }
  }

  /** With at most one result each: all are there exactly when there are `n`. */
  lemma {:induction false} OneEach(rs: seq<Return>, n: nat)
    requires forall id: nat :: id < n ==> Returned(rs, id) <= 1
    ensures SumReturned(rs, n) <= n
    ensures SumReturned(rs, n) == n ==> forall id: nat :: id < n ==> Returned(rs, id) == 1
    ensures SumReturned(rs, n) < n ==> exists id: nat :: id < n && Returned(rs, id) == 0
  {
    if n > 0 {
      OneEach(rs, n - 1);
      assert Returned(rs, n - 1) <= 1;
    }
  }

  lemma {:induction false} InSomeHands(ws: seq<Worker>, id: nat)
    requires InHands(ws, id) > 0
    ensures exists w :: 0 <= w < |ws| && (ws[w].Holding? || ws[w].Returning?)
  {
    if Has(ws[0], id) == 0 {
      InSomeHands(ws[1..], id);
      var w :| 0 <= w < |ws[1..]| && (ws[1..][w].Holding? || ws[1..][w].Returning?);
      assert ws[w + 1] == ws[1..][w];
    }
  }

  lemma {:induction false} SomeLeft(ws: seq<Worker>, w: nat)
    requires w < |ws| && !ws[w].Exited?
    ensures Gone(ws) < |ws|
  {
    GoneBound(ws[1..]);
    if w > 0 {
      SomeLeft(ws[1..], w - 1);
    }
  }

  lemma {:induction false} GoneBound(ws: seq<Worker>)
    ensures Gone(ws) <= |ws|
    ensures Gone(ws) == 0 ==> forall i :: 0 <= i < |ws| ==> !ws[i].Exited?
    ensures (forall i :: 0 <= i < |ws| ==> ws[i].Exited?) ==> Gone(ws) == |ws|
  {
    if ws != [] {
      GoneBound(ws[1..]);
      if Gone(ws) == 0 {
        forall i | 0 <= i < |ws|
          ensures !ws[i].Exited?
        {
          assert i > 0 ==> ws[i] == ws[1..][i - 1];
        }
      }
    }
  }

  // ---------- No deadlock ----------

  /** Some thread can make a step. */
  ghost predicate CanGoOn(p: Plan, s: Pool) {
    Enabled(p, s, MainStep) || exists w :: Enabled(p, s, WorkerStep(w, 0))
  }

  lemma CollectedOnce(p: Plan, s: Pool)
    requires JobsOk(p, s)
    ensures forall id: nat :: Returned(s.collected, id) <= 1
  {
    forall id: nat
      ensures Returned(s.collected, id) <= 1
    {
      assert Copies(s, id) <= 1;
    }
  }

  lemma CollectingGoesOn(p: Plan, s: Pool)
    requires PlanOk(p) && PoolOk(p, s) && s.main == Collecting
    ensures CanGoOn(p, s)
  {
    if s.output == [] {
      SumIsLength(s.collected, |p.skip|);
      CollectedOnce(p, s);
      OneEach(s.collected, |p.skip|);
      var id: nat :| id < |p.skip| && Returned(s.collected, id) == 0;
      assert Copies(s, id) == 1;
      if InHands(s.workers, id) > 0 {
        InSomeHands(s.workers, id);
        var w :| 0 <= w < |s.workers| && (s.workers[w].Holding? || s.workers[w].Returning?);
        assert Enabled(p, s, WorkerStep(w, 0));
      } else {
        if OnlyPills(s.input) {
          AllPills(s.input, id);
        }
        GoneBound(s.workers);
        assert Enabled(p, s, WorkerStep(0, 0));
      }
    }
  }

  lemma JoiningGoesOn(p: Plan, s: Pool)
    requires PlanOk(p) && PoolOk(p, s) && s.main.Joining?
    ensures CanGoOn(p, s)
  {
    var t := s.main.thread;
    if s.workers[t] != Exited {
      SomeLeft(s.workers, t);
      assert Enabled(p, s, WorkerStep(t, 0));
    }
  }

  /** As long as the main thread has not ended, some thread can go on: no get blocks for ever. */
  lemma NoDeadlock(p: Plan, pools: seq<Pool>, steps: seq<Step>, i: nat)
    requires PlanOk(p) && Run(p, pools, steps) && i < |pools|
    ensures pools[i].main.Ended? || CanGoOn(p, pools[i])
  {
    PoolAlwaysOk(p, pools, steps, i);
    match pools[i].main
    case Dispatching(_) => assert Enabled(p, pools[i], MainStep);
    case Poisoning(_) => assert Enabled(p, pools[i], MainStep);
    case Collecting => CollectingGoesOn(p, pools[i]);
    case Joining(_) => JoiningGoesOn(p, pools[i]);
    case Ended =>
  }

  // ---------- Termination ----------

  function InputWeight(q: seq<Item>): nat {
    if q == [] then 0 else (if q[0].Job? then 4 else 1) + InputWeight(q[1..])
  }

  function HandWeight(w: Worker): nat {
    match w
    case Holding(_) => 3
    case Returning(_) => 2
    case _ => 0
  }

  function HandsWeight(ws: seq<Worker>): nat {
    if ws == [] then 0 else HandWeight(ws[0]) + HandsWeight(ws[1..])
  }

  function JoinsLeft(p: Plan, s: Pool): int {
    match s.main
    case Joining(t) => p.workers - t
    case Ended => 0
    case _ => p.workers
  }

  /** What is still to be done: every step takes some of it. */
  function Measure(p: Plan, s: Pool): int {
    5 * (|p.skip| - Dispatched(p, s)) + 2 * (p.workers - PillsSent(p, s)) + InputWeight(s.input) + HandsWeight(s.workers)
    + |s.output| + JoinsLeft(p, s) + (if s.exit then 0 else 1)
  }

  lemma {:induction false} InputWeightSnoc(q: seq<Item>, x: Item)
    ensures InputWeight(q + [x]) == InputWeight(q) + if x.Job? then 4 else 1
  {
    if q == [] {
      assert q + [x] == [x];
    } else {
      InputWeightSnoc(q[1..], x);
      assert (q + [x])[0] == q[0] && (q + [x])[1..] == q[1..] + [x];
    }
  }

  lemma {:induction false} HandsWeightUpdate(ws: seq<Worker>, w: nat, x: Worker)
    requires w < |ws|
    ensures HandsWeight(ws[w := x]) + HandWeight(ws[w]) == HandsWeight(ws) + HandWeight(x)
  {
    if w == 0 {
      assert ws[w := x][1..] == ws[1..];
    } else {
      HandsWeightUpdate(ws[1..], w - 1, x);
      assert ws[w := x][1..] == ws[1..][w - 1 := x];
    }
  }

  lemma MainTakes(p: Plan, s: Pool)
    requires PlanOk(p) && PoolOk(p, s) && Enabled(p, s, MainStep)
    ensures Measure(p, MainNext(p, s)) < Measure(p, s)
  {
    if s.main.Dispatching? {
      InputWeightSnoc(s.input, Job(s.main.nextJob));
    } else if s.main.Poisoning? {
      InputWeightSnoc(s.input, Pill);
    }
  }

  lemma WorkerTakes(p: Plan, s: Pool, w: nat, returncode: int)
    requires PlanOk(p) && PoolOk(p, s) && Enabled(p, s, WorkerStep(w, returncode))
    ensures Measure(p, WorkerNext(p, s, w, returncode)) < Measure(p, s)
  {
    HandsWeightUpdate(s.workers, w, WorkerNext(p, s, w, returncode).workers[w]);
  }

  lemma StepTakes(p: Plan, s: Pool, step: Step)
    requires PlanOk(p) && PoolOk(p, s) && Enabled(p, s, step)
    ensures Measure(p, Next(p, s, step)) < Measure(p, s)
  {
    match step
    case Interrupt =>
    case MainStep => MainTakes(p, s);
    case WorkerStep(w, returncode) => WorkerTakes(p, s, w, returncode);
  }

  lemma RunTakes(p: Plan, pools: seq<Pool>, steps: seq<Step>, i: nat)
    requires PlanOk(p) && Run(p, pools, steps) && i < |steps|
    ensures Measure(p, pools[i + 1]) < Measure(p, pools[i])
  {
    PoolAlwaysOk(p, pools, steps, i);
    StepTakes(p, pools[i], steps[i]);
  }

  lemma MeasureNotNegative(p: Plan, s: Pool)
    requires PlanOk(p) && PoolOk(p, s)
    ensures Measure(p, s) >= 0
  {
  }

  /** Every run is finite: no interleaving of J jobs and N workers makes more than 5 J + 3 N + 1 steps. */
  lemma {:induction false} RunsEnd(p: Plan, pools: seq<Pool>, steps: seq<Step>, i: nat)
    requires PlanOk(p) && Run(p, pools, steps) && i < |pools|
    ensures i + Measure(p, pools[i]) <= 5 * |p.skip| + 3 * p.workers + 1
    ensures i <= 5 * |p.skip| + 3 * p.workers + 1
  {
    if i == 0 {
      AllWaiting(Start(p).workers, 0);
    } else {
      RunsEnd(p, pools, steps, i - 1);
      RunTakes(p, pools, steps, i - 1);
    }
    PoolAlwaysOk(p, pools, steps, i);
    MeasureNotNegative(p, pools[i]);
  }

  /**
   * How every run ends: when no thread can go on, the main thread has ended, each
   * job has been collected exactly once with a genuine result, each worker has
   * taken its one pill, and nothing is left over.
   */
  lemma AllCollected(p: Plan, pools: seq<Pool>, steps: seq<Step>, id: nat)
    requires PlanOk(p) && Run(p, pools, steps) && !CanGoOn(p, pools[|steps|])
    ensures var s := pools[|steps|];
      && s.main.Ended? && s.input == [] && s.output == []
      && (forall w :: 0 <= w < |s.workers| ==> s.workers[w] == Exited)
      && |s.collected| == |p.skip|
      && (id < |p.skip| ==> Returned(s.collected, id) == 1)
      && forall i :: 0 <= i < |s.collected| ==> Genuine(p, s.exit, s.collected[i])
  {
    var s := pools[|steps|];
    NoDeadlock(p, pools, steps, |steps|);
    PoolAlwaysOk(p, pools, steps, |steps|);
    CollectedOnce(p, s);
    SumIsLength(s.collected, |p.skip|);
    OneEach(s.collected, |p.skip|);
    GoneBound(s.workers);
    AllPills(s.input, 0);
    forall i: nat | i < |p.skip|
      ensures Returned(s.output, i) == 0
    {
      assert Copies(s, i) == 1;
    }
    SumIsNone(s.output, |p.skip|);
    SumIsLength(s.output, |p.skip|);
  }

  // ---------- The summary ----------

  datatype Status = IsBreak | Skip | Pass | Fail | Valgrind | Crash

  function StatusOf(r: Result): Status {
    match r
    case Interrupted => IsBreak
    case Skipped => Skip
    case Finished(code) => if code == 0 then Pass else if code == 1 then Fail else if code == 2 then Valgrind else Crash
  }

  function HowMany(rs: seq<Return>, st: Status): nat {
    if rs == [] then 0
    else HowMany(rs[..|rs| - 1], st) + if StatusOf(rs[|rs| - 1].result) == st then 1 else 0
  }

  /** The collection loop: a counter for each status, and interrupted jobs in none of them. */
  method Summarize(rs: seq<Return>) returns (passed: nat, skipped: nat, failed: nat, crashed: nat, valgrind: nat)
    ensures passed == HowMany(rs, Pass) && skipped == HowMany(rs, Skip) && failed == HowMany(rs, Fail)
    ensures crashed == HowMany(rs, Crash) && valgrind == HowMany(rs, Valgrind)
    ensures passed + skipped + failed + crashed + valgrind + HowMany(rs, IsBreak) == |rs|
  {
    passed, skipped, failed, crashed, valgrind := 0, 0, 0, 0, 0;
    for i := 0 to |rs|
      invariant passed == HowMany(rs[..i], Pass) && skipped == HowMany(rs[..i], Skip) && failed == HowMany(rs[..i], Fail)
      invariant crashed == HowMany(rs[..i], Crash) && valgrind == HowMany(rs[..i], Valgrind)
      invariant passed + skipped + failed + crashed + valgrind + HowMany(rs[..i], IsBreak) == i
    {
      assert rs[..i + 1][..i] == rs[..i];
      var r := rs[i].result;
      if r.Interrupted? {
        continue;
      }
      if r.Skipped? {
        skipped := skipped + 1;
      } else if r.returncode == 0 {
        passed := passed + 1;
      } else if r.returncode == 1 {
        failed := failed + 1;
      } else if r.returncode == 2 {
        valgrind := valgrind + 1;
      } else {
        crashed := crashed + 1;
      }
    }
    assert rs[..|rs|] == rs;
  }

  /** Every result has one of the six statuses. */
  lemma {:induction false} StatusesAddUp(rs: seq<Return>)
    ensures HowMany(rs, Pass) + HowMany(rs, Skip) + HowMany(rs, Fail) + HowMany(rs, Crash) + HowMany(rs, Valgrind)
            + HowMany(rs, IsBreak) == |rs|
  {
    if rs != [] {
      StatusesAddUp(rs[..|rs| - 1]);
    }
  }

  /** At the end of every run the statuses of the collected jobs and the interrupted ones make up all the jobs. */
  lemma TotalsAreJobs(p: Plan, pools: seq<Pool>, steps: seq<Step>)
    requires PlanOk(p) && Run(p, pools, steps) && !CanGoOn(p, pools[|steps|])
    ensures var rs := pools[|steps|].collected;
      HowMany(rs, Pass) + HowMany(rs, Skip) + HowMany(rs, Fail) + HowMany(rs, Crash) + HowMany(rs, Valgrind)
      + HowMany(rs, IsBreak) == |p.skip|
  {
    AllCollected(p, pools, steps, 0);
    StatusesAddUp(pools[|steps|].collected);
  }

  lemma {:induction false} GenuineBreaks(p: Plan, rs: seq<Return>)
    requires forall i :: 0 <= i < |rs| ==> Genuine(p, false, rs[i])
    ensures HowMany(rs, IsBreak) == 0
  {
    if rs != [] {
      GenuineBreaks(p, rs[..|rs| - 1]);
    }
  }

  lemma {:induction false} ExitStaysDown(p: Plan, pools: seq<Pool>, steps: seq<Step>, i: nat)
    requires Run(p, pools, steps) && i < |pools|
    requires forall k :: 0 <= k < i ==> steps[k] != Interrupt
    ensures !pools[i].exit
  {
    if i > 0 {
      ExitStaysDown(p, pools, steps, i - 1);
      assert steps[i - 1] != Interrupt;
    }
  }

  /** In a run without an interrupt no collected job is a break. */
  lemma NoBreakWithoutInterrupt(p: Plan, pools: seq<Pool>, steps: seq<Step>, i: nat)
    requires PlanOk(p) && Run(p, pools, steps) && i < |pools|
    requires forall k :: 0 <= k < i ==> steps[k] != Interrupt
    ensures HowMany(pools[i].collected, IsBreak) == 0
  {
    ExitStaysDown(p, pools, steps, i);
    PoolAlwaysOk(p, pools, steps, i);
    GenuineBreaks(p, pools[i].collected);
  }

  // ---------- Where the results come from ----------

  /** The step takes up the job that its worker holds. */
  predicate TakesUp(s: Pool, step: Step, id: nat) {
    step.WorkerStep? && step.w < |s.workers| && s.workers[step.w] == Holding(id)
  }

  /** What a job that is taken up in this state comes back as: the return code counts only without an interrupt and a skip. */
  predicate Outcome(p: Plan, s: Pool, step: Step, r: Return)
    requires step.WorkerStep? && r.id < |p.skip|
  {
    && (s.exit <==> r.result == Interrupted)
    && (!s.exit ==> if p.skip[r.id] then r.result == Skipped else r.result == Finished(step.returncode))
  }

  /** Step `k` has made this result. */
  predicate MadeBy(p: Plan, pools: seq<Pool>, steps: seq<Step>, r: Return, k: nat)
    requires |pools| == |steps| + 1
  {
    k < |steps| && r.id < |p.skip| && TakesUp(pools[k], steps[k], r.id) && Outcome(p, pools[k], steps[k], r)
  }

  ghost predicate Made(p: Plan, pools: seq<Pool>, steps: seq<Step>, r: Return, i: nat)
    requires |pools| == |steps| + 1
  {
    exists k: nat :: k < i && MadeBy(p, pools, steps, r, k)
  }

  ghost predicate AllMade(p: Plan, pools: seq<Pool>, steps: seq<Step>, i: nat)
    requires |pools| == |steps| + 1 && i < |pools|
  {
    var s := pools[i];
    && (forall j :: 0 <= j < |s.workers| && s.workers[j].Returning? ==> Made(p, pools, steps, s.workers[j].ret, i))
    && (forall j :: 0 <= j < |s.output| ==> Made(p, pools, steps, s.output[j], i))
    && (forall j :: 0 <= j < |s.collected| ==> Made(p, pools, steps, s.collected[j], i))
  }

  lemma MadeLater(p: Plan, pools: seq<Pool>, steps: seq<Step>, r: Return, i: nat)
    requires |pools| == |steps| + 1 && Made(p, pools, steps, r, i)
    ensures Made(p, pools, steps, r, i + 1)
  {
    var k: nat :| k < i && MadeBy(p, pools, steps, r, k);
    assert MadeBy(p, pools, steps, r, k);
  }

  lemma StepMakes(p: Plan, pools: seq<Pool>, steps: seq<Step>, i: nat)
    requires PlanOk(p) && Run(p, pools, steps) && i < |steps| && AllMade(p, pools, steps, i)
    ensures AllMade(p, pools, steps, i + 1)
  {
    var s, s1, step := pools[i], pools[i + 1], steps[i];
    PoolAlwaysOk(p, pools, steps, i);
    forall r | Made(p, pools, steps, r, i)
      ensures Made(p, pools, steps, r, i + 1)
    {
      MadeLater(p, pools, steps, r, i);
    }
    if step.WorkerStep? && s.workers[step.w].Holding? {
      var r := Work(p, s, s.workers[step.w].id, step.returncode);
      assert MadeBy(p, pools, steps, r, i);
    }
  }

  /**
   * Over every run: each result that a worker hands back, that waits or that has been collected was made by a worker
   * step that took up its job, and is what that step found: a break exactly while the interrupt is on, otherwise
   * a skip for a job to be skipped and the return code of the run for any other.
   */
  lemma {:induction false} ResultsAreMade(p: Plan, pools: seq<Pool>, steps: seq<Step>, i: nat)
    requires PlanOk(p) && Run(p, pools, steps) && i < |pools|
    ensures AllMade(p, pools, steps, i)
  {
    if i > 0 {
      ResultsAreMade(p, pools, steps, i - 1);
      StepMakes(p, pools, steps, i - 1);
    }
  }

  // ---------- The counts of the summary are counts of steps ----------

  /** The status that the summary gives to a job taken up in this state. */
  function StatusMade(p: Plan, s: Pool, id: nat, returncode: int): Status {
    if s.exit then IsBreak
    else if id < |p.skip| && p.skip[id] then Skip
    else if returncode == 0 then Pass
    else if returncode == 1 then Fail
    else if returncode == 2 then Valgrind
    else Crash
  }

  predicate Makes(p: Plan, s: Pool, step: Step, st: Status) {
    && step.WorkerStep? && step.w < |s.workers| && s.workers[step.w].Holding?
    && StatusMade(p, s, s.workers[step.w].id, step.returncode) == st
  }

  /** How many of the first `i` steps took up a job with this status as outcome. */
  function MadeSoFar(p: Plan, pools: seq<Pool>, steps: seq<Step>, i: nat, st: Status): nat
    requires i <= |steps| < |pools|
  {
    if i == 0 then 0 else MadeSoFar(p, pools, steps, i - 1, st) + if Makes(p, pools[i - 1], steps[i - 1], st) then 1 else 0
  }

  function InHand(w: Worker, st: Status): nat {
    if w.Returning? && StatusOf(w.ret.result) == st then 1 else 0
  }

  function HandedBack(ws: seq<Worker>, st: Status): nat {
    if ws == [] then 0 else InHand(ws[0], st) + HandedBack(ws[1..], st)
  }

  lemma {:induction false} HandedUpdate(ws: seq<Worker>, w: nat, x: Worker, st: Status)
    requires w < |ws|
    ensures HandedBack(ws[w := x], st) + InHand(ws[w], st) == HandedBack(ws, st) + InHand(x, st)
  {
    if w == 0 {
      assert ws[w := x][1..] == ws[1..];
    } else {
      HandedUpdate(ws[1..], w - 1, x, st);
      assert ws[w := x][1..] == ws[1..][w - 1 := x];
    }
  }

  lemma {:induction false} NoneHanded(ws: seq<Worker>, st: Status)
    requires forall i :: 0 <= i < |ws| ==> !ws[i].Returning?
    ensures HandedBack(ws, st) == 0
  {
    if ws != [] {
      NoneHanded(ws[1..], st);
    }
  }

  lemma {:induction false} HowManyCons(r: Return, rest: seq<Return>, st: Status)
    ensures HowMany([r] + rest, st) == HowMany(rest, st) + if StatusOf(r.result) == st then 1 else 0
  {
    if rest == [] {
      assert [r] + rest == [r] && [r][..0] == [];
    } else {
      var n := |rest| - 1;
      HowManyCons(r, rest[..n], st);
      assert ([r] + rest)[..n + 1] == [r] + rest[..n];
    }
  }

  lemma HowManySnoc(rs: seq<Return>, r: Return, st: Status)
    ensures HowMany(rs + [r], st) == HowMany(rs, st) + if StatusOf(r.result) == st then 1 else 0
  {
    assert (rs + [r])[..|rs|] == rs;
  }

  function Held(s: Pool, st: Status): nat {
    HandedBack(s.workers, st) + HowMany(s.output, st) + HowMany(s.collected, st)
  }

  lemma WorkStatus(p: Plan, s: Pool, id: nat, returncode: int)
    ensures StatusOf(Work(p, s, id, returncode).result) == StatusMade(p, s, id, returncode)
  {
  }

  lemma MainHeld(p: Plan, s: Pool, st: Status)
    requires Enabled(p, s, MainStep)
    ensures Held(MainNext(p, s), st) == Held(s, st)
  {
    if s.main.Collecting? {
      var first, rest := s.output[0], s.output[1..];
      assert s.output == [first] + rest;
      HowManyCons(first, rest, st);
      HowManySnoc(s.collected, first, st);
    }
  }

  lemma WorkerHeld(p: Plan, s: Pool, w: nat, returncode: int, st: Status)
    requires Enabled(p, s, WorkerStep(w, returncode))
    ensures Held(WorkerNext(p, s, w, returncode), st) == Held(s, st) + if Makes(p, s, WorkerStep(w, returncode), st) then 1 else 0
  {
    var x := WorkerNext(p, s, w, returncode).workers[w];
    HandedUpdate(s.workers, w, x, st);
    match s.workers[w]
    case Waiting =>
    case Holding(id) => WorkStatus(p, s, id, returncode);
    case Returning(ret) => HowManySnoc(s.output, ret, st);
  }

  lemma StepHeld(p: Plan, s: Pool, step: Step, st: Status)
    requires Enabled(p, s, step)
    ensures Held(Next(p, s, step), st) == Held(s, st) + if Makes(p, s, step, st) then 1 else 0
  {
    match step
    case Interrupt =>
    case MainStep => MainHeld(p, s, st);
    case WorkerStep(w, returncode) => WorkerHeld(p, s, w, returncode, st);
  }

  lemma {:induction false} HeldIsMade(p: Plan, pools: seq<Pool>, steps: seq<Step>, i: nat, st: Status)
    requires Run(p, pools, steps) && i < |pools|
    ensures Held(pools[i], st) == MadeSoFar(p, pools, steps, i, st)
  {
    if i == 0 {
      NoneHanded(pools[0].workers, st);
    } else {
      HeldIsMade(p, pools, steps, i - 1, st);
      StepHeld(p, pools[i - 1], steps[i - 1], st);
    }
  }

  /**
   * At the end of every run the summary counts what the workers did: as many tests have passed, failed, crashed, or had
   * a valgrind error as jobs were run to that return code, and as many were skipped or broken off as were taken up that way.
   */
  lemma CountsAreRuns(p: Plan, pools: seq<Pool>, steps: seq<Step>, st: Status)
    requires PlanOk(p) && Run(p, pools, steps) && !CanGoOn(p, pools[|steps|])
    ensures HowMany(pools[|steps|].collected, st) == MadeSoFar(p, pools, steps, |steps|, st)
  {
    HeldIsMade(p, pools, steps, |steps|, st);
    AllCollected(p, pools, steps, 0);
    NoneHanded(pools[|steps|].workers, st);
  }
}
