/**
 * Pause gating: when a class is stopped, and what cannot happen while it is.
 */
module DeviceGate {
  import opened Frames
  import opened EventQueue
  import opened PfcDevice

  // ---------- The timers against a simple specification ----------

  datatype Pause = Pause(at: real, quanta: nat)

  predicate Pauses(a: Action, p: Prio) {
    a.Receive? && a.frame.Control? && p in a.frame.enabled
  }

  predicate IsLastPause(states: seq<Dev>, actions: seq<Action>, i: nat, p: Prio, j: nat, pause: Pause) {
    && j < i <= |actions| < |states|
    && Pauses(actions[j], p)
    && pause == Pause(states[j].sched.now, actions[j].frame.quanta[p])
    && forall k :: j < k < i ==> !Pauses(actions[k], p)
  }

  /** The last control frame before state `i` that enables the class: when it came and what it asked for. */
  function LastPause(states: seq<Dev>, actions: seq<Action>, i: nat, p: Prio): (r: Option<Pause>)
    requires i <= |actions| < |states|
  {
    if i == 0 then None
    else if Pauses(actions[i - 1], p) then Some(Pause(states[i - 1].sched.now, actions[i - 1].frame.quanta[p]))
    else LastPause(states, actions, i - 1, p)
  }

  lemma {:induction false} LastPauseMeaning(states: seq<Dev>, actions: seq<Action>, i: nat, p: Prio)
    requires i <= |actions| < |states|
    ensures var r := LastPause(states, actions, i, p);
      if r.Some? then exists j :: 0 <= j < i && IsLastPause(states, actions, i, p, j, r.value)
      else forall j :: 0 <= j < i ==> !Pauses(actions[j], p)
  {
    var r := LastPause(states, actions, i, p);
    if i > 0 && Pauses(actions[i - 1], p) {
      assert IsLastPause(states, actions, i, p, i - 1, r.value);
    } else if i > 0 {
      LastPauseMeaning(states, actions, i - 1, p);
      if r.Some? {
        var j :| 0 <= j < i - 1 && IsLastPause(states, actions, i - 1, p, j, r.value);
        assert IsLastPause(states, actions, i, p, j, r.value);
      }
    }
  }

  /** What the pause state of a class must be, given the last control frame for it. */
  predicate PauseStateOk(c: Config, s: Dev, last: Option<Pause>, p: Prio) {
    if last.Some? && last.value.quanta > 0
    then s.tx.until[p] == last.value.at + PauseTime(c, last.value.quanta) && (s.tx.paused[p] || s.tx.until[p] <= s.sched.now)
    else !s.tx.paused[p]
  }

  lemma RefillPauses(c: Config, s: Dev, p: Prio, r: Prio)
    ensures var s1 := Refill(c, s, p);
      && s1.sched.now == s.sched.now && s1.tx.until == s.tx.until
      && s1.tx.paused[r] == (if r == p then Gated(s, p) else s.tx.paused[r])
  {
  }

  lemma ApplyClassPauses(c: Config, s: Dev, f: Frame, r: Prio, p: Prio)
    requires f.Control?
    ensures var s1 := ApplyClass(c, s, f, r);
      && s1.sched.now == s.sched.now
      && (if p == r && r in f.enabled then
            s1.tx.paused[p] == (f.quanta[p] > 0)
            && s1.tx.until[p] == s.sched.now + (if f.quanta[p] == 0 then 0.0 else PauseTime(c, f.quanta[p]))
          else s1.tx.paused[p] == s.tx.paused[p] && s1.tx.until[p] == s.tx.until[p])
  {
    if r in f.enabled && f.quanta[r] == 0 {
      RefillPauses(c, Reopened(s, r), r, p);
    }
  }

  lemma {:induction false} ApplyBelowPauses(c: Config, s: Dev, f: Frame, k: nat, p: Prio)
    requires f.Control? && k <= 8
    ensures var s1 := ApplyBelow(c, s, f, k);
      && s1.sched.now == s.sched.now
      && (if p < k && p in f.enabled then
            s1.tx.paused[p] == (f.quanta[p] > 0)
            && s1.tx.until[p] == s.sched.now + (if f.quanta[p] == 0 then 0.0 else PauseTime(c, f.quanta[p]))
          else s1.tx.paused[p] == s.tx.paused[p] && s1.tx.until[p] == s.tx.until[p])
  {
    if k > 0 {
      ApplyBelowPauses(c, s, f, k - 1, p);
      ApplyClassPauses(c, ApplyBelow(c, s, f, k - 1), f, k - 1, p);
    }
  }

  /** Control frames leave the clock, the receiving half and the wire alone, and neither start nor stop the transmitter. */
  lemma {:induction false} ApplyBelowLeaves(c: Config, s: Dev, f: Frame, k: nat)
    requires f.Control? && k <= 8
    ensures var s1 := ApplyBelow(c, s, f, k);
      s1.sched.now == s.sched.now && s1.rx == s.rx && s1.mac.wire == s.mac.wire && s1.mac.busy == s.mac.busy
  {
    if k > 0 {
      ApplyBelowLeaves(c, s, f, k - 1);
    }
  }

  lemma DispatchKeepsPauseState(c: Config, s: Dev, call: Call, granted: bool, last: Option<Pause>, p: Prio)
    requires PauseStateOk(c, s, last, p)
    ensures PauseStateOk(c, Dispatch(c, s, call, granted), last, p)
  {
    match call
    case TryDequeue => assert TryDequeueStep(c, s).tx.paused == s.tx.paused && TryDequeueStep(c, s).tx.until == s.tx.until;
    case DoIngressDrain => assert DrainStep(c, s, granted).tx == s.tx;
    case ResumeFromPause(r) => RefillPauses(c, Unpaused(s, r), r, p);
    case RefillMacQueueFromHold(r) => RefillPauses(c, s, r, p);
  }

  lemma NextKeepsPauseState(c: Config, s: Dev, a: Action, last: Option<Pause>, p: Prio)
    requires Enabled(s, a)
    requires PauseStateOk(c, s, last, p)
    ensures var last1 := if Pauses(a, p) then Some(Pause(s.sched.now, a.frame.quanta[p])) else last;
      PauseStateOk(c, Next(c, s, a), last1, p)
  {
    match a
    case Tick(_) =>
    case Accept(_) =>
    case TransmitComplete =>
    case Receive(f) =>
      if f.Control? {
        ApplyBelowPauses(c, s, f, 8, p);
      } else {
        assert ReceiveData(c, s, f).tx == s.tx;
      }
    case Fire(id, granted) =>
      DispatchKeepsPauseState(c, s.(sched := s.sched.Cancel(id)), s.sched.pending[id].call, granted, last, p);
  }

  lemma {:induction false} PauseStateAlwaysOk(c: Config, states: seq<Dev>, actions: seq<Action>, i: nat, p: Prio)
    requires Run(c, states, actions) && states[0] == INITIAL
    requires i < |states|
    ensures PauseStateOk(c, states[i], LastPause(states, actions, i, p), p)
  {
    if i > 0 {
      PauseStateAlwaysOk(c, states, actions, i - 1, p);
      NextKeepsPauseState(c, states[i - 1], actions[i - 1], LastPause(states, actions, i - 1, p), p);
    }
  }

  // ---------- How long a pause lasts ----------

  /** `q` quanta of 512 bits at a rate, and of 512 ns when the rate is zero: how much of it is over after a time. */
  predicate StillRuns(bitRate: nat, q: nat, elapsed: real) {
    if bitRate > 0 then elapsed * bitRate as real < 512.0 * q as real else elapsed < q as real * 0.000000512
  }

  lemma BitTimes(c: Config)
    ensures if c.bitRate > 0 then BitTime(c) * c.bitRate as real == 1.0 else BitTime(c) == 0.000000001
  {
  }

  lemma Regroup(q: real, t: real, r: real)
    requires t * r == 1.0
    ensures q * 512.0 * t * r == 512.0 * q
  {
    assert q * 512.0 * t * r == q * 512.0 * (t * r);
  }

  lemma PauseBits(c: Config, q: nat)
    ensures if c.bitRate > 0 then PauseTime(c, q) * c.bitRate as real == 512.0 * q as real
            else PauseTime(c, q) == q as real * 0.000000512
  {
    BitTimes(c);
    if c.bitRate > 0 {
      Regroup(q as real, BitTime(c), c.bitRate as real);
    }
  }

  lemma ScaleLess(x: real, y: real, r: real)
    requires r > 0.0
    ensures x < y <==> x * r < y * r
  {
    if x < y {
      assert (y - x) * r > 0.0;
    } else {
      assert (x - y) * r >= 0.0;
    }
  }

  lemma PauseRuns(c: Config, q: nat, elapsed: real)
    ensures elapsed < PauseTime(c, q) <==> StillRuns(c.bitRate, q, elapsed)
  {
    PauseBits(c, q);
    if c.bitRate > 0 {
      ScaleLess(elapsed, PauseTime(c, q), c.bitRate as real);
    }
  }

  /**
   * A control frame pauses each class that it enables with a non-zero quanta for exactly that many
   * times 512 bits at the device's rate, or 512 ns without one; a zero quanta leaves the class open.
   */
  lemma PauseLasts(c: Config, s: Dev, f: Frame, p: Prio)
    requires f.Control? && p in f.enabled
    ensures var s1 := HandleMacRx(c, s, f);
      var length := s1.tx.until[p] - s.sched.now;
      && s1.sched.now == s.sched.now && s1.tx.paused[p] == (f.quanta[p] > 0)
      && (if c.bitRate > 0 then length * c.bitRate as real == 512.0 * f.quanta[p] as real
          else length == f.quanta[p] as real * 0.000000512)
  {
    ApplyBelowPauses(c, s, f, 8, p);
    PauseBits(c, f.quanta[p]);
  }

  /**
   * The cancelled, replaced and reused timers together do what one sentence asks
   * for: a class is gated exactly while the last control frame that enabled it
   * had a non-zero quanta that has not yet run out.
   */
  lemma GatedAsSpecified(c: Config, states: seq<Dev>, actions: seq<Action>, i: nat, p: Prio)
    requires Run(c, states, actions) && states[0] == INITIAL
    requires i < |states|
    ensures var last := LastPause(states, actions, i, p);
      Gated(states[i], p) <==>
      last.Some? && last.value.quanta > 0 && states[i].sched.now < last.value.at + PauseTime(c, last.value.quanta)
    ensures var last := LastPause(states, actions, i, p);
      Gated(states[i], p) <==>
      last.Some? && last.value.quanta > 0 && StillRuns(c.bitRate, last.value.quanta, states[i].sched.now - last.value.at)
  {
    PauseStateAlwaysOk(c, states, actions, i, p);
    var last := LastPause(states, actions, i, p);
    if last.Some? {
      PauseRuns(c, last.value.quanta, states[i].sched.now - last.value.at);
    }
  }

  /** How many of the first `i` actions were control frames that enable the class, to stop it or to let it go on. */
  function Heard(actions: seq<Action>, i: nat, p: Prio, stopping: bool): nat
    requires i <= |actions|
  {
    if i == 0 then 0
    else Heard(actions, i - 1, p, stopping)
         + if Pauses(actions[i - 1], p) && (actions[i - 1].frame.quanta[p] > 0) == stopping then 1 else 0
  }

  lemma {:induction false} ApplyBelowCounts(c: Config, s: Dev, f: Frame, k: nat, p: Prio)
    requires f.Control? && k <= 8
    ensures var s1 := ApplyBelow(c, s, f, k);
      var hit := p < k && p in f.enabled;
      && s1.tx.rxXoff[p] == s.tx.rxXoff[p] + (if hit && f.quanta[p] > 0 then 1 else 0)
      && s1.tx.rxXon[p] == s.tx.rxXon[p] + (if hit && f.quanta[p] == 0 then 1 else 0)
  {
    if k > 0 {
      ApplyBelowCounts(c, s, f, k - 1, p);
    }
  }

  lemma NextCounts(c: Config, s: Dev, a: Action, p: Prio)
    requires Enabled(s, a)
    ensures Next(c, s, a).tx.rxXoff[p] == s.tx.rxXoff[p] + (if Pauses(a, p) && a.frame.quanta[p] > 0 then 1 else 0)
    ensures Next(c, s, a).tx.rxXon[p] == s.tx.rxXon[p] + (if Pauses(a, p) && a.frame.quanta[p] == 0 then 1 else 0)
  {
    if a.Receive? && a.frame.Control? {
      ApplyBelowCounts(c, s, a.frame, 8, p);
    }
  }

  /** The counters of a class are the numbers of pauses and resumes that it has received. */
  lemma {:induction false} CountersCount(c: Config, states: seq<Dev>, actions: seq<Action>, i: nat, p: Prio)
    requires Run(c, states, actions) && states[0] == INITIAL && i < |states|
    ensures states[i].tx.rxXoff[p] == Heard(actions, i, p, true) && states[i].tx.rxXon[p] == Heard(actions, i, p, false)
  {
    if i > 0 {
      CountersCount(c, states, actions, i - 1, p);
      NextCounts(c, states[i - 1], actions[i - 1], p);
    }
  }

  // ---------- What a gated class cannot do ----------

  /** Upper queues and hold queues hold frames of their own class only. */
  ghost predicate Pure(s: Dev) {
    && (forall p: Prio, f :: f in s.tx.txq[p] ==> IsClass(f, p))
    && (forall p: Prio, f :: f in s.tx.hold[p] ==> IsClass(f, p))
  }

  /** A gated class has no data frame in the MAC queue. */
  ghost predicate QueueClear(s: Dev) {
    forall p: Prio :: Gated(s, p) ==> OfClass(s.mac.queue, p) == []
  }

  ghost predicate GateOk(s: Dev) {
    Pure(s) && QueueClear(s)
  }

  /** Handing the transmitter a frame of another class adds nothing of this class to the MAC queue and starts nothing of it. */
  lemma MacSendOther(c: Config, m: Mac, f: Frame, p: Prio)
    requires OfClass(m.queue, p) == [] && !IsClass(f, p)
    ensures var m1 := MacSend(c, m, f);
      OfClass(m1.queue, p) == [] && OfClass(m1.wire, p) == OfClass(m.wire, p)
  {
    OfClassSnoc(m.queue, f, p);
    var q := m.queue + [f];
    OfClassTail(q, p);
    OfClassConcat(m.wire, [q[0]], p);
  }

  lemma TransmitHeadOther(m: Mac, p: Prio)
    requires OfClass(m.queue, p) == []
    ensures var m1 := TransmitHead(m);
      OfClass(m1.queue, p) == [] && OfClass(m1.wire, p) == OfClass(m.wire, p)
  {
    if m.queue != [] {
      OfClassTail(m.queue, p);
      OfClassConcat(m.wire, [m.queue[0]], p);
    }
  }

  /** The effect of a step on a class that stays gated. */
  predicate Silent(s: Dev, s1: Dev, p: Prio) {
    OfClass(s1.mac.queue, p) == [] && OfClass(s1.mac.wire, p) == OfClass(s.mac.wire, p)
  }

  lemma TryDequeueGate(c: Config, s: Dev, p: Prio)
    requires GateOk(s)
    ensures Pure(TryDequeueStep(c, s))
    ensures Gated(s, p) ==> Silent(s, TryDequeueStep(c, s), p)
  {
    match PickNextPrio(s)
    case None =>
    case Some(r) =>
      var f := s.tx.txq[r][0];
      assert f in s.tx.txq[r];
      assert forall g :: g in s.tx.txq[r][1..] ==> g in s.tx.txq[r];
      if Gated(s, p) {
        MacSendOther(c, s.mac, f, p);
      }
  }

  /** A refill touches its own class only, and no class when its own is gated. */
  lemma RefillGate(c: Config, s: Dev, r: Prio, p: Prio)
    requires Pure(s)
    ensures Pure(Refill(c, s, r))
    ensures Refill(c, s, r).mac.wire == s.mac.wire
    ensures p != r || Gated(s, p) ==> OfClass(Refill(c, s, r).mac.queue, p) == OfClass(s.mac.queue, p)
  {
    if !Gated(s, r) {
      var k := Movable(c, Unpaused(s, r), r);
      var moved := s.tx.hold[r][..k];
      assert forall g :: g in moved ==> g in s.tx.hold[r];
      assert forall g :: g in s.tx.hold[r][k..] ==> g in s.tx.hold[r];
      OfClassConcat(s.mac.queue, moved, p);
      OfClassPure(moved, r, p);
    }
  }

  lemma PurgeGate(s: Dev, r: Prio, p: Prio)
    requires Pure(s)
    ensures Pure(Purge(s, r))
    ensures OfClass(Purge(s, r).mac.queue, p) == if p == r then [] else OfClass(s.mac.queue, p)
  {
    OfClassWithout(s.mac.queue, r, p);
  }

  lemma XonGate(c: Config, s: Dev, r: Prio, p: Prio)
    requires GateOk(s)
    ensures var s1 := Xon(c, s, r);
      Pure(s1) && s1.mac.wire == s.mac.wire && (Gated(s1, p) ==> OfClass(s1.mac.queue, p) == [])
  {
    var s0 := Reopened(s, r);
    assert Pure(s0);
    RefillGate(c, s0, r, p);
    RefillPauses(c, s0, r, p);
    assert Gated(s0, p) ==> Gated(s, p);
  }

  lemma XoffGate(c: Config, s: Dev, r: Prio, q: nat, p: Prio)
    requires GateOk(s)
    ensures var s1 := Xoff(c, s, r, q);
      Pure(s1) && s1.mac.wire == s.mac.wire && (Gated(s1, p) ==> OfClass(s1.mac.queue, p) == [])
  {
    var s0 := Stopped(c, s, r, q);
    assert Pure(s0);
    PurgeGate(s0, r, p);
    assert Pure(Xoff(c, s, r, q)) by {
      assert Xoff(c, s, r, q).tx.hold == Purge(s0, r).tx.hold;
    }
    assert p != r && Gated(Xoff(c, s, r, q), p) ==> Gated(s, p);
  }

  lemma ApplyClassGate(c: Config, s: Dev, f: Frame, r: Prio)
    requires f.Control? && GateOk(s)
    ensures GateOk(ApplyClass(c, s, f, r))
    ensures ApplyClass(c, s, f, r).mac.wire == s.mac.wire
  {
    var s1 := ApplyClass(c, s, f, r);
    forall p: Prio
      ensures Pure(s1) && s1.mac.wire == s.mac.wire
      ensures Gated(s1, p) ==> OfClass(s1.mac.queue, p) == []
    {
      if r in f.enabled {
        if f.quanta[r] == 0 {
          XonGate(c, s, r, p);
        } else {
          XoffGate(c, s, r, f.quanta[r], p);
        }
      }
    }
    assert Pure(s1) && s1.mac.wire == s.mac.wire by {
      var p: Prio := 0;
      assert Gated(s1, p) ==> OfClass(s1.mac.queue, p) == [];
    }
  }

  lemma {:induction false} ApplyBelowGate(c: Config, s: Dev, f: Frame, k: nat)
    requires f.Control? && GateOk(s) && k <= 8
    ensures GateOk(ApplyBelow(c, s, f, k))
    ensures ApplyBelow(c, s, f, k).mac.wire == s.mac.wire
  {
    if k > 0 {
      ApplyBelowGate(c, s, f, k - 1);
      ApplyClassGate(c, ApplyBelow(c, s, f, k - 1), f, k - 1);
    }
  }

  /** What an arrival sends for its class, if anything: a pause, a resume, or both. */
  lemma ArrivalMac(c: Config, s: Dev, f: DataFrame)
    ensures var s1, pause, resume := ReceiveData(c, s, f), PauseFrame(f.prio, c.quanta), PauseFrame(f.prio, 0);
      && s1.tx == s.tx
      && s1.mac in {s.mac, MacSend(c, s.mac, pause), MacSend(c, s.mac, resume), MacSend(c, MacSend(c, s.mac, pause), resume)}
  {
  }

  lemma ReceiveDataGate(c: Config, s: Dev, f: DataFrame, p: Prio)
    requires OfClass(s.mac.queue, p) == []
    ensures Silent(s, ReceiveData(c, s, f), p)
  {
    ArrivalMac(c, s, f);
    MacSendOther(c, s.mac, PauseFrame(f.prio, c.quanta), p);
    MacSendOther(c, MacSend(c, s.mac, PauseFrame(f.prio, c.quanta)), PauseFrame(f.prio, 0), p);
    MacSendOther(c, s.mac, PauseFrame(f.prio, 0), p);
  }

  lemma DrainGate(c: Config, s: Dev, granted: bool, p: Prio)
    requires OfClass(s.mac.queue, p) == []
    ensures Silent(s, DrainStep(c, s, granted), p)
  {
    match WaitingBelow(s, 8)
    case None =>
    case Some(r) => MacSendOther(c, s.mac, PauseFrame(r, 0), p);
  }

  lemma ResumeGate(c: Config, s: Dev, r: Prio, p: Prio)
    requires GateOk(s)
    ensures Pure(Resume(c, s, r))
    ensures Gated(Resume(c, s, r), p) ==> Silent(s, Resume(c, s, r), p)
  {
    var s2 := Unpaused(s, r);
    assert Pure(s2);
    RefillGate(c, s2, r, p);
    RefillPauses(c, s2, r, p);
    assert Gated(Resume(c, s, r), p) ==> Gated(s, p);
  }

  lemma DispatchGate(c: Config, s: Dev, call: Call, granted: bool, p: Prio)
    requires GateOk(s)
    ensures Pure(Dispatch(c, s, call, granted))
    ensures Gated(Dispatch(c, s, call, granted), p) ==> Silent(s, Dispatch(c, s, call, granted), p)
  {
    match call
    case TryDequeue =>
      TryDequeueGate(c, s, p);
      assert Gated(TryDequeueStep(c, s), p) ==> Gated(s, p);
    case DoIngressDrain =>
      var s1 := DrainStep(c, s, granted);
      assert s1.tx == s.tx && s1.sched.now == s.sched.now;
      if Gated(s1, p) {
        DrainGate(c, s, granted, p);
      }
    case ResumeFromPause(r) =>
      ResumeGate(c, s, r, p);
    case RefillMacQueueFromHold(r) =>
      RefillGate(c, s, r, p);
      RefillPauses(c, s, r, p);
      assert Gated(Refill(c, s, r), p) ==> Gated(s, p);
  }

  lemma ReceiveGate(c: Config, s: Dev, f: Frame, p: Prio)
    requires GateOk(s)
    ensures Pure(HandleMacRx(c, s, f))
    ensures Gated(HandleMacRx(c, s, f), p) ==> Silent(s, HandleMacRx(c, s, f), p)
  {
    if f.Data? {
      assert HandleMacRx(c, s, f).tx == s.tx && HandleMacRx(c, s, f).sched.now == s.sched.now;
      if Gated(s, p) {
        ReceiveDataGate(c, s, f, p);
      }
    } else {
      var s1 := ApplyBelow(c, s, f, 8);
      ApplyBelowGate(c, s, f, 8);
      assert Gated(s1, p) ==> OfClass(s1.mac.queue, p) == [];
      assert Gated(s, p) ==> OfClass(s.mac.queue, p) == [];
    }
  }

  lemma NextSilent(c: Config, s: Dev, a: Action, p: Prio)
    requires Enabled(s, a) && GateOk(s)
    ensures Pure(Next(c, s, a))
    ensures Gated(Next(c, s, a), p) ==> Silent(s, Next(c, s, a), p)
  {
    match a
    case Tick(_) => assert Gated(Next(c, s, a), p) ==> Gated(s, p);
    case Accept(_) => assert Gated(Next(c, s, a), p) ==> Gated(s, p);
    case TransmitComplete =>
      if Gated(s, p) {
        TransmitHeadOther(s.mac, p);
      }
    case Receive(f) => ReceiveGate(c, s, f, p);
    case Fire(id, granted) =>
      var s0 := s.(sched := s.sched.Cancel(id));
      assert forall r: Prio :: Gated(s0, r) == Gated(s, r);
      DispatchGate(c, s0, s.sched.pending[id].call, granted, p);
  }

  /** Every action keeps gated classes out of the MAC queue, and starts no frame of a class that is gated after it. */
  lemma NextGate(c: Config, s: Dev, a: Action)
    requires Enabled(s, a) && GateOk(s)
    ensures GateOk(Next(c, s, a))
    ensures forall p: Prio :: Gated(Next(c, s, a), p) ==> OfClass(Next(c, s, a).mac.wire, p) == OfClass(s.mac.wire, p)
  {
    NextSilent(c, s, a, 0);
    forall p: Prio | Gated(Next(c, s, a), p)
      ensures Silent(s, Next(c, s, a), p)
    {
      NextSilent(c, s, a, p);
    }
  }

  /** In every reachable state a gated class has no data frame in the MAC queue. */
  lemma {:induction false} GateAlwaysOk(c: Config, states: seq<Dev>, actions: seq<Action>, i: nat)
    requires Run(c, states, actions) && states[0] == INITIAL
    requires i < |states|
    ensures GateOk(states[i])
  {
    if i > 0 {
      GateAlwaysOk(c, states, actions, i - 1);
      NextGate(c, states[i - 1], actions[i - 1]);
    }
  }

  /** While a class stays gated, from state `i` to state `j`, not one frame of it starts on the wire. */
  lemma {:induction false} GatedSendsNothing(c: Config, states: seq<Dev>, actions: seq<Action>, i: nat, j: nat, p: Prio)
    requires Run(c, states, actions) && states[0] == INITIAL
    requires i <= j < |states|
    requires forall k :: i < k <= j ==> Gated(states[k], p)
    ensures OfClass(states[j].mac.wire, p) == OfClass(states[i].mac.wire, p)
  {
    if i < j {
      GatedSendsNothing(c, states, actions, i, j - 1, p);
      GateAlwaysOk(c, states, actions, j - 1);
      NextGate(c, states[j - 1], actions[j - 1]);
    }
  }
}
