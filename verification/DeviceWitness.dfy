/**
 * Runs that really happen: for every device with a MAC queue of at least one
 * frame, a run that jams it and a run in which a frame overtakes an older one.
 */
module DeviceWitness {
  import opened Frames
  import opened EventQueue
  import opened PfcDevice
  import opened DeviceGate
  import opened DeviceOrder
  import opened DeviceStall
  import opened Sequences

  /** A run from the initial state. */
  datatype Trace = Trace(states: seq<Dev>, actions: seq<Action>)

  ghost predicate IsTrace(c: Config, t: Trace) {
    Run(c, t.states, t.actions) && t.states[0] == INITIAL
  }

  function Last(t: Trace): Dev
    requires t.states != []
  {
    t.states[|t.states| - 1]
  }

  function Extend(c: Config, t: Trace, a: Action): Trace
    requires t.states != [] && Enabled(Last(t), a)
  {
    Trace(t.states + [Next(c, Last(t), a)], t.actions + [a])
  }

  lemma ExtendIsTrace(c: Config, t: Trace, a: Action)
    requires IsTrace(c, t) && Enabled(Last(t), a)
    ensures IsTrace(c, Extend(c, t, a)) && Last(Extend(c, t, a)) == Next(c, Last(t), a)
    ensures NoneCompletes(t) && !a.TransmitComplete? ==> NoneCompletes(Extend(c, t, a))
  {
  }

  /** Packets are numbered: each of the first `i` actions accepts a packet with a larger uid than the ones before, below `n`. */
  predicate RisingTo(actions: seq<Action>, i: nat, n: nat)
    requires i <= |actions|
  {
    i > 0 ==>
      if actions[i - 1].Accept? then actions[i - 1].packet.uid < n && RisingTo(actions, i - 1, actions[i - 1].packet.uid)
      else RisingTo(actions, i - 1, n)
  }

  predicate Rising(t: Trace, n: nat) {
    RisingTo(t.actions, |t.actions|, n)
  }

  lemma {:induction false} RisingFront(actions: seq<Action>, a: Action, i: nat, n: nat)
    requires i <= |actions|
    ensures RisingTo(actions + [a], i, n) == RisingTo(actions, i, n)
  {
    if i > 0 {
      RisingFront(actions, a, i - 1, n);
      RisingFront(actions, a, i - 1, if actions[i - 1].Accept? then actions[i - 1].packet.uid else n);
    }
  }

  lemma {:induction false} RisingMore(actions: seq<Action>, i: nat, n: nat, m: nat)
    requires i <= |actions| && RisingTo(actions, i, n) && n <= m
    ensures RisingTo(actions, i, m)
  {
    if i > 0 && !actions[i - 1].Accept? {
      RisingMore(actions, i - 1, n, m);
    }
  }

  lemma {:induction false} RisingBefore(actions: seq<Action>, i: nat, j: nat, n: nat)
    requires i <= j <= |actions| && RisingTo(actions, j, n)
    ensures RisingTo(actions, i, n)
  {
    if i < j {
      if actions[j - 1].Accept? {
        RisingMore(actions, j - 1, actions[j - 1].packet.uid, n);
      }
      RisingBefore(actions, i, j - 1, n);
    }
  }

  lemma ExtendRises(c: Config, t: Trace, a: Action, n: nat)
    requires t.states != [] && Enabled(Last(t), a) && Rising(t, n) && (a.Accept? ==> n <= a.packet.uid)
    ensures Rising(Extend(c, t, a), if a.Accept? then a.packet.uid + 1 else n)
  {
    var m := if a.Accept? then a.packet.uid else n;
    RisingMore(t.actions, |t.actions|, n, m);
    RisingFront(t.actions, a, |t.actions|, m);
  }

  /** The run with one more step. */
  lemma Step(c: Config, t: Trace, a: Action, uid: nat) returns (t2: Trace)
    requires IsTrace(c, t) && Enabled(Last(t), a) && Rising(t, uid) && (a.Accept? ==> uid <= a.packet.uid)
    ensures IsTrace(c, t2) && Last(t2) == Next(c, Last(t), a) && Rising(t2, if a.Accept? then a.packet.uid + 1 else uid)
    ensures t2.actions == t.actions + [a] && t.states <= t2.states
    ensures NoneCompletes(t) ==> if a.TransmitComplete? then CompletesAt(t2, Last(t).sched.now) else NoneCompletes(t2)
  {
    ExtendIsTrace(c, t, a);
    ExtendRises(c, t, a, uid);
    t2 := Extend(c, t, a);
  }

  /** In the order of their numbers, all below `n`. */
  predicate ByUid(accepted: seq<DataFrame>, n: nat) {
    && (forall x :: 0 <= x < |accepted| ==> accepted[x].uid < n)
    && forall x, y :: 0 <= x < y < |accepted| ==> accepted[x].uid < accepted[y].uid
  }

  lemma {:induction false} RisingAccepted(actions: seq<Action>, i: nat, n: nat, p: Prio)
    requires i <= |actions| && RisingTo(actions, i, n)
    ensures ByUid(AcceptedOf(actions, i, p), n)
  {
    if i > 0 {
      RisingAccepted(actions, i - 1, if actions[i - 1].Accept? then actions[i - 1].packet.uid else n, p);
    }
  }

  lemma RisingDistinct(t: Trace, n: nat, p: Prio)
    requires Rising(t, n)
    ensures Distinct(AcceptedOf(t.actions, |t.actions|, p))
  {
    RisingAccepted(t.actions, |t.actions|, n, p);
  }

  /** No transmission has ended yet. */
  predicate NoneCompletes(t: Trace) {
    forall i :: 0 <= i < |t.actions| ==> !t.actions[i].TransmitComplete?
  }

  /** All transmissions that have ended did so at this time. */
  predicate CompletesAt(t: Trace, time: real) {
    |t.actions| < |t.states| && forall i :: 0 <= i < |t.actions| && t.actions[i].TransmitComplete? ==> t.states[i].sched.now == time
  }

  lemma ExtendCompletes(c: Config, t: Trace, a: Action, time: real)
    requires IsTrace(c, t) && Enabled(Last(t), a) && CompletesAt(t, time)
    requires a.TransmitComplete? ==> Last(t).sched.now == time
    ensures CompletesAt(Extend(c, t, a), time)
  {
  }

  /**
   * The transmitter is busy, `n` frames of class `p` wait behind it, the upper
   * queues are empty and the only event that is due is the dequeue event.
   */
  ghost predicate Filling(s: Dev, p: Prio, n: nat) {
    && s.mac.busy && |s.mac.queue| == n
    && (forall f :: f in s.mac.queue ==> IsClass(f, p))
    && s.tx.txq == NO_FRAMES && !s.tx.paused[p]
    && DueOnly(s, s.tx.txEvent)
    && s.sched.pending[s.tx.txEvent].call == TryDequeue
    && (forall id :: id in s.sched.pending ==> 0 < id < s.sched.next)
  }

  /** This event is due now, and it is the only one. */
  ghost predicate DueOnly(s: Dev, id: EventId) {
    && id in s.sched.pending && s.sched.pending[id].at == s.sched.now
    && forall other :: other in s.sched.pending && other != id ==> s.sched.pending[other].at > s.sched.now
  }

  /** The part of the state that sending frames of another class does not touch. */
  predicate SamePauses(s: Dev, s1: Dev) {
    && s1.tx.hold == s.tx.hold && s1.tx.paused == s.tx.paused && s1.tx.until == s.tx.until
    && s1.tx.refill == s.tx.refill && s1.sched.now == s.sched.now && s1.rx == s.rx
  }

  /** Other pending events stay pending. */
  predicate KeepsTimers(s: Dev, s1: Dev) {
    && (forall id :: id in s.sched.pending && id != s.tx.txEvent ==> id in s1.sched.pending && s1.sched.pending[id] == s.sched.pending[id])
    && (forall id :: id in s1.sched.pending && id != s1.tx.txEvent ==> id in s.sched.pending && id != s.tx.txEvent)
  }

  /** With room in the MAC queue, an accepted frame of an open class is dequeued at once. */
  lemma DequeueAccepted(c: Config, s: Dev, f: DataFrame, n: nat)
    requires Filling(s, f.prio, n) && n < c.cap
    ensures var s1 := Next(c, s, Accept(f));
      var fire := Fire(s.tx.txEvent, false);
      && Enabled(s1, fire) && s1.tx.txEvent == s.tx.txEvent
      && Next(c, s1, fire) == RetryTx(
        s.(mac := s.mac.(queue := s.mac.queue + [f]), sched := s.sched.Cancel(s.tx.txEvent)), 0.0)
  {
    var p: Prio := f.prio;
    var s1 := Next(c, s, Accept(f));
    assert s1.tx.txq[p] == [f];
    var s2 := s1.(sched := s1.sched.Cancel(s1.tx.txEvent));
    assert PickNextPrio(s2) == Some(p);
    assert [f][1..] == [] && forall r: Prio :: NO_FRAMES[r] == [];
    assert s2.tx.txq[p := s2.tx.txq[p][1..]] == NO_FRAMES;
  }

  /** And it is in the MAC queue. */
  lemma AcceptOne(c: Config, t: Trace, p: Prio, n: nat, uid: nat) returns (t2: Trace)
    requires IsTrace(c, t) && Filling(Last(t), p, n) && n < c.cap && Rising(t, uid)
    ensures IsTrace(c, t2) && Filling(Last(t2), p, n + 1)
    ensures SamePauses(Last(t), Last(t2)) && KeepsTimers(Last(t), Last(t2))
    ensures NoneCompletes(t) ==> NoneCompletes(t2)
    ensures Rising(t2, uid + 1)
  {
    var s, f := Last(t), Data(uid, p, None);
    DequeueAccepted(c, s, f, n);
    StillFilling(s, f, n);
    var t1 := Step(c, t, Accept(f), uid);
    t2 := Step(c, t1, Fire(s.tx.txEvent, false), uid + 1);
  }

  lemma StillFilling(s: Dev, f: DataFrame, n: nat)
    requires Filling(s, f.prio, n)
    ensures var s2 := RetryTx(s.(mac := s.mac.(queue := s.mac.queue + [f]), sched := s.sched.Cancel(s.tx.txEvent)), 0.0);
      Filling(s2, f.prio, n + 1) && SamePauses(s, s2) && KeepsTimers(s, s2)
  {
  }

  lemma AcceptMany(c: Config, t: Trace, p: Prio, n: nat, m: nat, uid: nat) returns (t2: Trace)
    requires IsTrace(c, t) && Filling(Last(t), p, n) && n <= m <= c.cap && Rising(t, uid)
    ensures IsTrace(c, t2) && Filling(Last(t2), p, m)
    ensures SamePauses(Last(t), Last(t2)) && KeepsTimers(Last(t), Last(t2))
    ensures NoneCompletes(t) ==> NoneCompletes(t2)
    ensures Rising(t2, uid + (m - n))
    decreases m - n
  {
    t2 := t;
    if n < m {
      var t1 := AcceptOne(c, t, p, n, uid);
      t2 := AcceptMany(c, t1, p, n + 1, m, uid + 1);
    }
  }

  /** The first frame starts the transmitter. */
  lemma StartTransmitter(c: Config) returns (t: Trace)
    requires 0 < c.cap
    ensures IsTrace(c, t) && Filling(Last(t), 0, 0)
    ensures SamePauses(INITIAL, Last(t)) && NoneCompletes(t) && Rising(t, 1)
    ensures Last(t).sched.pending.Keys == {Last(t).tx.txEvent}
  {
    var f := Data(0, 0, None);
    var t0 := Trace([INITIAL], []);
    var t1 := Extend(c, t0, Accept(f));
    ExtendIsTrace(c, t0, Accept(f));
    var s1 := Last(t1);
    assert s1.tx.txEvent == 1 && s1.sched.pending == map[1 := Event(0.0, TryDequeue)];
    ExtendIsTrace(c, t1, Fire(1, false));
    t := Extend(c, t1, Fire(1, false));
    var s2 := s1.(sched := s1.sched.Cancel(1));
    assert s2.tx.txq[0] == [f];
    assert PickNextPrio(s2) == Some(0);
    assert Last(t) == DequeueClass(c, s2, 0);
    assert s2.tx.txq[0 := s2.tx.txq[0][1..]] == NO_FRAMES;
  }

  /** With nothing to dequeue, the due dequeue event does nothing. */
  lemma FireEmpty(c: Config, t: Trace, uid: nat) returns (t2: Trace)
    requires IsTrace(c, t)
    requires Rising(t, uid)
    requires Last(t).tx.txq == NO_FRAMES && DueOnly(Last(t), Last(t).tx.txEvent)
    requires Last(t).sched.pending[Last(t).tx.txEvent].call == TryDequeue
    ensures IsTrace(c, t2) && (NoneCompletes(t) ==> NoneCompletes(t2)) && Rising(t2, uid)
    ensures t2.actions == t.actions + [Fire(Last(t).tx.txEvent, false)] && t.states <= t2.states
    ensures Last(t2) == Last(t).(sched := Last(t).sched.Cancel(Last(t).tx.txEvent))
  {
    var s := Last(t);
    var fire := Fire(s.tx.txEvent, false);
    t2 := Step(c, t, fire, uid);
    assert PickNextPrio(s.(sched := s.sched.Cancel(s.tx.txEvent))) == None;
  }

  lemma AllOfClass(q: seq<Frame>, p: Prio)
    requires forall f :: f in q ==> IsClass(f, p)
    ensures OfClass(q, p) == q && Without(q, p) == []
  {
    OfClassPure(q, p, p);
    SplitCount(q, p);
  }

  /** Class 0 is paused with its whole backlog on hold, and nothing else waits. */
  ghost predicate PausedBacklog(c: Config, s: Dev, q: nat) {
    && Filling(s, 1, 0) && s.tx.paused == ALL_CLEAR[0 := true] && s.sched.now == 0.0 && s.tx.until[0] == PauseTime(c, q)
    && |s.tx.hold[0]| == c.cap && s.tx.refill[0] != s.tx.txEvent
    && s.sched.pending == map[s.tx.txEvent := Event(s.sched.now, TryDequeue),
                              s.tx.refill[0] := Event(s.tx.until[0], ResumeFromPause(0))]
  }

  lemma PauseFull(c: Config, s: Dev, q: nat)
    requires 0 < q < 0x1_0000 && Filling(s, 0, c.cap) && SamePauses(INITIAL, s)
    requires s.sched.pending == map[s.tx.txEvent := Event(s.sched.now, TryDequeue)]
    ensures PausedBacklog(c, Next(c, s, Receive(PauseFrame(0, q))), q)
  {
    OneClassOnly(c, s, 0, q, 8);
    AllOfClass(s.mac.queue, 0);
    assert s.tx.refill[0] == 0 && s.tx.refill[0] !in s.sched.pending;
    assert s.sched.Cancel(0) == s.sched;
    assert Next(c, s, Receive(PauseFrame(0, q))) == ArmTx(Xoff(c, s, 0, q)) == Xoff(c, s, 0, q);
    assert s.tx.hold[0] + s.mac.queue == s.mac.queue;
  }

  /** Class 0 fills the MAC queue, is paused, and its whole backlog goes on hold, all at time zero. */
  lemma PauseFullQueue(c: Config, q: nat) returns (t: Trace)
    requires 0 < c.cap && 0 < q < 0x1_0000
    ensures IsTrace(c, t) && NoneCompletes(t) && Rising(t, c.cap + 1) && PausedBacklog(c, Last(t), q)
  {
    var t0 := StartTransmitter(c);
    var t1 := AcceptMany(c, t0, 0, 0, c.cap, 1);
    var s := Last(t1);
    assert s.sched.pending.Keys == {s.tx.txEvent};
    assert s.sched.pending == map[s.tx.txEvent := Event(s.sched.now, TryDequeue)];
    PauseFull(c, s, q);
    t := Step(c, t1, Receive(PauseFrame(0, q)), c.cap + 1);
  }

  /** Idle with an empty MAC queue, class 0 on hold, and the end of its pause the only thing to come. */
  ghost predicate AboutToResume(c: Config, s: Dev) {
    && !s.mac.busy && s.mac.queue == [] && |s.tx.hold[0]| == c.cap
    && s.tx.paused == ALL_CLEAR[0 := true] && s.sched.now <= s.tx.until[0]
    && s.sched.pending == map[s.tx.refill[0] := Event(s.tx.until[0], ResumeFromPause(0))]
  }

  lemma RunDry(c: Config, q: nat, airtime: real) returns (t: Trace)
    requires 0 < c.cap && 0 < q < 0x1_0000 && 0.0 <= airtime <= PauseTime(c, q)
    ensures IsTrace(c, t) && AboutToResume(c, Last(t)) && CompletesAt(t, airtime) && Last(t).tx.until[0] == PauseTime(c, q)
  {
    var t0 := PauseFullQueue(c, q);
    var t1 := FireEmpty(c, t0, c.cap + 1);
    var s1 := Last(t1);
    assert s1.sched.pending == map[s1.tx.refill[0] := Event(s1.tx.until[0], ResumeFromPause(0))];
    ExtendIsTrace(c, t1, Tick(airtime));
    var t2 := Extend(c, t1, Tick(airtime));
    ExtendIsTrace(c, t2, TransmitComplete);
    ExtendCompletes(c, t2, TransmitComplete, airtime);
    t := Extend(c, t2, TransmitComplete);
  }

  lemma ResumeJams(c: Config, s: Dev)
    requires AboutToResume(c, s) && 0 < c.cap && s.sched.now == s.tx.until[0]
    ensures var s1 := Resume(c, s.(sched := s.sched.Cancel(s.tx.refill[0])), 0);
      Jammed(c, s1.mac) && forall p: Prio :: !Gated(s1, p)
  {
    var s0 := Unpaused(s.(sched := s.sched.Cancel(s.tx.refill[0])), 0);
    RefillMac(c, s0, 0);
    assert Movable(c, s0, 0) == c.cap;
    forall p: Prio
      ensures !Gated(Refill(c, s0, 0), p)
    {
      RefillPauses(c, s0, 0, p);
    }
  }

  /**
   * Every device can be jammed, however long its frames take to send: at time
   * zero fill the queue behind the first frame and pause the class, let that frame
   * leave before the pause runs out, and let the pause run out.
   */
  lemma JamIsReachable(c: Config, q: nat, airtime: real) returns (t: Trace)
    requires 0 < c.cap && 0 < q < 0x1_0000 && 0.0 <= airtime <= PauseTime(c, q)
    ensures IsTrace(c, t) && CompletesAt(t, airtime) && Jammed(c, Last(t).mac)
    ensures forall p: Prio :: !Gated(Last(t), p)
  {
    var t0 := RunDry(c, q, airtime);
    var tick := Tick(Last(t0).tx.until[0]);
    ExtendIsTrace(c, t0, tick);
    ExtendCompletes(c, t0, tick, airtime);
    var t1 := Extend(c, t0, tick);
    var fire := Fire(Last(t1).tx.refill[0], false);
    ExtendIsTrace(c, t1, fire);
    ExtendCompletes(c, t1, fire, airtime);
    t := Extend(c, t1, fire);
    ResumeJams(c, Last(t1));
  }

  lemma OnlyThePause(s: Dev, s1: Dev)
    requires SamePauses(s, s1) && KeepsTimers(s, s1) && s1.tx.txEvent in s1.sched.pending
    requires s1.sched.pending[s1.tx.txEvent].call == TryDequeue && s.tx.refill[0] != s.tx.txEvent
    requires s.sched.pending == map[s.tx.txEvent := Event(s.sched.now, TryDequeue),
                                    s.tx.refill[0] := Event(s.tx.until[0], ResumeFromPause(0))]
    ensures s1.tx.txEvent != s1.tx.refill[0] && s1.tx.refill[0] in s1.sched.pending
    ensures s1.sched.Cancel(s1.tx.txEvent).pending == map[s1.tx.refill[0] := Event(s1.tx.until[0], ResumeFromPause(0))]
  {
    assert s.tx.refill[0] in s1.sched.pending;
    assert s1.sched.Cancel(s1.tx.txEvent).pending.Keys == {s1.tx.refill[0]};
  }

  /** Class 0 is on hold and paused for a while yet; class 1 has filled the MAC queue of the busy transmitter. */
  ghost predicate Backlog(c: Config, s: Dev) {
    && s.mac.busy && |s.mac.queue| == c.cap && s.tx.txq == NO_FRAMES
    && s.tx.paused[0] && s.tx.hold[0] != []
    && s.tx.txEvent != s.tx.refill[0] && s.tx.refill[0] < s.sched.next && s.tx.txEvent < s.sched.next
    && s.sched.pending == map[s.tx.refill[0] := Event(s.tx.until[0], ResumeFromPause(0))]
  }

  lemma FillBehind(c: Config, q: nat) returns (t: Trace)
    requires 0 < c.cap && 0 < q < 0x1_0000
    ensures IsTrace(c, t) && NoneCompletes(t) && Rising(t, 2 * c.cap + 1)
    ensures Backlog(c, Last(t)) && Last(t).sched.now == 0.0 && Last(t).tx.until[0] == PauseTime(c, q)
  {
    var t0 := PauseFullQueue(c, q);
    var t1 := AcceptMany(c, t0, 1, 0, c.cap, c.cap + 1);
    OnlyThePause(Last(t0), Last(t1));
    t := FireEmpty(c, t1, 2 * c.cap + 1);
  }

  lemma BlockBacklog(c: Config, q: nat, airtime: real) returns (t: Trace)
    requires 0 < c.cap && 0 < q < 0x1_0000 && 0.0 <= airtime < PauseTime(c, q)
    ensures IsTrace(c, t) && NoneCompletes(t) && Rising(t, 2 * c.cap + 1)
    ensures Backlog(c, Last(t)) && Last(t).sched.now == airtime < Last(t).tx.until[0]
  {
    var t0 := FillBehind(c, q);
    t := Step(c, t0, Tick(airtime), 2 * c.cap + 1);
  }

  /** The MAC queue is full, class 0 is on hold with its pause running, and one newer frame of it waits above. */
  ghost predicate Blocked(c: Config, s: Dev, f: DataFrame) {
    && s.mac.busy && |s.mac.queue| == c.cap && 0 < c.cap
    && s.tx.hold[0] != [] && s.tx.txq == NO_FRAMES[0 := [f]]
    && s.tx.txEvent != s.tx.refill[0] && s.tx.txEvent < s.sched.next
    && s.sched.pending == map[s.tx.txEvent := Event(s.sched.now, TryDequeue),
                              s.tx.refill[0] := Event(s.tx.until[0], ResumeFromPause(0))]
  }

  lemma XonFull(c: Config, s: Dev, f: DataFrame)
    requires Blocked(c, s, f)
    ensures var s1 := Xon(c, s, 0);
      && s1.mac == s.mac && s1.tx.hold[0] == s.tx.hold[0] && s1.tx.txq == s.tx.txq && !s1.tx.paused[0]
      && s1.tx.txEvent == s.tx.txEvent && s1.sched.now == s.sched.now
      && s1.sched.pending == map[s.tx.txEvent := Event(s.sched.now, TryDequeue),
                                 s.sched.next := Event(s.sched.now + RETRY_REFILL, RefillMacQueueFromHold(0))]
  {
    var s0 := Reopened(s, 0);
    assert Movable(c, s0, 0) == 0;
    assert s0.sched.pending == map[s.tx.txEvent := Event(s.sched.now, TryDequeue)];
    assert s.mac.queue + s.tx.hold[0][..0] == s.mac.queue;
    assert s.tx.hold[0][0..] == s.tx.hold[0];
  }

  lemma XonReceived(c: Config, s: Dev, f: DataFrame)
    requires Blocked(c, s, f)
    ensures Next(c, s, Receive(PauseFrame(0, 0))) == Xon(c, s, 0)
    ensures var s1 := Xon(c, s, 0);
      && s1.mac == s.mac && s1.tx.hold[0] == s.tx.hold[0] && s1.tx.txq == s.tx.txq && !s1.tx.paused[0]
      && s1.tx.txEvent == s.tx.txEvent < s1.sched.next && s1.sched.now == s.sched.now && DueOnly(s1, s1.tx.txEvent)
      && s1.sched.pending[s1.tx.txEvent].call == TryDequeue && NotBefore(s1, s1.tx.txEvent, s.sched.now + RETRY_REFILL)
  {
    OneClassOnly(c, s, 0, 0, 8);
    XonFull(c, s, f);
  }

  /** The pause ends while there is no room, and then one frame leaves. */
  lemma EndPauseFull(c: Config, t: Trace, f: DataFrame, uid: nat) returns (t2: Trace)
    requires IsTrace(c, t) && Blocked(c, Last(t), f) && Rising(t, uid)
    ensures IsTrace(c, t2) && t2.actions == t.actions + [Receive(PauseFrame(0, 0)), TransmitComplete]
    ensures Rising(t2, uid) && (NoneCompletes(t) ==> CompletesAt(t2, Last(t).sched.now))
    ensures var s, s2 := Last(t), Last(t2);
      && HasRoom(c, s2.mac) && s2.mac.busy && s2.tx.hold[0] == s.tx.hold[0] && s2.tx.txq == s.tx.txq && !s2.tx.paused[0]
      && s2.tx.txEvent == s.tx.txEvent && s2.sched.now == s.sched.now && DueOnly(s2, s2.tx.txEvent)
      && s2.sched.pending[s2.tx.txEvent].call == TryDequeue
      && NotBefore(s2, s2.tx.txEvent, s.sched.now + RETRY_REFILL) && s2.tx.txEvent < s2.sched.next
  {
    XonReceived(c, Last(t), f);
    var t1 := Step(c, t, Receive(PauseFrame(0, 0)), uid);
    t2 := Step(c, t1, TransmitComplete, uid);
  }

  /** Apart from this one, no event fires before the deadline. */
  ghost predicate NotBefore(s: Dev, id: EventId, deadline: real) {
    forall other :: other in s.sched.pending && other != id ==> s.sched.pending[other].at >= deadline
  }

  /** The newest frame of class 0 is in the MAC queue, older ones are on hold, and the next refill is a retry away. */
  ghost predicate Overtaken(c: Config, s: Dev, newest: DataFrame) {
    && s.mac.busy && |s.mac.queue| <= c.cap && s.tx.txq == NO_FRAMES
    && newest in OfClass(s.mac.queue, 0) && s.tx.hold[0] != []
    && DueOnly(s, s.tx.txEvent) && s.sched.pending[s.tx.txEvent].call == TryDequeue
    && NotBefore(s, s.tx.txEvent, s.sched.now + RETRY_REFILL)
  }

  /**
   * Frames do overtake: hold back the backlog of class 0, let class 1 fill the
   * MAC queue, and end the pause. The refill finds no room, one frame leaves, and
   * the frame that was accepted last is dequeued before the backlog is refilled.
   * The first frame, started at time zero, may take any time below the pause.
   */
  lemma OvertakingIsReachable(c: Config, q: nat, airtime: real) returns (t: Trace, a: Action, newest: DataFrame)
    requires 0 < c.cap && 0 < q < 0x1_0000 && 0.0 <= airtime < PauseTime(c, q)
    ensures IsTrace(c, t) && CompletesAt(t, airtime) && Enabled(Last(t), a) && Overtakes(c, Last(t), a, 0)
    ensures |t.actions| >= 3 && t.actions[|t.actions| - 3] == Accept(newest) && a.Fire?
    ensures newest.prio == 0 && Rising(t, newest.uid + 1)
    ensures var s := Next(c, Last(t), a);
      newest in s.mac.queue && s.tx.hold[0] != [] && newest !in s.tx.hold[0] && Overtaken(c, s, newest) && s.sched.now == airtime
  {
    t, newest := WaitBehind(c, q, airtime);
    a := Fire(Last(t).tx.txEvent, false);
    DequeueNewest(c, Last(t), newest);
    NewestOnPath(c, t, a, newest);
  }

  /** One dequeue before the frame overtakes: older frames are on hold, and there is room again. */
  ghost predicate AboutToOvertake(c: Config, s: Dev, newest: DataFrame) {
    && HasRoom(c, s.mac) && s.mac.busy && s.tx.hold[0] != [] && s.tx.txq == NO_FRAMES[0 := [newest]] && !s.tx.paused[0]
    && DueOnly(s, s.tx.txEvent) && s.tx.txEvent < s.sched.next && s.sched.pending[s.tx.txEvent].call == TryDequeue
    && NotBefore(s, s.tx.txEvent, s.sched.now + RETRY_REFILL)
  }

  lemma OneMore(c: Config, s: Dev, f: DataFrame)
    requires Backlog(c, s) && 0 < c.cap && f.prio == 0
    ensures Blocked(c, Next(c, s, Accept(f)), f) && Next(c, s, Accept(f)).sched.now == s.sched.now
  {
    assert [] + [f] == [f];
    assert Next(c, s, Accept(f)).tx.txq == NO_FRAMES[0 := [f]];
  }

  lemma WaitBehind(c: Config, q: nat, airtime: real) returns (t: Trace, newest: DataFrame)
    requires 0 < c.cap && 0 < q < 0x1_0000 && 0.0 <= airtime < PauseTime(c, q)
    ensures IsTrace(c, t) && CompletesAt(t, airtime) && newest.prio == 0 && Rising(t, newest.uid + 1)
    ensures |t.actions| >= 3 && t.actions[|t.actions| - 3] == Accept(newest)
    ensures AboutToOvertake(c, Last(t), newest) && Last(t).sched.now == airtime
  {
    var t0 := BlockBacklog(c, q, airtime);
    newest := Data(2 * c.cap + 1, 0, None);
    var t1 := Step(c, t0, Accept(newest), 2 * c.cap + 1);
    OneMore(c, Last(t0), newest);
    t := EndPauseFull(c, t1, newest, newest.uid + 1);
  }

  lemma DequeueNewest(c: Config, s: Dev, newest: DataFrame)
    requires AboutToOvertake(c, s, newest) && newest.prio == 0
    ensures var a := Fire(s.tx.txEvent, false);
      && Enabled(s, a) && Overtakes(c, s, a, 0)
      && Overtaken(c, Next(c, s, a), newest) && newest in Next(c, s, a).mac.queue && Next(c, s, a).sched.now == s.sched.now
  {
    var s2 := s.(sched := s.sched.Cancel(s.tx.txEvent));
    PickSame(s, s2, 8);
    assert s2.tx.txq[0] == [newest];
    assert PickNextPrio(s2) == Some(0);
    assert [newest][1..] == [] && forall r: Prio :: NO_FRAMES[r] == [];
    assert s2.tx.txq[0 := s2.tx.txq[0][1..]] == NO_FRAMES;
    OfClassSnoc(s.mac.queue, newest, 0);
    assert newest in OfClass(DequeueClass(c, s2, 0).mac.queue, 0);
  }

  /** After such a step the newest frame is in the transmitter only. */
  lemma NewestOnPath(c: Config, t: Trace, a: Action, newest: DataFrame)
    requires IsTrace(c, t) && Enabled(Last(t), a) && a.Fire? && Rising(t, newest.uid + 1)
    requires newest in OfClass(Next(c, Last(t), a).mac.queue, 0)
    ensures newest !in Next(c, Last(t), a).tx.hold[0]
  {
    ExtendIsTrace(c, t, a);
    ExtendRises(c, t, a, newest.uid + 1);
    var t1 := Extend(c, t, a);
    RisingDistinct(t1, newest.uid + 1, 0);
    OnePlace(c, t1.states, t1.actions, |t1.actions|, 0);
  }

  /** The transmitter sends `n` frames, each of which takes the time `d`. */
  function SendAll(now: real, d: real, n: nat): (r: seq<Action>)
    ensures forall k :: 0 <= k < |r| ==> r[k].Tick? || r[k].TransmitComplete?
    decreases n
  {
    if n == 0 then [] else [Tick(now + d), TransmitComplete] + SendAll(now + d, d, n - 1)
  }

  ghost predicate QuietUntil(s: Dev, deadline: real) {
    forall id :: id in s.sched.pending ==> s.sched.pending[id].at >= deadline
  }

  lemma SendOne(c: Config, t: Trace, d: real, deadline: real, uid: nat) returns (t2: Trace)
    requires IsTrace(c, t) && Last(t).mac.busy && Last(t).mac.queue != [] && Rising(t, uid)
    requires 0.0 <= d && Last(t).sched.now + d <= deadline && QuietUntil(Last(t), deadline)
    ensures IsTrace(c, t2) && Rising(t2, uid) && t.states <= t2.states
    ensures t2.actions == t.actions + [Tick(Last(t).sched.now + d), TransmitComplete]
    ensures var s, s2 := Last(t), Last(t2);
      && s2.mac == TransmitHead(s.mac) && s2.tx == s.tx && s2.sched == s.sched.(now := s.sched.now + d)
  {
    var s := Last(t);
    var tick := Tick(s.sched.now + d);
    var t1 := Step(c, t, tick, uid);
    t2 := Step(c, t1, TransmitComplete, uid);
  }

  lemma OneLess(n: nat, d: real)
    requires n > 0
    ensures n as real * d == d + (n - 1) as real * d
  {
  }

  /** As long as no event is due, the transmitter sends what is in its queue. */
  lemma {:induction false} Flush(c: Config, t: Trace, d: real, deadline: real, uid: nat) returns (t2: Trace)
    requires IsTrace(c, t) && Last(t).mac.busy && Rising(t, uid)
    requires 0.0 <= d && Last(t).sched.now + |Last(t).mac.queue| as real * d <= deadline
    requires QuietUntil(Last(t), deadline)
    ensures IsTrace(c, t2) && Rising(t2, uid) && t.states <= t2.states
    ensures t2.actions == t.actions + SendAll(Last(t).sched.now, d, |Last(t).mac.queue|)
    ensures Last(t2).mac.wire == Last(t).mac.wire + Last(t).mac.queue && Last(t2).tx == Last(t).tx
    decreases |Last(t).mac.queue|
  {
    var s := Last(t);
    var n := |s.mac.queue|;
    if n == 0 {
      t2 := t;
      assert t.actions + [] == t.actions;
      assert s.mac.wire + s.mac.queue == s.mac.wire;
    } else {
      OneLess(n, d);
      assert (n - 1) as real * d >= 0.0;
      var t1 := SendOne(c, t, d, deadline, uid);
      t2 := Flush(c, t1, d, deadline, uid);
      SeqAssoc(t.actions, [Tick(s.sched.now + d), TransmitComplete], SendAll(s.sched.now + d, d, n - 1));
      assert s.mac.wire + s.mac.queue == (s.mac.wire + [s.mac.queue[0]]) + s.mac.queue[1..];
    }
  }

  /**
   * And the far end sees it: let the frames in the MAC queue follow, each within
   * its share of the time until the refill is tried again. Then the newest frame of
   * the class has been sent while an older one is still on hold, so the wire does not
   * show the order of acceptance, although all packets are different.
   */
  lemma OvertakingReachesTheWire(c: Config, q: nat, airtime: real, d: real)
    returns (t0: Trace, a: Action, t: Trace, newest: DataFrame)
    requires 0 < c.cap && 0 < q < 0x1_0000 && 0.0 <= airtime < PauseTime(c, q)
    requires 0.0 <= d && c.cap as real * d <= RETRY_REFILL
    ensures IsTrace(c, t0) && CompletesAt(t0, airtime) && Enabled(Last(t0), a) && Overtakes(c, Last(t0), a, 0)
    ensures IsTrace(c, t) && Distinct(AcceptedOf(t.actions, |t.actions|, 0))
    ensures var s := Next(c, Last(t0), a);
      && t.actions == t0.actions + [a, Fire(s.tx.txEvent, false)] + SendAll(airtime, d, |s.mac.queue|)
      && newest in OfClass(Last(t).mac.wire, 0) && Last(t).tx.hold[0] == s.tx.hold[0] != []
    ensures !(OfClass(Last(t).mac.wire, 0) <= AcceptedOf(t.actions, |t.actions|, 0))
  {
    t0, a, newest := OvertakingIsReachable(c, q, airtime);
    var uid := newest.uid + 1;
    ExtendIsTrace(c, t0, a);
    ExtendRises(c, t0, a, uid);
    var t1 := Extend(c, t0, a);
    t := SendRest(c, t1, d, uid, newest);
    Joined(t0.actions, a, Fire(Last(t1).tx.txEvent, false), SendAll(airtime, d, |Last(t1).mac.queue|));
  }

  lemma Joined(before: seq<Action>, a: Action, b: Action, after: seq<Action>)
    ensures before + [a] + [b] + after == before + [a, b] + after
  {
  }

  lemma SendQueue(c: Config, t1: Trace, d: real, uid: nat, newest: DataFrame) returns (t: Trace)
    requires IsTrace(c, t1) && Overtaken(c, Last(t1), newest) && Rising(t1, uid)
    requires 0.0 <= d && c.cap as real * d <= RETRY_REFILL
    ensures IsTrace(c, t) && Rising(t, uid) && t1.states <= t.states && t1.actions <= t.actions
    ensures var s := Last(t1);
      && t.actions == t1.actions + [Fire(s.tx.txEvent, false)] + SendAll(s.sched.now, d, |s.mac.queue|)
      && Last(t).mac.wire == s.mac.wire + s.mac.queue && Last(t).tx == s.tx
    ensures forall k :: |t1.actions| <= k < |t.actions| ==> !t.actions[k].Receive?
  {
    var s := Last(t1);
    var t2 := FireEmpty(c, t1, uid);
    assert QuietUntil(Last(t2), s.sched.now + RETRY_REFILL);
    Within(|s.mac.queue|, c.cap, d);
    t := Flush(c, t2, d, s.sched.now + RETRY_REFILL, uid);
  }

  lemma SendRest(c: Config, t1: Trace, d: real, uid: nat, newest: DataFrame) returns (t: Trace)
    requires IsTrace(c, t1) && Overtaken(c, Last(t1), newest) && Rising(t1, uid) && newest.uid + 1 == uid
    requires 0.0 <= d && c.cap as real * d <= RETRY_REFILL
    ensures IsTrace(c, t) && Distinct(AcceptedOf(t.actions, |t.actions|, 0))
    ensures var s := Last(t1);
      && t.actions == t1.actions + [Fire(s.tx.txEvent, false)] + SendAll(s.sched.now, d, |s.mac.queue|)
      && newest in OfClass(Last(t).mac.wire, 0) && Last(t).tx.hold[0] == s.tx.hold[0]
    ensures !(OfClass(Last(t).mac.wire, 0) <= AcceptedOf(t.actions, |t.actions|, 0))
  {
    t := SendQueue(c, t1, d, uid, newest);
    OfClassConcat(Last(t1).mac.wire, Last(t1).mac.queue, 0);
    SentOutOfOrder(c, t1, t, uid, newest);
  }

  lemma Within(n: nat, m: nat, d: real)
    requires n <= m && d >= 0.0
    ensures n as real * d <= m as real * d
  {
  }

  lemma SentOutOfOrder(c: Config, t1: Trace, t: Trace, uid: nat, newest: DataFrame)
    requires IsTrace(c, t1) && IsTrace(c, t) && t1.states <= t.states && t1.actions <= t.actions && Rising(t, uid)
    requires forall k :: |t1.actions| <= k < |t.actions| ==> !t.actions[k].Receive?
    requires Last(t1).tx.hold[0] != [] && newest in OfClass(Last(t1).mac.queue, 0) && newest.uid + 1 == uid
    requires newest in OfClass(Last(t).mac.wire, 0)
    ensures Distinct(AcceptedOf(t.actions, |t.actions|, 0))
    ensures !(OfClass(Last(t).mac.wire, 0) <= AcceptedOf(t.actions, |t.actions|, 0))
  {
    var i := |t1.actions|;
    assert t.states[i] == Last(t1);
    RisingDistinct(t, uid, 0);
    var older, newer := Positions(c, t, i, uid, newest);
    OvertakenOnWire(c, t.states, t.actions, i, |t.actions|, 0, older, newer);
  }

  /** The frame on hold was accepted before the newest one. */
  lemma Positions(c: Config, t: Trace, i: nat, uid: nat, newest: DataFrame) returns (older: nat, newer: nat)
    requires IsTrace(c, t) && Rising(t, uid) && i <= |t.actions| && newest.uid + 1 == uid
    requires t.states[i].tx.hold[0] != [] && newest in OfClass(t.states[i].mac.queue, 0)
    ensures older < newer < |AcceptedOf(t.actions, i, 0)|
    ensures AcceptedOf(t.actions, i, 0)[older] == t.states[i].tx.hold[0][0] && AcceptedOf(t.actions, i, 0)[newer] == newest
  {
    RisingDistinct(t, uid, 0);
    OnePlace(c, t.states, t.actions, i, 0);
    assert newest in MacPath(t.states[i].mac, 0);
    WasAccepted(c, t, i, t.states[i].tx.hold[0][0]);
    WasAccepted(c, t, i, newest);
    RisingBefore(t.actions, i, |t.actions|, uid);
    RisingAccepted(t.actions, i, uid, 0);
    older, newer := InOrder(AcceptedOf(t.actions, i, 0), uid, t.states[i].tx.hold[0][0], newest);
  }

  lemma WasAccepted(c: Config, t: Trace, i: nat, f: DataFrame)
    requires IsTrace(c, t) && i <= |t.actions|
    requires f in t.states[i].tx.hold[0] || f in OfClass(t.states[i].mac.queue, 0)
    ensures f in AcceptedOf(t.actions, i, 0)
  {
    NothingLost(c, t.states, t.actions, i, 0);
    assert f in multiset(AcceptedOf(t.actions, i, 0));
  }

  lemma InOrder(accepted: seq<DataFrame>, uid: nat, held: DataFrame, newest: DataFrame) returns (older: nat, newer: nat)
    requires ByUid(accepted, uid) && held in accepted && newest in accepted && held != newest && newest.uid + 1 == uid
    ensures older < newer < |accepted| && accepted[older] == held && accepted[newer] == newest
  {
    older :| 0 <= older < |accepted| && accepted[older] == held;
    newer :| 0 <= newer < |accepted| && accepted[newer] == newest;
  }
}
