/**
 * How fast waiting frames move on: the next look at a queue comes at the same
 * moment after a frame has moved and exactly ten microseconds after one was refused,
 * so time does not pass while there is something to do.
 */
module DeviceTempo {
  import opened Frames
  import opened EventQueue
  import opened PfcDevice
  import opened DeviceEvents
  import opened DeviceGate

  /** An event with this call is pending at this moment. */
  ghost predicate ComesAt(s: Dev, call: Call, at: real) {
    exists id :: id in s.sched.pending && s.sched.pending[id] == Event(at, call)
  }

  ghost predicate Comes(s: Dev, call: Call) {
    exists id :: id in s.sched.pending && s.sched.pending[id].call == call
  }

  /** The action fires an event with this call. */
  predicate FiresCall(s: Dev, a: Action, call: Call) {
    a.Fire? && a.id in s.sched.pending && s.sched.pending[a.id].call == call
  }

  predicate NothingWaits(s: Dev) {
    forall p: Prio :: s.rx.ingressQ[p] == []
  }

  /** The next drain takes a frame that leaves through another port. */
  predicate Forwards(s: Dev) {
    exists p: Prio :: s.rx.ingressQ[p] != [] && s.rx.ingressQ[p][0].egress.Some? && forall r: Prio :: r > p ==> s.rx.ingressQ[r] == []
  }

  // ---------- One drain ----------

  lemma ForwardsHead(s: Dev)
    ensures Forwards(s) <==> WaitingBelow(s, 8).Some? && s.rx.ingressQ[WaitingBelow(s, 8).value][0].egress.Some?
  {
    var w := WaitingBelow(s, 8);
    if Forwards(s) {
      var p: Prio :| s.rx.ingressQ[p] != [] && s.rx.ingressQ[p][0].egress.Some? && forall r: Prio :: r > p ==> s.rx.ingressQ[r] == [];
      assert w.Some?;
      assert w.value == p;
    }
    if w.Some? {
      assert forall r: Prio :: r > w.value ==> s.rx.ingressQ[r] == [];
    }
  }

  /** The handle names the event. */
  lemma HandleComes(s: Dev, call: Call, at: real)
    requires Owned(s)
    ensures ComesAt(s, call, at) <==>
      Pending(s, HandleOf(s, call)) && s.sched.pending[HandleOf(s, call)] == Event(at, call)
    ensures Comes(s, call) <==> Pending(s, HandleOf(s, call)) && s.sched.pending[HandleOf(s, call)].call == call
  {
  }

  /**
   * After a drain that delivers a frame the next drain is due at the same moment; after one that is
   * refused it comes exactly 10 us later and nothing else has happened; after one that finds nothing no drain is pending.
   */
  lemma DrainTimes(c: Config, s: Dev, id: EventId, granted: bool)
    requires EventsOk(s) && Enabled(s, Fire(id, granted)) && s.sched.pending[id].call == DoIngressDrain
    ensures var s1 := Next(c, s, Fire(id, granted));
      if NothingWaits(s) then !Comes(s1, DoIngressDrain) && s1.rx == s.rx
      else if Forwards(s) && !granted then
        ComesAt(s1, DoIngressDrain, s.sched.now + 0.00001) && s1.rx.ingressQ == s.rx.ingressQ && s1.rx.delivered == s.rx.delivered
      else
        ComesAt(s1, DoIngressDrain, s.sched.now) && |s1.rx.delivered| == |s.rx.delivered| + 1
  {
    var a := Fire(id, granted);
    var s1 := Next(c, s, a);
    NextKeepsEvents(c, s, a);
    HandleComes(s, DoIngressDrain, s.sched.now);
    HandleComes(s1, DoIngressDrain, s.sched.now);
    HandleComes(s1, DoIngressDrain, s.sched.now + 0.00001);
    var s0 := s.(sched := s.sched.Cancel(id));
    WaitingSame(s, s0, 8);
    ForwardsHead(s);
    assert s1 == DrainStep(c, s0, granted);
  }

  // ---------- Everything but a drain ----------

  /** The drain event, if there is one, is the one there was. */
  predicate DrainSame(s: Dev, s1: Dev) {
    && s1.rx.drainEvent == s.rx.drainEvent && Pending(s1, s.rx.drainEvent) == Pending(s, s.rx.drainEvent)
    && (Pending(s, s.rx.drainEvent) ==> s1.sched.pending[s.rx.drainEvent] == s.sched.pending[s.rx.drainEvent])
  }

  lemma RefillDrain(c: Config, s: Dev, p: Prio)
    requires s.rx.drainEvent < s.sched.next
    ensures DrainSame(s, Refill(c, s, p))
  {
  }

  lemma CancelDrain(s: Dev, s1: Dev, p: Prio)
    requires Owned(s) && s1.sched == s.sched.Cancel(s.tx.refill[p]) && s1.rx == s.rx
    ensures DrainSame(s, s1)
  {
  }

  lemma ApplyClassDrain(c: Config, s: Dev, f: Frame, p: Prio)
    requires f.Control? && EventsOk(s)
    ensures DrainSame(s, ApplyClass(c, s, f, p))
  {
    if p in f.enabled {
      if f.quanta[p] == 0 {
        CancelDrain(s, Reopened(s, p), p);
        RefillDrain(c, Reopened(s, p), p);
      } else {
        var s1 := Purge(Stopped(c, s, p, f.quanta[p]), p);
        CancelDrain(s, s1.(sched := s1.sched.Cancel(s1.tx.refill[p])), p);
      }
    }
  }

  lemma {:induction false} ApplyBelowDrain(c: Config, s: Dev, f: Frame, k: nat)
    requires f.Control? && k <= 8 && EventsOk(s)
    ensures DrainSame(s, ApplyBelow(c, s, f, k))
  {
    if k > 0 {
      ApplyBelowDrain(c, s, f, k - 1);
      ApplyBelowKeeps(c, s, f, k - 1);
      ApplyClassDrain(c, ApplyBelow(c, s, f, k - 1), f, k - 1);
    }
  }

  lemma FireDrain(c: Config, s: Dev, id: EventId, granted: bool)
    requires EventsOk(s) && Enabled(s, Fire(id, granted)) && s.sched.pending[id].call != DoIngressDrain
    ensures DrainSame(s, Next(c, s, Fire(id, granted)))
  {
    var s0 := s.(sched := s.sched.Cancel(id));
    assert id == HandleOf(s, s.sched.pending[id].call);
    assert DrainSame(s, s0);
    match s.sched.pending[id].call {
      case TryDequeue =>
      case ResumeFromPause(p) => RefillDrain(c, Unpaused(s0, p), p);
      case RefillMacQueueFromHold(p) => RefillDrain(c, s0, p);
    }
  }

  /** Only an arrival arms the drain, at that moment, and only when none is pending. */
  lemma OtherTimes(c: Config, s: Dev, a: Action, at: real)
    requires EventsOk(s) && Enabled(s, a) && !FiresCall(s, a, DoIngressDrain)
    ensures var s1 := Next(c, s, a);
      if a.Receive? && a.frame.Data? && !Comes(s, DoIngressDrain) then ComesAt(s1, DoIngressDrain, s.sched.now)
      else ComesAt(s1, DoIngressDrain, at) <==> ComesAt(s, DoIngressDrain, at)
  {
    var s1 := Next(c, s, a);
    NextKeepsEvents(c, s, a);
    HandleComes(s, DoIngressDrain, at);
    HandleComes(s1, DoIngressDrain, at);
    HandleComes(s1, DoIngressDrain, s.sched.now);
    match a
    case Tick(_) =>
    case Accept(_) =>
    case TransmitComplete =>
    case Receive(f) =>
      if f.Control? {
        ApplyBelowDrain(c, s, f, 8);
        ApplyBelowKeeps(c, s, f, 8);
      } else {
        OnDataRxLeaves(c, s.(rx := s.rx.(ingressQ := s.rx.ingressQ[f.prio := s.rx.ingressQ[f.prio] + [f]])), f.prio);
      }
    case Fire(id, granted) => FireDrain(c, s, id, granted);
  }

  // ---------- The sending half ----------

  predicate NothingToSend(s: Dev) {
    forall p: Prio :: s.tx.txq[p] == [] || Gated(s, p)
  }

  /** How many frames wait in the upper queues of the classes below `k`. */
  function Waiting(s: Dev, k: nat): nat
    requires k <= 8
  {
    if k == 0 then 0 else Waiting(s, k - 1) + |s.tx.txq[k - 1]|
  }

  lemma {:induction false} WaitingLess(s: Dev, s1: Dev, p: Prio, k: nat)
    requires k <= 8 && s.tx.txq[p] != [] && s1.tx.txq == s.tx.txq[p := s.tx.txq[p][1..]]
    ensures Waiting(s1, k) == Waiting(s, k) - if p < k then 1 else 0
  {
    if k > 0 {
      WaitingLess(s, s1, p, k - 1);
    }
  }

  lemma {:induction false} PickUnchanged(s: Dev, s1: Dev, k: nat)
    requires s1.tx == s.tx && s1.sched.now == s.sched.now && k <= 8
    ensures PickBelow(s1, k) == PickBelow(s, k)
  {
    if k > 0 {
      PickUnchanged(s, s1, k - 1);
    }
  }

  /**
   * After a dequeue that hands a frame to the transmitter the next one is due at the same moment; after
   * one that is refused for want of room it comes exactly 10 us later and the frame has stayed; after one that finds
   * no frame of an open class none is pending.
   */
  lemma DequeueTimes(c: Config, s: Dev, id: EventId, granted: bool)
    requires EventsOk(s) && Enabled(s, Fire(id, granted)) && s.sched.pending[id].call == TryDequeue
    ensures var s1 := Next(c, s, Fire(id, granted));
      if NothingToSend(s) then !Comes(s1, TryDequeue) && s1.mac == s.mac && s1.tx.txq == s.tx.txq
      else if !HasRoom(c, s.mac) then
        ComesAt(s1, TryDequeue, s.sched.now + 0.00001) && s1.tx.txq == s.tx.txq && |s1.mac.refused| == |s.mac.refused| + 1
      else
        ComesAt(s1, TryDequeue, s.sched.now) && Waiting(s1, 8) == Waiting(s, 8) - 1
        && |s1.mac.queue| + |s1.mac.wire| == |s.mac.queue| + |s.mac.wire| + 1
  {
    var a := Fire(id, granted);
    var s1 := Next(c, s, a);
    NextKeepsEvents(c, s, a);
    HandleComes(s, TryDequeue, s.sched.now);
    HandleComes(s1, TryDequeue, s.sched.now);
    HandleComes(s1, TryDequeue, s.sched.now + 0.00001);
    var s0 := s.(sched := s.sched.Cancel(id));
    PickUnchanged(s, s0, 8);
    assert NothingToSend(s) <==> PickNextPrio(s).None?;
    assert s1 == TryDequeueStep(c, s0);
    if HasRoom(c, s.mac) && PickNextPrio(s).Some? {
      WaitingLess(s, s1, PickNextPrio(s).value, 8);
    }
  }

  /** The dequeue event, if there was one, is the one there was; a new one is due at once. */
  predicate TxSame(s: Dev, s1: Dev) {
    && s1.sched.now == s.sched.now
    && if Pending(s, s.tx.txEvent)
       then s1.tx.txEvent == s.tx.txEvent && Pending(s1, s.tx.txEvent)
            && s1.sched.pending[s.tx.txEvent] == s.sched.pending[s.tx.txEvent]
       else Pending(s1, s1.tx.txEvent) ==> s1.sched.pending[s1.tx.txEvent] == Event(s.sched.now, TryDequeue)
  }

  lemma RefillTx(c: Config, s: Dev, p: Prio)
    requires s.tx.txEvent < s.sched.next
    ensures TxSame(s, Refill(c, s, p))
  {
  }

  lemma CancelTx(s: Dev, s1: Dev, p: Prio)
    requires Owned(s) && s1.sched == s.sched.Cancel(s.tx.refill[p]) && s1.tx.txEvent == s.tx.txEvent
    ensures TxSame(s, s1)
  {
  }

  lemma ApplyClassTx(c: Config, s: Dev, f: Frame, p: Prio)
    requires f.Control? && EventsOk(s)
    ensures TxSame(s, ApplyClass(c, s, f, p))
  {
    if p in f.enabled {
      if f.quanta[p] == 0 {
        CancelTx(s, Reopened(s, p), p);
        RefillTx(c, Reopened(s, p), p);
      } else {
        var s1 := Purge(Stopped(c, s, p, f.quanta[p]), p);
        CancelTx(s, s1.(sched := s1.sched.Cancel(s1.tx.refill[p])), p);
      }
    }
  }

  lemma {:induction false} ApplyBelowTx(c: Config, s: Dev, f: Frame, k: nat)
    requires f.Control? && k <= 8 && EventsOk(s)
    ensures TxSame(s, ApplyBelow(c, s, f, k))
  {
    if k > 0 {
      ApplyBelowTx(c, s, f, k - 1);
      ApplyBelowKeeps(c, s, f, k - 1);
      ApplyClassTx(c, ApplyBelow(c, s, f, k - 1), f, k - 1);
    }
  }

  lemma FireTx(c: Config, s: Dev, id: EventId, granted: bool)
    requires EventsOk(s) && Enabled(s, Fire(id, granted)) && s.sched.pending[id].call != TryDequeue
    ensures TxSame(s, Next(c, s, Fire(id, granted)))
  {
    var s0 := s.(sched := s.sched.Cancel(id));
    assert id == HandleOf(s, s.sched.pending[id].call);
    assert TxSame(s, s0);
    match s.sched.pending[id].call {
      case DoIngressDrain =>
      case ResumeFromPause(p) => RefillTx(c, Unpaused(s0, p), p);
      case RefillMacQueueFromHold(p) => RefillTx(c, s0, p);
    }
  }

  /** A control frame that enables some class; any other is ignored. */
  predicate Heeded(a: Action) {
    a.Receive? && a.frame.Control? && a.frame.enabled != {}
  }

  lemma ActionTx(c: Config, s: Dev, a: Action)
    requires EventsOk(s) && Enabled(s, a) && !FiresCall(s, a, TryDequeue) && !a.Tick?
    ensures TxSame(s, Next(c, s, a))
    ensures a.Accept? || Heeded(a) ==> Pending(Next(c, s, a), Next(c, s, a).tx.txEvent)
  {
    match a
    case Accept(_) =>
    case TransmitComplete =>
    case Receive(f) =>
      if f.Control? {
        ApplyBelowTx(c, s, f, 8);
        ApplyBelowKeeps(c, s, f, 8);
      } else {
        OnDataRxLeaves(c, s.(rx := s.rx.(ingressQ := s.rx.ingressQ[f.prio := s.rx.ingressQ[f.prio] + [f]])), f.prio);
      }
    case Fire(id, granted) => FireTx(c, s, id, granted);
  }

  /**
   * A refill of a class that is not gated moves frames, in order, until the hold queue is empty or the MAC
   * queue full. What is left is tried again exactly 5 us later; when nothing is left, a dequeue is pending.
   */
  lemma RefillTimes(c: Config, s: Dev, p: Prio)
    requires !Gated(s, p) && (Pending(s, s.tx.txEvent) ==> s.sched.pending[s.tx.txEvent].call == TryDequeue)
    ensures var s1 := Refill(c, s, p);
      && !s1.tx.paused[p] && s1.mac.queue + s1.tx.hold[p] == s.mac.queue + s.tx.hold[p] && s.mac.queue <= s1.mac.queue
      && (s1.tx.hold[p] != [] ==> |s1.mac.queue| >= c.cap && ComesAt(s1, RefillMacQueueFromHold(p), s.sched.now + 0.000005))
      && (s1.tx.hold[p] == [] ==> Comes(s1, TryDequeue))
  {
    var s1, h := Refill(c, s, p), s.tx.hold[p];
    var k := Movable(c, Unpaused(s, p), p);
    assert h[..k] + h[k..] == h;
    assert s1.mac.queue == s.mac.queue + h[..k] && s1.tx.hold[p] == h[k..];
    if h[k..] != [] {
      assert s1.sched.pending[s.sched.next] == Event(s.sched.now + 0.000005, RefillMacQueueFromHold(p));
    } else {
      assert Pending(s1, s1.tx.txEvent) && s1.sched.pending[s1.tx.txEvent].call == TryDequeue;
    }
  }

  // ---------- Both halves over runs ----------

  /** The two calls that look at waiting frames. */
  predicate Looks(call: Call) {
    call == TryDequeue || call == DoIngressDrain
  }

  predicate Idle(s: Dev, call: Call) {
    if call == TryDequeue then NothingToSend(s) else NothingWaits(s)
  }

  predicate Refused(c: Config, s: Dev, a: Action, call: Call) {
    && FiresCall(s, a, call) && !Idle(s, call)
    && if call == TryDequeue then !HasRoom(c, s.mac) else Forwards(s) && !a.granted
  }

  /** When a look comes: at once after a frame has moved, 10 us after a refusal, and at once when it is armed. */
  lemma StepTimes(c: Config, s: Dev, a: Action, call: Call)
    requires Looks(call) && EventsOk(s) && Enabled(s, a)
    ensures var s1 := Next(c, s, a);
      if FiresCall(s, a, call) then
        if Idle(s, call) then !Comes(s1, call)
        else ComesAt(s1, call, s.sched.now + if Refused(c, s, a, call) then 0.00001 else 0.0)
      else if Comes(s, call) then forall at :: ComesAt(s1, call, at) <==> ComesAt(s, call, at)
      else Comes(s1, call) ==> ComesAt(s1, call, s.sched.now)
    ensures (a.Accept? || Heeded(a)) && call == TryDequeue ==> Comes(Next(c, s, a), call)
    ensures a.Receive? && a.frame.Control? && !Heeded(a) ==> Next(c, s, a) == s
    ensures a.Receive? && a.frame.Data? && call == DoIngressDrain ==> Comes(Next(c, s, a), call)
  {
    var s1 := Next(c, s, a);
    if FiresCall(s, a, call) {
      if call == TryDequeue {
        DequeueTimes(c, s, a.id, a.granted);
      } else {
        DrainTimes(c, s, a.id, a.granted);
      }
    } else if call == TryDequeue {
      DequeueKept(c, s, a);
    } else {
      DrainKept(c, s, a);
    }
  }

  lemma DequeueKept(c: Config, s: Dev, a: Action)
    requires EventsOk(s) && Enabled(s, a) && !FiresCall(s, a, TryDequeue)
    ensures var s1 := Next(c, s, a);
      if Comes(s, TryDequeue) then forall at :: ComesAt(s1, TryDequeue, at) <==> ComesAt(s, TryDequeue, at)
      else Comes(s1, TryDequeue) ==> ComesAt(s1, TryDequeue, s.sched.now)
    ensures a.Accept? || Heeded(a) ==> Comes(Next(c, s, a), TryDequeue)
  {
    var s1 := Next(c, s, a);
    NextKeepsEvents(c, s, a);
    HandleComes(s, TryDequeue, s.sched.now);
    HandleComes(s1, TryDequeue, s.sched.now);
    if !a.Tick? {
      ActionTx(c, s, a);
    }
    forall at
      ensures Comes(s, TryDequeue) ==> (ComesAt(s1, TryDequeue, at) <==> ComesAt(s, TryDequeue, at))
    {
      HandleComes(s, TryDequeue, at);
      HandleComes(s1, TryDequeue, at);
    }
  }

  lemma DrainKept(c: Config, s: Dev, a: Action)
    requires EventsOk(s) && Enabled(s, a) && !FiresCall(s, a, DoIngressDrain)
    ensures var s1 := Next(c, s, a);
      if Comes(s, DoIngressDrain) then forall at :: ComesAt(s1, DoIngressDrain, at) <==> ComesAt(s, DoIngressDrain, at)
      else Comes(s1, DoIngressDrain) ==> ComesAt(s1, DoIngressDrain, s.sched.now)
    ensures a.Receive? && a.frame.Data? ==> Comes(Next(c, s, a), DoIngressDrain)
  {
    var s1 := Next(c, s, a);
    forall at
      ensures Comes(s, DoIngressDrain) || !(a.Receive? && a.frame.Data?) ==>
        (ComesAt(s1, DoIngressDrain, at) <==> ComesAt(s, DoIngressDrain, at))
    {
      OtherTimes(c, s, a, at);
    }
    OtherTimes(c, s, a, s.sched.now);
    if id :| id in s1.sched.pending && s1.sched.pending[id].call == DoIngressDrain {
      assert ComesAt(s1, DoIngressDrain, s1.sched.pending[id].at);
    }
    if id :| id in s.sched.pending && s.sched.pending[id].call == DoIngressDrain {
      assert ComesAt(s, DoIngressDrain, s.sched.pending[id].at);
      assert ComesAt(s1, DoIngressDrain, s.sched.pending[id].at);
    }
  }

  /** Only a tick moves the clock, and not past an event that is due. */
  lemma Standstill(c: Config, s: Dev, a: Action, call: Call)
    requires Enabled(s, a)
    ensures !a.Tick? || ComesAt(s, call, s.sched.now) ==> Next(c, s, a).sched.now == s.sched.now
    ensures a.Tick? ==> (Comes(Next(c, s, a), call) <==> Comes(s, call))
  {
    if a.Receive? && a.frame.Control? {
      ApplyBelowLeaves(c, s, a.frame, 8);
    }
  }

  /** The last look before state `i` was the refused one at step `k`. */
  ghost predicate LastRefused(c: Config, states: seq<Dev>, actions: seq<Action>, i: nat, call: Call, k: nat)
    requires i <= |actions| < |states|
  {
    k < i && Refused(c, states[k], actions[k], call) && forall l :: k < l < i ==> !FiresCall(states[l], actions[l], call)
  }

  /**
   * Over every run: a pending look is due at this moment, or it was set exactly 10 us after the last
   * one, which was refused. There is one whenever something waits.
   */
  lemma {:induction false} Prompt(c: Config, states: seq<Dev>, actions: seq<Action>, i: nat, call: Call)
    requires Run(c, states, actions) && states[0] == INITIAL && i < |states| && Looks(call)
    ensures Comes(states[i], call) ==>
      || ComesAt(states[i], call, states[i].sched.now)
      || exists k: nat :: LastRefused(c, states, actions, i, call, k) && ComesAt(states[i], call, states[k].sched.now + 0.00001)
    ensures call == DoIngressDrain && !NothingWaits(states[i]) ==> Comes(states[i], call)
  {
    EventsAlwaysOk(c, states, actions, i);
    if call == DoIngressDrain && !NothingWaits(states[i]) {
      var p: Prio :| states[i].rx.ingressQ[p] != [];
      assert RxAwake(states[i], p);
    }
    if i > 0 {
      Prompt(c, states, actions, i - 1, call);
      EventsAlwaysOk(c, states, actions, i - 1);
      PromptStep(c, states, actions, i - 1, call);
    }
  }

  lemma PromptStep(c: Config, states: seq<Dev>, actions: seq<Action>, i: nat, call: Call)
    requires Run(c, states, actions) && i < |actions| && Looks(call) && EventsOk(states[i])
    requires Comes(states[i], call) ==>
      || ComesAt(states[i], call, states[i].sched.now)
      || exists k: nat :: LastRefused(c, states, actions, i, call, k) && ComesAt(states[i], call, states[k].sched.now + 0.00001)
    ensures Comes(states[i + 1], call) ==>
      || ComesAt(states[i + 1], call, states[i + 1].sched.now)
      || exists k: nat :: LastRefused(c, states, actions, i + 1, call, k) && ComesAt(states[i + 1], call, states[k].sched.now + 0.00001)
  {
    var s, a := states[i], actions[i];
    StepTimes(c, s, a, call);
    if FiresCall(s, a, call) {
      assert Refused(c, s, a, call) ==> LastRefused(c, states, actions, i + 1, call, i);
    } else if Comes(s, call) {
      if k: nat :| LastRefused(c, states, actions, i, call, k) && ComesAt(s, call, states[k].sched.now + 0.00001) {
        assert LastRefused(c, states, actions, i + 1, call, k);
      } else {
        assert ComesAt(states[i + 1], call, s.sched.now);
        Standstill(c, s, a, call);
      }
    } else {
      Standstill(c, s, a, call);
    }
  }

  /** A look found nothing, or was refused. */
  predicate EndsThere(c: Config, s: Dev, a: Action, call: Call) {
    FiresCall(s, a, call) && (Idle(s, call) || Refused(c, s, a, call))
  }

  /**
   * Time does not pass over work that can be done: once a look is due, the clock moves on only after,
   * at the same moment, one has found nothing left or has been refused. In between every look moves a frame.
   */
  lemma {:induction false} TimeWaits(c: Config, states: seq<Dev>, actions: seq<Action>, i: nat, j: nat, call: Call)
    requires Run(c, states, actions) && states[0] == INITIAL && i <= j < |states| && Looks(call)
    requires ComesAt(states[i], call, states[i].sched.now)
    ensures || (exists k :: i <= k < j && EndsThere(c, states[k], actions[k], call) && states[k].sched.now == states[i].sched.now)
            || (states[j].sched.now == states[i].sched.now && ComesAt(states[j], call, states[j].sched.now))
  {
    if i < j {
      TimeWaits(c, states, actions, i, j - 1, call);
      var s, a := states[j - 1], actions[j - 1];
      if s.sched.now == states[i].sched.now && ComesAt(s, call, s.sched.now) && !EndsThere(c, s, a, call) {
        EventsAlwaysOk(c, states, actions, j - 1);
        StepTimes(c, s, a, call);
        Standstill(c, s, a, call);
      }
    }
  }

  // ---------- A run that empties the ingress queues ----------

  /** The events that are due and fire before the drain. */
  function Ahead(s: Dev): set<EventId> {
    set id | id in s.sched.pending && s.sched.pending[id].at == s.sched.now && id < s.rx.drainEvent
  }

  lemma LeastId(ids: set<EventId>) returns (m: EventId)
    requires ids != {}
    ensures m in ids && forall id :: id in ids ==> m <= id
    decreases |ids|
  {
    var some :| some in ids;
    var rest := ids - {some};
    assert forall id :: id in ids ==> id == some || id in rest;
    m := some;
    if rest != {} {
      var n := LeastId(rest);
      m := if n < some then n else some;
    }
  }

  /** Whatever fires before the drain leaves the ingress queues alone and brings the drain nearer. */
  lemma NearerDrain(c: Config, s: Dev, id: EventId)
    requires EventsOk(s) && ComesAt(s, DoIngressDrain, s.sched.now) && id in Ahead(s)
    requires forall other :: other in Ahead(s) ==> id <= other
    ensures Enabled(s, Fire(id, true))
    ensures var s1 := Next(c, s, Fire(id, true));
      && EventsOk(s1) && s1.rx == s.rx && s1.sched.now == s.sched.now
      && ComesAt(s1, DoIngressDrain, s1.sched.now) && |Ahead(s1)| < |Ahead(s)|
  {
    HandleComes(s, DoIngressDrain, s.sched.now);
    forall other | other in s.sched.pending && s.sched.pending[other].at == s.sched.now
      ensures id <= other
    {
      assert other < s.rx.drainEvent ==> other in Ahead(s);
    }
    var a := Fire(id, true);
    var s1 := Next(c, s, a);
    assert id == HandleOf(s, s.sched.pending[id].call);
    NextKeepsEvents(c, s, a);
    Standstill(c, s, a, DoIngressDrain);
    FireDrain(c, s, id, true);
    OtherTimes(c, s, a, s.sched.now);
    FireAdds(c, s, id);
    FewerAhead(s, s1, id);
  }

  lemma FewerAhead(s: Dev, s1: Dev, id: EventId)
    requires id in Ahead(s) && id !in Ahead(s1) && Ahead(s1) <= Ahead(s)
    ensures |Ahead(s1)| < |Ahead(s)|
  {
    Smaller(Ahead(s1), Ahead(s) - {id});
  }

  lemma {:induction false} Smaller(a: set<EventId>, b: set<EventId>)
    requires a <= b
    ensures |a| <= |b|
    decreases a
  {
    if a != {} {
      var x :| x in a;
      Smaller(a - {x}, b - {x});
    }
  }

  /** An event that fires is gone, and events that it sets up come after all others. */
  lemma FireAdds(c: Config, s: Dev, id: EventId)
    requires EventsOk(s) && Enabled(s, Fire(id, true)) && s.sched.pending[id].call != DoIngressDrain
    ensures var s1 := Next(c, s, Fire(id, true));
      s1.rx == s.rx && id !in s1.sched.pending && AddsLater(s, s1)
  {
    var s0 := s.(sched := s.sched.Cancel(id));
    assert AddsLater(s, s0);
    match s.sched.pending[id].call {
      case TryDequeue =>
      case ResumeFromPause(p) => RefillAdds(c, s, Unpaused(s0, p), p);
      case RefillMacQueueFromHold(p) => RefillAdds(c, s, s0, p);
    }
  }

  predicate AddsLater(s: Dev, s1: Dev) {
    && s1.sched.next >= s.sched.next
    && forall other :: other in s1.sched.pending && other < s.sched.next ==>
      other in s.sched.pending && s1.sched.pending[other] == s.sched.pending[other]
  }

  lemma RefillAdds(c: Config, s: Dev, s1: Dev, p: Prio)
    requires AddsLater(s, s1)
    ensures AddsLater(s, Refill(c, s1, p)) && Refill(c, s1, p).rx == s1.rx
    ensures forall id :: id < s.sched.next && id !in s1.sched.pending ==> id !in Refill(c, s1, p).sched.pending
  {
  }

  /** Fires granted events only, so no time passes. */
  predicate OnlyFires(actions: seq<Action>) {
    forall k :: 0 <= k < |actions| ==> actions[k].Fire? && actions[k].granted
  }

  lemma RunCons(c: Config, s: Dev, a: Action, states: seq<Dev>, actions: seq<Action>)
    requires Enabled(s, a) && Run(c, states, actions) && states[0] == Next(c, s, a)
    ensures Run(c, [s] + states, [a] + actions)
  {
  }

  function AllWaiting(s: Dev, k: nat): nat
    requires k <= 8
  {
    if k == 0 then 0 else AllWaiting(s, k - 1) + |s.rx.ingressQ[k - 1]|
  }

  lemma {:induction false} TakenOne(s: Dev, s1: Dev, p: Prio, k: nat)
    requires k <= 8 && s.rx.ingressQ[p] != [] && s1.rx.ingressQ == s.rx.ingressQ[p := s.rx.ingressQ[p][1..]]
    ensures AllWaiting(s1, k) == AllWaiting(s, k) - if p < k then 1 else 0
  {
    if k > 0 {
      TakenOne(s, s1, p, k - 1);
    }
  }

  lemma DrainNow(c: Config, s: Dev)
    requires EventsOk(s) && ComesAt(s, DoIngressDrain, s.sched.now) && Ahead(s) == {} && !NothingWaits(s)
    ensures var a := Fire(s.rx.drainEvent, true);
      && Enabled(s, a)
      && var s1 := Next(c, s, a);
         && EventsOk(s1) && ComesAt(s1, DoIngressDrain, s1.sched.now) && s1.sched.now == s.sched.now
         && AllWaiting(s1, 8) == AllWaiting(s, 8) - 1 && |s1.rx.delivered| == |s.rx.delivered| + 1
  {
    HandleComes(s, DoIngressDrain, s.sched.now);
    var id := s.rx.drainEvent;
    forall other | other in s.sched.pending && s.sched.pending[other].at == s.sched.now
      ensures id <= other
    {
      assert other < id ==> other in Ahead(s);
    }
    var a := Fire(id, true);
    NextKeepsEvents(c, s, a);
    DrainTimes(c, s, id, true);
    Standstill(c, s, a, DoIngressDrain);
    var s0 := s.(sched := s.sched.Cancel(id));
    WaitingSame(s, s0, 8);
    assert WaitingBelow(s, 8).Some?;
    TakenOne(s, Next(c, s, a), WaitingBelow(s, 8).value, 8);
  }

  /**
   * From a due drain, if every request is granted, there is a run in which no time passes and
   * everything that waits is delivered.
   */
  lemma DrainsAll(c: Config, s: Dev) returns (states: seq<Dev>, actions: seq<Action>)
    requires EventsOk(s) && ComesAt(s, DoIngressDrain, s.sched.now)
    ensures Run(c, states, actions) && states[0] == s && OnlyFires(actions)
    ensures var last := states[|actions|];
      && NothingWaits(last) && last.sched.now == s.sched.now
      && |last.rx.delivered| == |s.rx.delivered| + AllWaiting(s, 8)
    decreases AllWaiting(s, 8), |Ahead(s)|
  {
    if NothingWaits(s) {
      states, actions := [s], [];
      NoneWaiting(s, 8);
    } else {
      var a := Fire(s.rx.drainEvent, true);
      if Ahead(s) == {} {
        DrainNow(c, s);
      } else {
        var id := LeastId(Ahead(s));
        NearerDrain(c, s, id);
        a := Fire(id, true);
        SameTotal(s, Next(c, s, a), 8);
      }
      var rest, others := DrainsAll(c, Next(c, s, a));
      RunCons(c, s, a, rest, others);
      states, actions := [s] + rest, [a] + others;
    }
  }

  lemma {:induction false} NoneWaiting(s: Dev, k: nat)
    requires NothingWaits(s) && k <= 8
    ensures AllWaiting(s, k) == 0
  {
    if k > 0 {
      NoneWaiting(s, k - 1);
    }
  }

  lemma {:induction false} SameTotal(s: Dev, s1: Dev, k: nat)
    requires s1.rx == s.rx && k <= 8
    ensures AllWaiting(s1, k) == AllWaiting(s, k)
  {
    if k > 0 {
      SameTotal(s, s1, k - 1);
    }
  }
}
