/**
 * No lost wake-up: in every reachable state each waiting frame has exactly one
 * pending event that will look at it, and no event outlives its handle.
 */
module DeviceEvents {
  import opened Frames
  import opened EventQueue
  import opened PfcDevice

  /** The handle in which the device keeps the event for this call. */
  function HandleOf(s: Dev, call: Call): EventId {
    match call
    case TryDequeue => s.tx.txEvent
    case DoIngressDrain => s.rx.drainEvent
    case ResumeFromPause(p) => s.tx.refill[p]
    case RefillMacQueueFromHold(p) => s.tx.refill[p]
  }

  predicate Pending(s: Dev, id: EventId) {
    id in s.sched.pending
  }

  /** Every pending event is the one its handle names, so there is one of each at most. */
  ghost predicate Owned(s: Dev) {
    && s.sched.Valid()
    && (forall id :: id in s.sched.pending ==> id == HandleOf(s, s.sched.pending[id].call))
    && (Pending(s, s.tx.txEvent) ==> s.sched.pending[s.tx.txEvent].call == TryDequeue)
    && (Pending(s, s.rx.drainEvent) ==> s.sched.pending[s.rx.drainEvent].call == DoIngressDrain)
    && (forall p: Prio :: Pending(s, s.tx.refill[p]) ==>
          s.sched.pending[s.tx.refill[p]].call in {ResumeFromPause(p), RefillMacQueueFromHold(p)})
    && s.tx.txEvent < s.sched.next && s.rx.drainEvent < s.sched.next
    && forall p: Prio :: s.tx.refill[p] < s.sched.next
  }

  /**
   * What the one refill slot of a class holds: the resume event, exactly at the
   * end of the pause, while paused; a refill retry while frames are on hold
   * otherwise; nothing when there is nothing to do.
   */
  predicate SlotOk(s: Dev, p: Prio) {
    var id := s.tx.refill[p];
    if s.tx.paused[p] then
      Pending(s, id) && s.sched.pending[id] == Event(s.tx.until[p], ResumeFromPause(p))
    else if s.tx.hold[p] != [] then
      Pending(s, id) && s.sched.pending[id].call == RefillMacQueueFromHold(p)
      && s.sched.pending[id].at <= s.sched.now + RETRY_REFILL
    else
      !Pending(s, id)
  }

  /** A class with frames to send has a dequeue event coming, or its refill slot is in charge. */
  predicate TxAwake(s: Dev, p: Prio) {
    s.tx.txq[p] != [] ==> Pending(s, s.tx.txEvent) || s.tx.paused[p] || s.tx.hold[p] != []
  }

  predicate RxAwake(s: Dev, p: Prio) {
    s.rx.ingressQ[p] != [] ==> Pending(s, s.rx.drainEvent)
  }

  predicate Soon(s: Dev) {
    && (Pending(s, s.tx.txEvent) ==> s.sched.pending[s.tx.txEvent].at <= s.sched.now + RETRY_SEND)
    && (Pending(s, s.rx.drainEvent) ==> s.sched.pending[s.rx.drainEvent].at <= s.sched.now + RETRY_SEND)
  }

  ghost predicate EventsOk(s: Dev) {
    && Owned(s)
    && Soon(s)
    && (forall p: Prio :: SlotOk(s, p))
    && (forall p: Prio :: TxAwake(s, p))
    && (forall p: Prio :: RxAwake(s, p))
  }

  lemma ArmTxKeeps(s: Dev)
    requires Owned(s) && Soon(s)
    requires forall p: Prio :: RxAwake(s, p)
    ensures Owned(ArmTx(s)) && Soon(ArmTx(s))
    ensures forall p: Prio :: SlotOk(s, p) ==> SlotOk(ArmTx(s), p)
    ensures forall p: Prio :: TxAwake(ArmTx(s), p) && RxAwake(ArmTx(s), p)
  {
    assert forall p: Prio :: RxAwake(s, p) ==> RxAwake(ArmTx(s), p);
  }

  lemma AcceptKeeps(s: Dev, f: DataFrame)
    requires EventsOk(s)
    ensures EventsOk(AppSend(s, f))
  {
    var s1 := s.(tx := s.tx.(txq := s.tx.txq[f.prio := s.tx.txq[f.prio] + [f]]));
    assert Owned(s1);
    assert forall p: Prio :: SlotOk(s, p) ==> SlotOk(s1, p);
    assert forall p: Prio :: RxAwake(s, p) ==> RxAwake(s1, p);
    ArmTxKeeps(s1);
  }

  lemma RetryTxKeeps(s: Dev, delay: real)
    requires Owned(s) && Soon(s) && !Pending(s, s.tx.txEvent)
    requires 0.0 <= delay <= RETRY_SEND
    requires forall p: Prio :: RxAwake(s, p)
    ensures Owned(RetryTx(s, delay)) && Soon(RetryTx(s, delay))
    ensures forall p: Prio :: SlotOk(s, p) ==> SlotOk(RetryTx(s, delay), p)
    ensures forall p: Prio :: TxAwake(RetryTx(s, delay), p) && RxAwake(RetryTx(s, delay), p)
  {
    assert forall p: Prio :: RxAwake(s, p) ==> RxAwake(RetryTx(s, delay), p);
  }

  lemma TryDequeueKeeps(c: Config, s: Dev)
    requires Owned(s) && Soon(s) && !Pending(s, s.tx.txEvent)
    requires forall p: Prio :: SlotOk(s, p)
    requires forall p: Prio :: RxAwake(s, p)
    ensures EventsOk(TryDequeueStep(c, s))
  {
    match PickNextPrio(s)
    case None =>
      assert forall p: Prio :: s.tx.txq[p] == [] || Gated(s, p);
    case Some(p) =>
      var s1 := s.(mac := MacSend(c, s.mac, s.tx.txq[p][0]));
      var s2 := s1.(tx := s1.tx.(txq := s1.tx.txq[p := s1.tx.txq[p][1..]]));
      assert Owned(s1) && Owned(s2);
      assert forall r: Prio :: SlotOk(s, r) ==> SlotOk(s1, r) && SlotOk(s2, r);
      assert forall r: Prio :: RxAwake(s, r) ==> RxAwake(s1, r) && RxAwake(s2, r);
      if !HasRoom(c, s.mac) {
        RetryTxKeeps(s1, RETRY_SEND);
      } else {
        RetryTxKeeps(s2, 0.0);
      }
  }

  /** Putting a new event into the free slot of a class leaves everything else alone. */
  lemma ArmSlotKeeps(s: Dev, s1: Dev, p: Prio, delay: real, call: Call)
    requires Owned(s) && Soon(s) && !Pending(s, s.tx.refill[p])
    requires call in {ResumeFromPause(p), RefillMacQueueFromHold(p)} && delay >= 0.0
    requires s1 == s.(tx := s.tx.(refill := s.tx.refill[p := s.sched.next]), sched := s.sched.Schedule(delay, call))
    requires forall r: Prio :: r != p ==> SlotOk(s, r) && TxAwake(s, r)
    requires forall r: Prio :: RxAwake(s, r)
    ensures Owned(s1) && Soon(s1)
    ensures Pending(s1, s1.tx.refill[p]) && s1.sched.pending[s1.tx.refill[p]] == Event(s.sched.now + delay, call)
    ensures forall r: Prio :: r != p ==> SlotOk(s1, r) && TxAwake(s1, r)
    ensures forall r: Prio :: RxAwake(s1, r)
  {
    forall r: Prio
      ensures r != p ==> SlotOk(s1, r) && TxAwake(s1, r)
      ensures RxAwake(s1, r)
    {
      assert r != p ==> SlotOk(s, r) && TxAwake(s, r);
      assert RxAwake(s, r);
    }
  }

  /** A refill leaves the slot of its own class right, whatever it found. */
  lemma RefillKeeps(c: Config, s: Dev, p: Prio)
    requires Owned(s) && Soon(s)
    requires !s.tx.paused[p] && !Pending(s, s.tx.refill[p])
    requires forall r: Prio :: r != p ==> SlotOk(s, r)
    requires forall r: Prio :: TxAwake(s, r) || r == p
    requires forall r: Prio :: RxAwake(s, r)
    ensures EventsOk(Refill(c, s, p))
  {
    var s0 := Unpaused(s, p);
    var s1 := MoveHeld(c, s0, p);
    assert Owned(s1);
    forall r: Prio
      ensures r != p ==> SlotOk(s1, r) && TxAwake(s1, r)
      ensures RxAwake(s1, r)
    {
      assert r != p ==> SlotOk(s, r) && TxAwake(s, r);
      assert RxAwake(s, r);
    }
    if s1.tx.hold[p] == [] {
      assert SlotOk(s1, p);
      ArmTxKeeps(s1);
    } else {
      ArmSlotKeeps(s1, AfterMove(s1, p), p, RETRY_REFILL, RefillMacQueueFromHold(p));
    }
  }

  lemma ResumeKeeps(c: Config, s: Dev, p: Prio)
    requires Owned(s) && Soon(s)
    requires s.tx.until[p] <= s.sched.now && !Pending(s, s.tx.refill[p])
    requires forall r: Prio :: r != p ==> SlotOk(s, r)
    requires forall r: Prio :: TxAwake(s, r) || r == p
    requires forall r: Prio :: RxAwake(s, r)
    ensures EventsOk(Resume(c, s, p))
  {
    var s1 := Unpaused(s, p);
    assert Owned(s1);
    forall r: Prio
      ensures r != p ==> SlotOk(s1, r) && TxAwake(s1, r)
      ensures RxAwake(s1, r)
    {
      assert r != p ==> SlotOk(s, r) && TxAwake(s, r);
      assert RxAwake(s, r);
    }
    RefillKeeps(c, s1, p);
  }

  lemma CancelRefillKeeps(s: Dev, s1: Dev, p: Prio)
    requires EventsOk(s)
    requires s1.sched == s.sched.Cancel(s.tx.refill[p])
    requires s1.rx == s.rx
    requires s1.tx.txq == s.tx.txq && s1.tx.txEvent == s.tx.txEvent && s1.tx.refill == s.tx.refill
    requires forall r: Prio :: r != p ==>
      s1.tx.paused[r] == s.tx.paused[r] && s1.tx.until[r] == s.tx.until[r] && s1.tx.hold[r] == s.tx.hold[r]
    ensures Owned(s1) && Soon(s1) && !Pending(s1, s1.tx.refill[p])
    ensures forall r: Prio :: r != p ==> SlotOk(s1, r) && TxAwake(s1, r)
    ensures forall r: Prio :: RxAwake(s1, r)
  {
    assert s.tx.refill[p] != s.tx.txEvent || !Pending(s, s.tx.txEvent);
    assert s.tx.refill[p] != s.rx.drainEvent || !Pending(s, s.rx.drainEvent);
    forall r: Prio
      ensures r != p ==> SlotOk(s1, r) && TxAwake(s1, r)
      ensures RxAwake(s1, r)
    {
      assert SlotOk(s, r) && TxAwake(s, r) && RxAwake(s, r);
      assert r != p && Pending(s, s.tx.refill[r]) ==> s.tx.refill[r] != s.tx.refill[p];
    }
  }

  lemma XonKeeps(c: Config, s: Dev, p: Prio)
    requires EventsOk(s)
    ensures EventsOk(Xon(c, s, p))
  {
    var s1 := Reopened(s, p);
    CancelRefillKeeps(s, s1, p);
    RefillKeeps(c, s1, p);
  }

  lemma XoffKeeps(c: Config, s: Dev, p: Prio, q: nat)
    requires EventsOk(s)
    ensures EventsOk(Xoff(c, s, p, q))
  {
    var s1 := Purge(Stopped(c, s, p, q), p);
    var s2 := s1.(sched := s1.sched.Cancel(s1.tx.refill[p]));
    CancelRefillKeeps(s, s2, p);
    ArmSlotKeeps(s2, Xoff(c, s, p, q), p, s1.tx.until[p] - s.sched.now, ResumeFromPause(p));
  }

  lemma {:induction false} ApplyBelowKeeps(c: Config, s: Dev, f: Frame, k: nat)
    requires EventsOk(s) && f.Control? && k <= 8
    ensures EventsOk(ApplyBelow(c, s, f, k))
  {
    if k > 0 {
      ApplyBelowKeeps(c, s, f, k - 1);
      var s1 := ApplyBelow(c, s, f, k - 1);
      var p: Prio := k - 1;
      if p in f.enabled {
        if f.quanta[p] == 0 {
          XonKeeps(c, s1, p);
        } else {
          XoffKeeps(c, s1, p, f.quanta[p]);
        }
      }
    }
  }

  lemma ReceiveControlKeeps(c: Config, s: Dev, f: Frame)
    requires EventsOk(s) && f.Control?
    ensures EventsOk(ReceiveControl(c, s, f))
  {
    if f.enabled != {} {
      ApplyBelowKeeps(c, s, f, 8);
      ArmTxKeeps(ApplyBelow(c, s, f, 8));
    }
  }

  /** Steps of the receiving half keep the sending half's events as they are. */
  lemma OtherHalfKeeps(s: Dev, s1: Dev)
    requires EventsOk(s)
    requires s1.sched == s.sched && s1.tx == s.tx && s1.rx.drainEvent == s.rx.drainEvent
    ensures Owned(s1) && Soon(s1)
    ensures forall p: Prio :: SlotOk(s1, p) && TxAwake(s1, p)
  {
    assert forall p: Prio :: SlotOk(s, p) && TxAwake(s, p) ==> SlotOk(s1, p) && TxAwake(s1, p);
  }

  lemma OnDataRxLeaves(c: Config, s: Dev, p: Prio)
    ensures var s1 := OnDataRx(c, s, p);
      s1.sched == s.sched && s1.tx == s.tx && s1.rx.drainEvent == s.rx.drainEvent && s1.rx.ingressQ == s.rx.ingressQ
  {
  }

  lemma ReceiveDataKeeps(c: Config, s: Dev, f: DataFrame)
    requires EventsOk(s)
    ensures EventsOk(ReceiveData(c, s, f))
  {
    var rx := s.rx.(ingressQ := s.rx.ingressQ[f.prio := s.rx.ingressQ[f.prio] + [f]]);
    var s1 := OnDataRx(c, s.(rx := rx), f.prio);
    OnDataRxLeaves(c, s.(rx := rx), f.prio);
    OtherHalfKeeps(s, s1);
    var s2 := ArmDrain(s1);
    assert Owned(s2);
    assert forall p: Prio :: SlotOk(s1, p) && TxAwake(s1, p) ==> SlotOk(s2, p) && TxAwake(s2, p);
  }

  lemma RetryDrainKeeps(s: Dev, delay: real)
    requires Owned(s) && Soon(s) && !Pending(s, s.rx.drainEvent)
    requires 0.0 <= delay <= RETRY_SEND
    requires forall p: Prio :: SlotOk(s, p) && TxAwake(s, p)
    ensures EventsOk(RetryDrain(s, delay))
  {
    var s1 := RetryDrain(s, delay);
    assert Owned(s1);
    assert forall p: Prio :: SlotOk(s, p) && TxAwake(s, p) ==> SlotOk(s1, p) && TxAwake(s1, p);
  }

  lemma DrainKeeps(c: Config, s: Dev, granted: bool)
    requires Owned(s) && Soon(s) && !Pending(s, s.rx.drainEvent)
    requires forall p: Prio :: SlotOk(s, p) && TxAwake(s, p)
    ensures EventsOk(DrainStep(c, s, granted))
  {
    match WaitingBelow(s, 8)
    case None =>
      assert forall p: Prio :: s.rx.ingressQ[p] == [];
    case Some(p) =>
      if s.rx.ingressQ[p][0].egress.Some? && !granted {
        RetryDrainKeeps(s, RETRY_SEND);
      } else {
        var s1 := Deliver(c, s, p);
        assert s1.sched == s.sched && s1.tx == s.tx && s1.rx.drainEvent == s.rx.drainEvent;
        assert Owned(s1);
        assert forall r: Prio :: SlotOk(s, r) && TxAwake(s, r) ==> SlotOk(s1, r) && TxAwake(s1, r);
        RetryDrainKeeps(s1, 0.0);
      }
  }

  /** Taking a due event off the list disturbs only what its own handle is in charge of. */
  lemma FireKeeps(c: Config, s: Dev, id: EventId, granted: bool)
    requires EventsOk(s) && Enabled(s, Fire(id, granted))
    ensures EventsOk(Dispatch(c, s.(sched := s.sched.Cancel(id)), s.sched.pending[id].call, granted))
  {
    var s1 := s.(sched := s.sched.Cancel(id));
    assert forall p: Prio :: SlotOk(s, p) && TxAwake(s, p) && RxAwake(s, p);
    assert Owned(s1);
    match s.sched.pending[id].call {
      case TryDequeue =>
        assert forall p: Prio :: SlotOk(s, p) && RxAwake(s, p) ==> SlotOk(s1, p) && RxAwake(s1, p);
        TryDequeueKeeps(c, s1);
      case DoIngressDrain =>
        assert forall p: Prio :: SlotOk(s, p) && TxAwake(s, p) ==> SlotOk(s1, p) && TxAwake(s1, p);
        DrainKeeps(c, s1, granted);
      case ResumeFromPause(p) =>
        CancelRefillKeeps(s, s1, p);
        assert SlotOk(s, p);
        ResumeKeeps(c, s1, p);
      case RefillMacQueueFromHold(p) =>
        CancelRefillKeeps(s, s1, p);
        assert SlotOk(s, p);
        RefillKeeps(c, s1, p);
    }
  }

  lemma TickKeeps(s: Dev, t: real)
    requires EventsOk(s) && Enabled(s, Tick(t))
    ensures EventsOk(s.(sched := s.sched.(now := t)))
  {
    var s1 := s.(sched := s.sched.(now := t));
    assert Owned(s1);
    assert forall p: Prio :: SlotOk(s, p) && TxAwake(s, p) && RxAwake(s, p) ==>
      SlotOk(s1, p) && TxAwake(s1, p) && RxAwake(s1, p);
  }

  /** Every enabled action keeps the event discipline. */
  lemma NextKeepsEvents(c: Config, s: Dev, a: Action)
    requires EventsOk(s) && Enabled(s, a)
    ensures EventsOk(Next(c, s, a))
  {
    match a
    case Tick(t) => TickKeeps(s, t);
    case Fire(id, granted) => FireKeeps(c, s, id, granted);
    case Accept(f) => AcceptKeeps(s, f);
    case Receive(f) =>
      if f.Control? {
        ReceiveControlKeeps(c, s, f);
      } else {
        ReceiveDataKeeps(c, s, f);
      }
    case TransmitComplete =>
      var s1 := s.(mac := TransmitHead(s.mac));
      OtherHalfKeeps(s, s1);
      assert forall p: Prio :: RxAwake(s, p) ==> RxAwake(s1, p);
  }

  lemma {:induction false} EventsAlwaysOk(c: Config, states: seq<Dev>, actions: seq<Action>, i: nat)
    requires Run(c, states, actions) && states[0] == INITIAL
    requires i < |states|
    ensures EventsOk(states[i])
  {
    if i > 0 {
      EventsAlwaysOk(c, states, actions, i - 1);
      NextKeepsEvents(c, states[i - 1], actions[i - 1]);
    }
  }

  lemma {:induction false} WaitingSame(s: Dev, s1: Dev, k: nat)
    requires s1.rx == s.rx && k <= 8
    ensures WaitingBelow(s1, k) == WaitingBelow(s, k)
  {
    if k > 0 {
      WaitingSame(s, s1, k - 1);
    }
  }

  /** An event with this call is pending, no later than `limit`. */
  ghost predicate ComesBy(s: Dev, call: Call, limit: real) {
    exists id :: id in s.sched.pending && s.sched.pending[id].call == call && s.sched.now <= s.sched.pending[id].at <= limit
  }

  /** What waits in the device is always looked at again, by an event with a bounded delay. */
  lemma NoLostWakeup(c: Config, states: seq<Dev>, actions: seq<Action>, i: nat, p: Prio)
    requires Run(c, states, actions) && states[0] == INITIAL
    requires i < |states|
    ensures var s := states[i];
      && (s.tx.txq[p] != [] ==>
            || ComesBy(s, TryDequeue, s.sched.now + RETRY_SEND)
            || (s.tx.paused[p] && ComesBy(s, ResumeFromPause(p), s.tx.until[p]))
            || (s.tx.hold[p] != [] && ComesBy(s, RefillMacQueueFromHold(p), s.sched.now + RETRY_REFILL)))
      && (s.tx.hold[p] != [] ==>
            if s.tx.paused[p] then ComesBy(s, ResumeFromPause(p), s.tx.until[p])
            else ComesBy(s, RefillMacQueueFromHold(p), s.sched.now + RETRY_REFILL))
      && (s.rx.ingressQ[p] != [] ==> ComesBy(s, DoIngressDrain, s.sched.now + RETRY_SEND))
  {
    var s := states[i];
    EventsAlwaysOk(c, states, actions, i);
    assert SlotOk(s, p) && TxAwake(s, p) && RxAwake(s, p);
    assert Pending(s, s.tx.txEvent) ==> ComesBy(s, TryDequeue, s.sched.now + RETRY_SEND);
    assert Pending(s, s.rx.drainEvent) ==> ComesBy(s, DoIngressDrain, s.sched.now + RETRY_SEND);
    assert s.tx.paused[p] ==> s.sched.pending[s.tx.refill[p]].call == ResumeFromPause(p);
    assert s.tx.paused[p] ==> ComesBy(s, ResumeFromPause(p), s.tx.until[p]);
    assert !s.tx.paused[p] && s.tx.hold[p] != [] ==> ComesBy(s, RefillMacQueueFromHold(p), s.sched.now + RETRY_REFILL);
  }

  /** No two pending events have the same call, and a class has no resume and refill at once. */
  lemma OneEventEach(c: Config, states: seq<Dev>, actions: seq<Action>, i: nat, id: EventId, other: EventId)
    requires Run(c, states, actions) && states[0] == INITIAL
    requires i < |states| && id in states[i].sched.pending && other in states[i].sched.pending
    ensures var a, b := states[i].sched.pending[id].call, states[i].sched.pending[other].call;
      (a == b ==> id == other)
      && !(exists p: Prio :: a == ResumeFromPause(p) && b == RefillMacQueueFromHold(p))
  {
    EventsAlwaysOk(c, states, actions, i);
    var s := states[i];
    var a, b := s.sched.pending[id].call, s.sched.pending[other].call;
    assert id == HandleOf(s, a) && other == HandleOf(s, b);
  }

  /**
   * A resume event that fires finds its class paused and its pause just over, so
   * the early return of ResumeFromPause never happens; a refill retry finds its
   * class not paused, so the early return of RefillMacQueueFromHold does not either.
   */
  lemma TimersFireOnTime(c: Config, states: seq<Dev>, actions: seq<Action>, i: nat, id: EventId, granted: bool, p: Prio)
    requires Run(c, states, actions) && states[0] == INITIAL
    requires i < |states| && Enabled(states[i], Fire(id, granted))
    ensures states[i].sched.pending[id].call == ResumeFromPause(p) ==>
      states[i].tx.paused[p] && states[i].tx.until[p] == states[i].sched.now
    ensures states[i].sched.pending[id].call == RefillMacQueueFromHold(p) ==>
      !states[i].tx.paused[p] && states[i].tx.hold[p] != []
  {
    EventsAlwaysOk(c, states, actions, i);
    var s := states[i];
    assert id == HandleOf(s, s.sched.pending[id].call);
    assert SlotOk(s, p);
  }
}
