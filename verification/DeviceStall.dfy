/**
 * The one wake-up the device does lose: a refill puts frames into the MAC queue
 * without starting an idle transmitter. When it happens, and when it is for good.
 */
module DeviceStall {
  import opened Frames
  import opened EventQueue
  import opened PfcDevice
  import opened DeviceEvents
  import opened DeviceGate
  import opened DeviceOrder

  /** Frames wait in the MAC queue of an idle transmitter, and no event will start it. */
  predicate Stalled(m: Mac) {
    !m.busy && m.queue != []
  }

  /** A control frame lets a class go that has frames on hold. */
  predicate Releases(s: Dev, f: Frame, p: Prio) {
    f.Control? && p in f.enabled && f.quanta[p] == 0 && s.tx.hold[p] != []
  }

  /** The guard: a refill that has something to move meets an idle transmitter. */
  ghost predicate RefillsIdle(c: Config, s: Dev, a: Action)
    requires Enabled(s, a)
  {
    !s.mac.busy && 0 < c.cap &&
    match a
    case Receive(f) => exists p: Prio :: Releases(s, f, p)
    case Fire(id, _) =>
      (match s.sched.pending[id].call
       case ResumeFromPause(p) => s.tx.until[p] <= s.sched.now && s.tx.hold[p] != []
       case RefillMacQueueFromHold(p) => !Gated(s, p) && s.tx.hold[p] != []
       case _ => false)
    case _ => false
  }

  lemma RefillMac(c: Config, s: Dev, p: Prio)
    ensures var m := Refill(c, s, p).mac;
      && m.busy == s.mac.busy && m.wire == s.mac.wire
      && m.queue == if Gated(s, p) then s.mac.queue else s.mac.queue + s.tx.hold[p][..Movable(c, s, p)]
  {
  }

  /** One class of a control frame: only a release adds to the MAC queue, and it fills an empty one. */
  lemma ApplyClassFills(c: Config, s: Dev, f: Frame, r: Prio)
    requires f.Control? && Pure(s)
    ensures var m := ApplyClass(c, s, f, r).mac;
      && m.busy == s.mac.busy
      && (forall p: Prio :: p != r ==> OfClass(m.queue, p) == OfClass(s.mac.queue, p))
      && (s.mac.queue == [] && !(0 < c.cap && Releases(s, f, r)) ==> m.queue == [])
      && (s.mac.queue == [] && 0 < c.cap && Releases(s, f, r) ==> OfClass(m.queue, r) != [])
  {
    forall p: Prio | p != r
      ensures OfClass(ApplyClass(c, s, f, r).mac.queue, p) == OfClass(s.mac.queue, p)
    {
      ApplyClassLine(c, s, f, r, p);
    }
    if r in f.enabled && f.quanta[r] == 0 {
      var s0 := Reopened(s, r);
      RefillMac(c, s0, r);
      assert !Gated(s0, r);
      var moved := s.tx.hold[r][..Movable(c, s0, r)];
      assert forall g :: g in moved ==> g in s.tx.hold[r];
      OfClassPure(moved, r, r);
      assert s.mac.queue == [] ==> s.mac.queue + moved == moved;
    }
  }

  /** Some class below `k` is released and has frames in the MAC queue. */
  ghost predicate ReleasedBelow(s: Dev, f: Frame, m: Mac, k: nat) {
    exists p: Prio :: p < k && Releases(s, f, p) && OfClass(m.queue, p) != []
  }

  /** Which classes a control frame has put into an empty MAC queue, class by class. */
  lemma {:induction false} ApplyBelowFills(c: Config, s: Dev, f: Frame, k: nat)
    requires f.Control? && k <= 8 && Pure(s) && s.mac.queue == [] && 0 < c.cap
    ensures var m := ApplyBelow(c, s, f, k).mac;
      && m.busy == s.mac.busy
      && (m.queue == [] || ReleasedBelow(s, f, m, k))
      && (forall p: Prio :: p < k && Releases(s, f, p) ==> m.queue != [])
  {
    if k > 0 {
      ApplyBelowFills(c, s, f, k - 1);
      var s1 := ApplyBelow(c, s, f, k - 1);
      ApplyBelowLine(c, s, f, k - 1, k - 1);
      ApplyClassFills(c, s1, f, k - 1);
      NextClassFills(c, s, s1, ApplyClass(c, s1, f, k - 1), f, k - 1);
    }
  }

  lemma NextClassFills(c: Config, s: Dev, s1: Dev, s2: Dev, f: Frame, r: Prio)
    requires f.Control? && s1.mac.busy == s.mac.busy == s2.mac.busy && s1.tx.hold[r] == s.tx.hold[r] && 0 < c.cap
    requires s1.mac.queue == [] || ReleasedBelow(s, f, s1.mac, r)
    requires forall p: Prio :: p < r && Releases(s, f, p) ==> s1.mac.queue != []
    requires forall p: Prio :: p != r ==> OfClass(s2.mac.queue, p) == OfClass(s1.mac.queue, p)
    requires s1.mac.queue == [] && !Releases(s1, f, r) ==> s2.mac.queue == []
    requires s1.mac.queue == [] && Releases(s1, f, r) ==> OfClass(s2.mac.queue, r) != []
    ensures s2.mac.queue == [] || ReleasedBelow(s, f, s2.mac, r + 1)
    ensures forall p: Prio :: p < r + 1 && Releases(s, f, p) ==> s2.mac.queue != []
  {
    assert Releases(s1, f, r) == Releases(s, f, r);
    if s1.mac.queue != [] {
      var p: Prio :| p < r && Releases(s, f, p) && OfClass(s1.mac.queue, p) != [];
      assert OfClass(s2.mac.queue, p) != [];
    }
  }

  lemma ReceiveControlFills(c: Config, s: Dev, f: Frame)
    requires f.Control? && Pure(s) && !Stalled(s.mac)
    ensures Stalled(ReceiveControl(c, s, f).mac) <==> !s.mac.busy && 0 < c.cap && exists p: Prio :: Releases(s, f, p)
  {
    if s.mac.busy || c.cap == 0 {
      ApplyBelowIdle(c, s, f, 8);
    } else {
      ApplyBelowFills(c, s, f, 8);
    }
  }

  lemma ApplyClassIdle(c: Config, s: Dev, f: Frame, p: Prio)
    requires f.Control?
    ensures ApplyClass(c, s, f, p).mac.busy == s.mac.busy
    ensures c.cap == 0 && s.mac.queue == [] ==> ApplyClass(c, s, f, p).mac.queue == []
  {
    if p in f.enabled && f.quanta[p] == 0 {
      RefillMac(c, Reopened(s, p), p);
    }
  }

  /** Control frames never start or stop the transmitter, and fill nothing when there is no room at all. */
  lemma {:induction false} ApplyBelowIdle(c: Config, s: Dev, f: Frame, k: nat)
    requires f.Control? && k <= 8
    ensures ApplyBelow(c, s, f, k).mac.busy == s.mac.busy
    ensures c.cap == 0 && s.mac.queue == [] ==> ApplyBelow(c, s, f, k).mac.queue == []
  {
    if k > 0 {
      ApplyBelowIdle(c, s, f, k - 1);
      ApplyClassIdle(c, ApplyBelow(c, s, f, k - 1), f, k - 1);
    }
  }

  lemma ReceiveDataRuns(c: Config, s: Dev, f: DataFrame)
    requires !Stalled(s.mac)
    ensures !Stalled(ReceiveData(c, s, f).mac)
  {
    ArrivalMac(c, s, f);
  }

  lemma FireStallsIff(c: Config, s: Dev, id: EventId, granted: bool)
    requires Enabled(s, Fire(id, granted)) && !Stalled(s.mac)
    ensures Stalled(Next(c, s, Fire(id, granted)).mac) <==> RefillsIdle(c, s, Fire(id, granted))
  {
    var s1 := s.(sched := s.sched.Cancel(id));
    match s.sched.pending[id].call {
      case TryDequeue =>
      case DoIngressDrain =>
      case ResumeFromPause(p) => RefillMac(c, Unpaused(s1, p), p);
      case RefillMacQueueFromHold(p) => RefillMac(c, s1, p);
    }
  }

  /** The transmitter stalls exactly when a refill with something to move meets it idle. */
  lemma StallsIff(c: Config, s: Dev, a: Action)
    requires Enabled(s, a) && Pure(s) && !Stalled(s.mac)
    ensures Stalled(Next(c, s, a).mac) <==> RefillsIdle(c, s, a)
  {
    match a
    case Tick(_) =>
    case Accept(_) =>
    case TransmitComplete =>
    case Receive(f) =>
      if f.Control? {
        ReceiveControlFills(c, s, f);
      } else {
        ReceiveDataRuns(c, s, f);
      }
    case Fire(id, granted) => FireStallsIff(c, s, id, granted);
  }

  // ---------- The MAC queue never exceeds its limit ----------

  predicate Fits(c: Config, m: Mac) {
    |m.queue| <= c.cap
  }

  lemma {:induction false} ApplyBelowFits(c: Config, s: Dev, f: Frame, k: nat)
    requires f.Control? && k <= 8 && Fits(c, s.mac)
    ensures Fits(c, ApplyBelow(c, s, f, k).mac)
  {
    if k > 0 {
      ApplyBelowFits(c, s, f, k - 1);
      var s1 := ApplyBelow(c, s, f, k - 1);
      RefillMac(c, Reopened(s1, k - 1), k - 1);
    }
  }

  lemma DispatchFits(c: Config, s: Dev, call: Call, granted: bool)
    requires Fits(c, s.mac)
    ensures Fits(c, Dispatch(c, s, call, granted).mac)
  {
    match call
    case TryDequeue =>
    case DoIngressDrain =>
    case ResumeFromPause(p) => RefillMac(c, Unpaused(s, p), p);
    case RefillMacQueueFromHold(p) => RefillMac(c, s, p);
  }

  lemma ReceiveFits(c: Config, s: Dev, f: Frame)
    requires Fits(c, s.mac)
    ensures Fits(c, HandleMacRx(c, s, f).mac)
  {
    if f.Control? {
      ApplyBelowFits(c, s, f, 8);
    } else {
      ArrivalMac(c, s, f);
    }
  }

  /**
   * A refill stops at the limit and a purge puts back no more than it took, so
   * the results of Enqueue that the device ignores are never refusals.
   */
  lemma {:induction false} QueueFits(c: Config, states: seq<Dev>, actions: seq<Action>, i: nat)
    requires Run(c, states, actions) && states[0] == INITIAL && i < |states|
    ensures Fits(c, states[i].mac)
  {
    if i > 0 {
      QueueFits(c, states, actions, i - 1);
      NextFits(c, states[i - 1], actions[i - 1]);
    }
  }

  lemma NextFits(c: Config, s: Dev, a: Action)
    requires Enabled(s, a) && Fits(c, s.mac)
    ensures Fits(c, Next(c, s, a).mac)
  {
    match a
    case Tick(_) =>
    case Accept(_) =>
    case TransmitComplete =>
    case Receive(f) => ReceiveFits(c, s, f);
    case Fire(id, granted) =>
      DispatchFits(c, s.(sched := s.sched.Cancel(id)), s.sched.pending[id].call, granted);
  }

  // ---------- A stall with a full queue is for good ----------

  /** Idle, and not even a new frame can start the transmitter: Send refuses it because the queue is full. */
  predicate Jammed(c: Config, m: Mac) {
    Stalled(m) && !HasRoom(c, m)
  }

  /** A pause frame for a class that is in the MAC queue: purging it makes room. */
  predicate MakesRoom(s: Dev, f: Frame) {
    f.Control? && exists p: Prio :: p in f.enabled && f.quanta[p] > 0 && OfClass(s.mac.queue, p) != []
  }

  lemma {:induction false} WithoutAbsent(q: seq<Frame>, p: Prio)
    requires OfClass(q, p) == []
    ensures Without(q, p) == q
  {
    if q != [] {
      OfClassTail(q, p);
      WithoutAbsent(q[1..], p);
    }
  }

  lemma {:induction false} ApplyBelowJammed(c: Config, s: Dev, f: Frame, k: nat)
    requires f.Control? && k <= 8 && Jammed(c, s.mac) && !MakesRoom(s, f)
    ensures ApplyBelow(c, s, f, k).mac == s.mac
  {
    if k > 0 {
      ApplyBelowJammed(c, s, f, k - 1);
      var r: Prio := k - 1;
      if r in f.enabled && f.quanta[r] > 0 {
        assert OfClass(s.mac.queue, r) == [];
        WithoutAbsent(s.mac.queue, r);
      }
    }
  }

  /** The transmitter is as before, except for what Send refused. */
  predicate SameMac(m: Mac, m1: Mac) {
    m1.queue == m.queue && m1.busy == m.busy && m1.wire == m.wire
  }

  lemma DispatchJammed(c: Config, s: Dev, call: Call, granted: bool)
    requires Jammed(c, s.mac)
    ensures SameMac(s.mac, Dispatch(c, s, call, granted).mac)
  {
    match call
    case TryDequeue =>
    case DoIngressDrain =>
    case ResumeFromPause(p) => RefillMac(c, Unpaused(s, p), p);
    case RefillMacQueueFromHold(p) => RefillMac(c, s, p);
  }

  /** A jammed device stays as it is under every action but a pause that purges its MAC queue. */
  lemma JamPersists(c: Config, s: Dev, a: Action)
    requires Enabled(s, a) && Jammed(c, s.mac)
    requires a.Receive? ==> !MakesRoom(s, a.frame)
    ensures Jammed(c, Next(c, s, a).mac)
    ensures Next(c, s, a).mac.wire == s.mac.wire && Next(c, s, a).mac.queue == s.mac.queue
  {
    match a
    case Tick(_) =>
    case Accept(_) =>
    case TransmitComplete =>
    case Receive(f) =>
      if f.Control? {
        ApplyBelowJammed(c, s, f, 8);
      } else {
        ArrivalMac(c, s, f);
      }
    case Fire(id, granted) =>
      DispatchJammed(c, s.(sched := s.sched.Cancel(id)), s.sched.pending[id].call, granted);
  }

  /**
   * From a jammed state on, whatever is accepted and received, not one more
   * frame leaves the device until a pause frame arrives for a class that is in
   * its MAC queue.
   */
  lemma {:induction false} JammedForever(c: Config, states: seq<Dev>, actions: seq<Action>, i: nat, j: nat)
    requires Run(c, states, actions)
    requires i <= j < |states| && Jammed(c, states[i].mac)
    requires forall k :: i <= k < j && actions[k].Receive? ==> !MakesRoom(states[k], actions[k].frame)
    ensures Jammed(c, states[j].mac) && states[j].mac.wire == states[i].mac.wire
  {
    if i < j {
      JammedForever(c, states, actions, i, j - 1);
      JamPersists(c, states[j - 1], actions[j - 1]);
    }
  }

  lemma {:induction false} OneClassOnly(c: Config, s: Dev, p: Prio, q: nat, k: nat)
    requires q < 0x1_0000 && k <= 8
    ensures ApplyBelow(c, s, PauseFrame(p, q), k) == if k <= p then s else ApplyClass(c, s, PauseFrame(p, q), p)
  {
    if k > 0 {
      OneClassOnly(c, s, p, q, k - 1);
    }
  }

  /** A pause of one class ends the jam exactly when that class is in the MAC queue. */
  lemma PauseEndsJamIff(c: Config, s: Dev, p: Prio, q: nat)
    requires Jammed(c, s.mac) && Fits(c, s.mac) && 0 < q < 0x1_0000
    ensures Jammed(c, Next(c, s, Receive(PauseFrame(p, q))).mac) <==> OfClass(s.mac.queue, p) == []
  {
    var f := PauseFrame(p, q);
    if OfClass(s.mac.queue, p) == [] {
      assert !MakesRoom(s, f);
      JamPersists(c, s, Receive(f));
    } else {
      OneClassOnly(c, s, p, q, 8);
      SplitCount(s.mac.queue, p);
    }
  }

  /**
   * The length of the MAC queue once a control frame has been applied to the
   * classes below `k`, computed from the state it meets: a pause takes the frames of
   * its class out, a zero quanta adds the held ones up to the limit.
   */
  function Level(c: Config, s: Dev, f: Frame, k: nat): int
    requires f.Control? && k <= 8
  {
    if k == 0 then |s.mac.queue|
    else
      var level := Level(c, s, f, k - 1);
      if k - 1 !in f.enabled then level
      else if f.quanta[k - 1] > 0 then level - |OfClass(s.mac.queue, k - 1)|
      else if level + |s.tx.hold[k - 1]| <= c.cap then level + |s.tx.hold[k - 1]|
      else c.cap
  }

  lemma ApplyClassLevel(c: Config, s: Dev, f: Frame, r: Prio)
    requires f.Control? && Fits(c, s.mac)
    ensures |ApplyClass(c, s, f, r).mac.queue| ==
      if r !in f.enabled then |s.mac.queue|
      else if f.quanta[r] > 0 then |s.mac.queue| - |OfClass(s.mac.queue, r)|
      else if |s.mac.queue| + |s.tx.hold[r]| <= c.cap then |s.mac.queue| + |s.tx.hold[r]|
      else c.cap
  {
    if r in f.enabled && f.quanta[r] == 0 {
      RefillMac(c, Reopened(s, r), r);
    } else if r in f.enabled {
      SplitCount(s.mac.queue, r);
    }
  }

  lemma {:induction false} ApplyBelowLevel(c: Config, s: Dev, f: Frame, k: nat)
    requires f.Control? && k <= 8 && Pure(s) && Fits(c, s.mac)
    ensures |ApplyBelow(c, s, f, k).mac.queue| == Level(c, s, f, k)
  {
    if k > 0 {
      ApplyBelowLevel(c, s, f, k - 1);
      ApplyBelowFits(c, s, f, k - 1);
      ApplyBelowLine(c, s, f, k - 1, k - 1);
      ApplyClassLevel(c, ApplyBelow(c, s, f, k - 1), f, k - 1);
    }
  }

  /** The guard: an idle transmitter, and a refill whose frames fill the queue to its limit. */
  predicate FillsIdle(c: Config, s: Dev, a: Action)
    requires Enabled(s, a)
  {
    !s.mac.busy && 0 < c.cap &&
    match a
    case Receive(f) => f.Control? && Level(c, s, f, 8) == c.cap
    case Fire(id, _) =>
      (match s.sched.pending[id].call
       case ResumeFromPause(p) => s.tx.until[p] <= s.sched.now && c.cap <= |s.mac.queue| + |s.tx.hold[p]|
       case RefillMacQueueFromHold(p) => !Gated(s, p) && c.cap <= |s.mac.queue| + |s.tx.hold[p]|
       case _ => false)
    case _ => false
  }

  lemma MacSendJams(c: Config, m: Mac, f: Frame)
    requires !Jammed(c, m) && Fits(c, m)
    ensures !Jammed(c, MacSend(c, m, f))
  {
  }

  lemma ReceiveJamsIff(c: Config, s: Dev, f: Frame)
    requires Pure(s) && Fits(c, s.mac) && !Jammed(c, s.mac)
    ensures Jammed(c, HandleMacRx(c, s, f).mac) <==> FillsIdle(c, s, Receive(f))
  {
    if f.Control? {
      ApplyBelowLevel(c, s, f, 8);
      ApplyBelowFits(c, s, f, 8);
      ApplyBelowIdle(c, s, f, 8);
      NoneEnabled(c, s, f, 8);
    } else {
      ArrivalMac(c, s, f);
      var paused := MacSend(c, s.mac, PauseFrame(f.prio, c.quanta));
      MacSendJams(c, s.mac, PauseFrame(f.prio, c.quanta));
      assert Fits(c, paused);
      MacSendJams(c, paused, PauseFrame(f.prio, 0));
      MacSendJams(c, s.mac, PauseFrame(f.prio, 0));
    }
  }

  lemma {:induction false} NoneEnabled(c: Config, s: Dev, f: Frame, k: nat)
    requires f.Control? && k <= 8
    ensures f.enabled == {} ==> Level(c, s, f, k) == |s.mac.queue|
  {
    if k > 0 {
      NoneEnabled(c, s, f, k - 1);
    }
  }

  /** A device becomes jammed exactly when a refill fills the queue of an idle transmitter to its limit. */
  lemma JamsIff(c: Config, s: Dev, a: Action)
    requires Enabled(s, a) && Pure(s) && Fits(c, s.mac) && !Jammed(c, s.mac)
    ensures Jammed(c, Next(c, s, a).mac) <==> FillsIdle(c, s, a)
  {
    match a
    case Tick(_) =>
    case Accept(_) =>
    case TransmitComplete =>
    case Receive(f) => ReceiveJamsIff(c, s, f);
    case Fire(id, granted) => FireJamsIff(c, s, id, granted);
  }

  lemma FireJamsIff(c: Config, s: Dev, id: EventId, granted: bool)
    requires Enabled(s, Fire(id, granted)) && Fits(c, s.mac) && !Jammed(c, s.mac)
    ensures Jammed(c, Next(c, s, Fire(id, granted)).mac) <==> FillsIdle(c, s, Fire(id, granted))
  {
    var s1 := s.(sched := s.sched.Cancel(id));
    match s.sched.pending[id].call {
      case TryDequeue =>
      case DoIngressDrain =>
      case ResumeFromPause(p) => RefillMac(c, Unpaused(s1, p), p);
      case RefillMacQueueFromHold(p) => RefillMac(c, s1, p);
    }
  }

  predicate NeverJammed(c: Config, states: seq<Dev>, i: nat)
    requires i < |states|
  {
    forall k :: 0 <= k <= i ==> !Jammed(c, states[k].mac)
  }

  predicate NoneFills(c: Config, states: seq<Dev>, actions: seq<Action>, i: nat)
    requires Run(c, states, actions) && i < |states|
  {
    forall k :: 0 <= k < i ==> !FillsIdle(c, states[k], actions[k])
  }

  /** Over every run: the first jammed state follows a step that fills the queue of an idle transmitter. */
  lemma {:induction false} UnjammedIff(c: Config, states: seq<Dev>, actions: seq<Action>, i: nat)
    requires Run(c, states, actions) && states[0] == INITIAL && i < |states|
    ensures NeverJammed(c, states, i) <==> NoneFills(c, states, actions, i)
  {
    if i > 0 {
      UnjammedIff(c, states, actions, i - 1);
      GateAlwaysOk(c, states, actions, i - 1);
      QueueFits(c, states, actions, i - 1);
      var never, none := NeverJammed(c, states, i - 1), NoneFills(c, states, actions, i - 1);
      if Jammed(c, states[i - 1].mac) {
        assert !never && !none;
      } else {
        JamsIff(c, states[i - 1], actions[i - 1]);
        assert NeverJammed(c, states, i) == (never && !Jammed(c, states[i].mac));
      }
    }
  }

  /** The end of a pause jams an idle device with an empty MAC queue exactly when its hold queue fills the MAC queue. */
  lemma ResumeJamsIff(c: Config, s: Dev, id: EventId, granted: bool, p: Prio)
    requires EventsOk(s) && Enabled(s, Fire(id, granted))
    requires s.sched.pending[id].call == ResumeFromPause(p)
    requires !s.mac.busy && s.mac.queue == []
    ensures Jammed(c, Next(c, s, Fire(id, granted)).mac) <==> 0 < c.cap <= |s.tx.hold[p]|
  {
    var s1 := s.(sched := s.sched.Cancel(id));
    var s2 := Unpaused(s1, p);
    assert id == HandleOf(s, s.sched.pending[id].call);
    assert SlotOk(s, p);
    RefillMac(c, s2, p);
  }
}
