/**
 * Two devices on one link: how far the ingress occupancy of a class can rise
 * above the high watermark while the pause that answers it is in force.
 */
module Headroom {
  import opened Frames
  import opened EventQueue
  import opened PfcDevice
  import opened DeviceGate
  import opened DeviceWatermark

  /** The channel is a FIFO in each direction: `toB` frames of A's wire have arrived at B, and `toA` of B's at A. */
  datatype LinkState = Link(a: Dev, b: Dev, toB: nat, toA: nat)

  type Link = l: LinkState | l.toB <= |l.a.mac.wire| && l.toA <= |l.b.mac.wire| witness Link(INITIAL, INITIAL, 0, 0)

  datatype Move = Pass(to: real) | AtA(action: Action) | AtB(action: Action) | ArriveAtA | ArriveAtB

  predicate OwnAction(a: Action) {
    !a.Tick? && !a.Receive?
  }

  predicate CanMove(l: Link, m: Move) {
    match m
    case Pass(t) => Enabled(l.a, Tick(t)) && Enabled(l.b, Tick(t))
    case AtA(x) => OwnAction(x) && Enabled(l.a, x)
    case AtB(x) => OwnAction(x) && Enabled(l.b, x)
    case ArriveAtA => l.toA < |l.b.mac.wire|
    case ArriveAtB => l.toB < |l.a.mac.wire|
  }

  /** What a move is for device A, if anything. */
  function ForA(l: Link, m: Move): (r: Option<Action>)
    requires CanMove(l, m)
    ensures r.Some? ==> Enabled(l.a, r.value)
  {
    match m
    case Pass(t) => Some(Tick(t))
    case AtA(x) => Some(x)
    case ArriveAtA => Some(Receive(l.b.mac.wire[l.toA]))
    case _ => None
  }

  function ForB(l: Link, m: Move): (r: Option<Action>)
    requires CanMove(l, m)
    ensures r.Some? ==> Enabled(l.b, r.value)
  {
    match m
    case Pass(t) => Some(Tick(t))
    case AtB(x) => Some(x)
    case ArriveAtB => Some(Receive(l.a.mac.wire[l.toB]))
    case _ => None
  }

  lemma ReceiveWire(c: Config, s: Dev, f: Frame)
    ensures s.mac.wire <= HandleMacRx(c, s, f).mac.wire
  {
    if f.Control? {
      ApplyBelowLeaves(c, s, f, 8);
    } else {
      ArrivalMac(c, s, f);
      var paused := MacSend(c, s.mac, PauseFrame(f.prio, c.quanta));
      assert s.mac.wire <= MacSend(c, paused, PauseFrame(f.prio, 0)).wire;
    }
  }

  /** What is on the wire stays on it. */
  lemma NextWire(c: Config, s: Dev, a: Action)
    requires Enabled(s, a)
    ensures s.mac.wire <= Next(c, s, a).mac.wire
  {
    match a
    case Tick(_) =>
    case Accept(_) =>
    case TransmitComplete =>
    case Receive(f) => ReceiveWire(c, s, f);
    case Fire(id, granted) =>
  }

  function Act(c: Config, s: Dev, a: Option<Action>): (s1: Dev)
    requires (a.Some? ==> Enabled(s, a.value))
    ensures s.mac.wire <= s1.mac.wire
  {
    if a.Some? then NextWire(c, s, a.value); Next(c, s, a.value) else s
  }

  function Step(ca: Config, cb: Config, l: Link, m: Move): Link
    requires CanMove(l, m)
  {
    Link(Act(ca, l.a, ForA(l, m)), Act(cb, l.b, ForB(l, m)),
         if m == ArriveAtB then l.toB + 1 else l.toB,
         if m == ArriveAtA then l.toA + 1 else l.toA)
  }

  predicate Moved(ca: Config, cb: Config, links: seq<Link>, moves: seq<Move>, i: int) {
    0 <= i < |moves| < |links| ==> CanMove(links[i], moves[i]) && links[i + 1] == Step(ca, cb, links[i], moves[i])
  }

  ghost predicate LinkRun(ca: Config, cb: Config, links: seq<Link>, moves: seq<Move>) {
    && |links| == |moves| + 1
    && links[0] == Link(INITIAL, INITIAL, 0, 0)
    && forall i :: Moved(ca, cb, links, moves, i)
  }

  // ---------- What has been sent and heard ----------

  /** The frames of a class that A has started to send. */
  function Started(l: Link, p: Prio): nat {
    |OfClass(l.a.mac.wire, p)|
  }

  /** The frames of a class on their way from A to B. */
  function InFlight(l: Link, p: Prio): nat {
    |OfClass(l.a.mac.wire[l.toB..], p)|
  }

  /** Everything that B has sent or queued for a class. */
  function Signals(s: Dev, p: Prio): seq<Frame> {
    ControlsFor(s.mac.wire + s.mac.queue, p)
  }

  /** The control frames for a class that A has processed. */
  function Processed(l: Link, p: Prio): seq<Frame> {
    ControlsFor(l.b.mac.wire[..l.toA], p)
  }

  predicate NoSignalLost(s: Dev) {
    Controls(s.mac.refused) == []
  }

  /** If none was refused, the signals for a class are pauses and resumes in turn, one for each that was counted. */
  predicate SignalsOk(c: Config, s: Dev, p: Prio) {
    NoSignalLost(s) ==>
      && |Signals(s, p)| == s.rx.txXoff[p] + s.rx.txXon[p]
      && forall i :: 0 <= i < |Signals(s, p)| ==> Signals(s, p)[i] == PauseFrame(p, if i % 2 == 0 then c.quanta else 0)
  }

  lemma KeepOne(f: Frame, test: Frame -> bool)
    ensures Keep([f], test) == if test(f) then [f] else []
  {
    assert Keep([f], test) == if test(f) then [f] + Keep([], test) else Keep([], test);
  }

  lemma MacSendAppends(c: Config, m: Mac, f: Frame)
    ensures var m1 := MacSend(c, m, f);
      && m1.wire + m1.queue == m.wire + m.queue + (if HasRoom(c, m) then [f] else [])
      && m1.refused == m.refused + (if HasRoom(c, m) then [] else [f])
      && m.wire <= m1.wire
  {
  }

  lemma MacSendSignals(c: Config, m: Mac, f: Frame, p: Prio)
    ensures var m1 := MacSend(c, m, f);
      && ControlsFor(m1.wire + m1.queue, p)
         == ControlsFor(m.wire + m.queue, p) + (if HasRoom(c, m) && f.Control? && p in f.enabled then [f] else [])
      && Controls(m1.refused) == Controls(m.refused) + (if !HasRoom(c, m) && f.Control? then [f] else [])
      && m.wire <= m1.wire
  {
    MacSendAppends(c, m, f);
    KeepConcat(m.wire + m.queue, [f], Enables(p));
    KeepConcat(m.refused, [f], IsControl());
    KeepOne(f, Enables(p));
    KeepOne(f, IsControl());
  }

  lemma SendKeepsSignals(c: Config, s: Dev, r: Prio, p: Prio, pausing: bool)
    requires SignalsOk(c, s, p)
    requires pausing ==> s.rx.txXoff[r] == s.rx.txXon[r]
    requires !pausing ==> s.rx.txXoff[r] == s.rx.txXon[r] + 1
    ensures var s1 := if pausing then SendXoff(c, s, r) else SendXon(c, s, r);
      SignalsOk(c, s1, p) && s.mac.wire <= s1.mac.wire && Controls(s.mac.refused) <= Controls(s1.mac.refused)
  {
    var f := PauseFrame(r, if pausing then c.quanta else 0);
    MacSendSignals(c, s.mac, f, p);
  }

  /** What a step of device B leaves true of its signals. */
  predicate StepOk(c: Config, s: Dev, s1: Dev, p: Prio) {
    && SignalsOk(c, s1, p)
    && s.mac.wire <= s1.mac.wire
    && Controls(s.mac.refused) <= Controls(s1.mac.refused)
  }

  lemma RefillSignals(c: Config, s: Dev, r: Prio, p: Prio)
    requires Pure(s)
    ensures var s1 := Refill(c, s, r);
      Signals(s1, p) == Signals(s, p) && s1.mac.wire == s.mac.wire && s1.mac.refused == s.mac.refused && s1.rx == s.rx
  {
    if !Gated(s, r) {
      var moved := s.tx.hold[r][..Movable(c, Unpaused(s, r), r)];
      assert forall g :: g in moved ==> g in s.tx.hold[r];
      assert Refill(c, s, r).mac.queue == s.mac.queue + moved;
      assert s.mac.wire + (s.mac.queue + moved) == s.mac.wire + s.mac.queue + moved;
      KeepConcat(s.mac.wire + s.mac.queue, moved, Enables(p));
      KeepNone(moved, Enables(p));
    }
  }

  lemma PurgeSignals(s: Dev, r: Prio, p: Prio)
    ensures Signals(Purge(s, r), p) == Signals(s, p)
  {
    KeepConcat(s.mac.wire, s.mac.queue, Enables(p));
    KeepConcat(s.mac.wire, Without(s.mac.queue, r), Enables(p));
    KeepTwice(s.mac.queue, NotInClass(r), Enables(p));
  }

  /** The control frames of the other direction leave device B's signals alone. */
  predicate SameSignals(s: Dev, s1: Dev, p: Prio) {
    Signals(s1, p) == Signals(s, p) && s1.mac.wire == s.mac.wire && s1.mac.refused == s.mac.refused && s1.rx == s.rx
  }

  lemma ApplyClassSignals(c: Config, s: Dev, f: Frame, r: Prio, p: Prio)
    requires f.Control? && Pure(s)
    ensures SameSignals(s, ApplyClass(c, s, f, r), p)
  {
    if r in f.enabled && f.quanta[r] == 0 {
      var s0 := Reopened(s, r);
      assert Pure(s0);
      RefillSignals(c, s0, r, p);
    } else if r in f.enabled {
      PurgeSignals(s, r, p);
      assert ApplyClass(c, s, f, r).mac == Purge(s, r).mac;
    }
  }

  lemma {:induction false} ApplyBelowSignals(c: Config, s: Dev, f: Frame, k: nat, p: Prio)
    requires f.Control? && k <= 8 && GateOk(s)
    ensures SameSignals(s, ApplyBelow(c, s, f, k), p)
  {
    if k > 0 {
      ApplyBelowSignals(c, s, f, k - 1, p);
      ApplyBelowGate(c, s, f, k - 1);
      ApplyClassSignals(c, ApplyBelow(c, s, f, k - 1), f, k - 1, p);
    }
  }

  /** An arrival that sends nothing, and one that crosses the high watermark. */
  lemma ArrivalSends(c: Config, s: Dev, f: DataFrame)
    requires Hysteresis(c) && LevelsOk(c, s, f.prio)
    ensures var p, s1 := f.prio, ReceiveData(c, s, f);
      var counted := s.(rx := s.rx.(ingressQ := s.rx.ingressQ[p := s.rx.ingressQ[p] + [f]], occ := s.rx.occ[p := s.rx.occ[p] + 1]));
      var sent := if !s.rx.congested[p] && s.rx.occ[p] + 1 >= c.high
        then SendXoff(c, counted.(rx := counted.rx.(congested := counted.rx.congested[p := true])), p) else counted;
      s1.mac == sent.mac && s1.rx.txXoff == sent.rx.txXoff && s1.rx.txXon == sent.rx.txXon
  {
    var p := f.prio;
    var s1 := s.(rx := s.rx.(ingressQ := s.rx.ingressQ[p := s.rx.ingressQ[p] + [f]]));
    var s2 := s1.(rx := s1.rx.(occ := s1.rx.occ[p := s1.rx.occ[p] + 1]));
    assert CheckLow(c, CheckHigh(c, s2, p), p) == CheckHigh(c, s2, p);
  }

  lemma ArrivalSignals(c: Config, s: Dev, f: DataFrame, p: Prio)
    requires Hysteresis(c) && SignalsOk(c, s, p) && LevelsOk(c, s, f.prio)
    ensures StepOk(c, s, ReceiveData(c, s, f), p)
  {
    var r := f.prio;
    ArrivalSends(c, s, f);
    var counted := s.(rx := s.rx.(ingressQ := s.rx.ingressQ[r := s.rx.ingressQ[r] + [f]], occ := s.rx.occ[r := s.rx.occ[r] + 1]));
    if !s.rx.congested[r] && s.rx.occ[r] + 1 >= c.high {
      SendKeepsSignals(c, counted.(rx := counted.rx.(congested := counted.rx.congested[r := true])), r, p, true);
    }
  }

  lemma ReceiveSignals(c: Config, s: Dev, f: Frame, p: Prio)
    requires Hysteresis(c) && GateOk(s) && SignalsOk(c, s, p)
    requires f.Data? ==> LevelsOk(c, s, f.prio)
    ensures StepOk(c, s, HandleMacRx(c, s, f), p)
  {
    if f.Control? {
      ApplyBelowSignals(c, s, f, 8, p);
    } else {
      ArrivalSignals(c, s, f, p);
    }
  }

  lemma DrainSignals(c: Config, s: Dev, granted: bool, p: Prio)
    requires Hysteresis(c) && SignalsOk(c, s, p)
    requires forall r: Prio :: LevelsOk(c, s, r)
    ensures StepOk(c, s, DrainStep(c, s, granted), p)
  {
    match WaitingBelow(s, 8)
    case None =>
    case Some(r) =>
      assert LevelsOk(c, s, r);
      var rx := s.rx.(ingressQ := s.rx.ingressQ[r := s.rx.ingressQ[r][1..]],
                      occ := s.rx.occ[r := if s.rx.occ[r] > 0 then s.rx.occ[r] - 1 else 0],
                      delivered := s.rx.delivered + [s.rx.ingressQ[r][0]]);
      var s1 := s.(rx := rx);
      if s1.rx.congested[r] && s1.rx.occ[r] <= c.low {
        SendKeepsSignals(c, s1.(rx := s1.rx.(congested := s1.rx.congested[r := false])), r, p, false);
      }
  }

  lemma TryDequeueSignals(c: Config, s: Dev, p: Prio)
    requires SignalsOk(c, s, p) && Pure(s)
    ensures StepOk(c, s, TryDequeueStep(c, s), p)
  {
    match PickNextPrio(s)
    case None =>
    case Some(r) =>
      assert s.tx.txq[r][0] in s.tx.txq[r];
      MacSendSignals(c, s.mac, s.tx.txq[r][0], p);
  }

  lemma DispatchSignals(c: Config, s: Dev, call: Call, granted: bool, p: Prio)
    requires Hysteresis(c) && Pure(s) && SignalsOk(c, s, p)
    requires forall r: Prio :: LevelsOk(c, s, r)
    ensures StepOk(c, s, Dispatch(c, s, call, granted), p)
  {
    match call
    case TryDequeue => TryDequeueSignals(c, s, p);
    case DoIngressDrain => DrainSignals(c, s, granted, p);
    case ResumeFromPause(r) => RefillSignals(c, Unpaused(s, r), r, p);
    case RefillMacQueueFromHold(r) => RefillSignals(c, s, r, p);
  }

  /** Every action keeps the alternation of pauses and resumes, sends no frame back and forgets no refusal. */
  lemma NextKeepsSignals(c: Config, s: Dev, a: Action, p: Prio)
    requires Hysteresis(c) && Enabled(s, a) && GateOk(s) && SignalsOk(c, s, p)
    requires forall r: Prio :: LevelsOk(c, s, r)
    ensures StepOk(c, s, Next(c, s, a), p)
  {
    match a
    case Tick(_) =>
    case Accept(_) =>
    case TransmitComplete =>
      var m := s.mac;
      assert TransmitHead(m).wire + TransmitHead(m).queue == m.wire + m.queue;
    case Receive(f) =>
      assert f.Data? ==> LevelsOk(c, s, f.prio);
      ReceiveSignals(c, s, f, p);
    case Fire(id, granted) =>
      var s1 := s.(sched := s.sched.Cancel(id));
      assert forall r: Prio :: LevelsOk(c, s, r) ==> LevelsOk(c, s1, r);
      DispatchSignals(c, s1, s.sched.pending[id].call, granted, p);
  }

  // ---------- The link ----------

  /** The frames of a class that have arrived at B. */
  function ArrivedAtB(l: Link, p: Prio): nat {
    |OfClass(l.a.mac.wire[..l.toB], p)|
  }

  ghost predicate LinkOk(cb: Config, l: Link) {
    && l.a.sched.now == l.b.sched.now
    && GateOk(l.a) && GateOk(l.b)
    && (forall p: Prio :: LevelsOk(cb, l.b, p))
    && (forall p: Prio :: SignalsOk(cb, l.b, p))
  }

  lemma NextClock(c: Config, s: Dev, a: Action)
    requires Enabled(s, a)
    ensures Next(c, s, a).sched.now == if a.Tick? then a.to else s.sched.now
  {
    if a.Receive? && a.frame.Control? {
      ApplyBelowLeaves(c, s, a.frame, 8);
    }
  }

  lemma DrainLevels(c: Config, s: Dev, granted: bool, p: Prio)
    requires Hysteresis(c) && LevelsOk(c, s, p)
    ensures LevelsOk(c, DrainStep(c, s, granted), p)
  {
  }

  lemma DispatchLevels(c: Config, s: Dev, call: Call, granted: bool, p: Prio)
    requires Hysteresis(c) && LevelsOk(c, s, p)
    ensures LevelsOk(c, Dispatch(c, s, call, granted), p)
  {
    match call
    case TryDequeue => assert TryDequeueStep(c, s).rx == s.rx;
    case DoIngressDrain => DrainLevels(c, s, granted, p);
    case ResumeFromPause(r) => assert Resume(c, s, r).rx == s.rx;
    case RefillMacQueueFromHold(r) => assert Refill(c, s, r).rx == s.rx;
  }

  lemma LevelsKept(c: Config, s: Dev, a: Action, p: Prio)
    requires Hysteresis(c) && Enabled(s, a) && (forall r: Prio :: LevelsOk(c, s, r))
    ensures LevelsOk(c, Next(c, s, a), p)
  {
    assert LevelsOk(c, s, p);
    match a
    case Tick(_) =>
    case Accept(_) =>
    case TransmitComplete =>
    case Receive(f) =>
      if f.Data? {
        assert LevelsOk(c, s, f.prio);
        ArrivalEffect(c, s, f);
      } else {
        ApplyBelowLeaves(c, s, f, 8);
      }
    case Fire(id, granted) =>
      DispatchLevels(c, s.(sched := s.sched.Cancel(id)), s.sched.pending[id].call, granted, p);
  }

  lemma MoveKeepsLink(ca: Config, cb: Config, l: Link, m: Move)
    requires Hysteresis(cb) && CanMove(l, m) && LinkOk(cb, l)
    ensures LinkOk(cb, Step(ca, cb, l, m))
    ensures Controls(l.b.mac.refused) <= Controls(Step(ca, cb, l, m).b.mac.refused)
  {
    var l1 := Step(ca, cb, l, m);
    var a, b := ForA(l, m), ForB(l, m);
    if a.Some? {
      NextGate(ca, l.a, a.value);
      NextClock(ca, l.a, a.value);
    }
    if b.Some? {
      NextGate(cb, l.b, b.value);
      NextClock(cb, l.b, b.value);
      forall p: Prio
        ensures LevelsOk(cb, l1.b, p) && SignalsOk(cb, l1.b, p)
        ensures Controls(l.b.mac.refused) <= Controls(l1.b.mac.refused)
      {
        assert SignalsOk(cb, l.b, p);
        LevelsKept(cb, l.b, b.value, p);
        NextKeepsSignals(cb, l.b, b.value, p);
      }
      var zero: Prio := 0;
      assert LevelsOk(cb, l1.b, zero);
    }
  }

  lemma {:induction false} LinkAlwaysOk(ca: Config, cb: Config, links: seq<Link>, moves: seq<Move>, i: nat)
    requires Hysteresis(cb) && LinkRun(ca, cb, links, moves)
    requires i < |links|
    ensures LinkOk(cb, links[i])
  {
    if i > 0 {
      LinkAlwaysOk(ca, cb, links, moves, i - 1);
      assert Moved(ca, cb, links, moves, i - 1);
      MoveKeepsLink(ca, cb, links[i - 1], moves[i - 1]);
    }
  }

  lemma {:induction false} TimeForward(ca: Config, cb: Config, links: seq<Link>, moves: seq<Move>, i: nat, j: nat)
    requires Hysteresis(cb) && LinkRun(ca, cb, links, moves)
    requires i <= j < |links|
    ensures links[i].a.sched.now <= links[j].a.sched.now
    ensures Controls(links[i].b.mac.refused) <= Controls(links[j].b.mac.refused)
  {
    if i < j {
      TimeForward(ca, cb, links, moves, i, j - 1);
      LinkAlwaysOk(ca, cb, links, moves, j - 1);
      assert Moved(ca, cb, links, moves, j - 1);
      MoveKeepsLink(ca, cb, links[j - 1], moves[j - 1]);
      var a := ForA(links[j - 1], moves[j - 1]);
      if a.Some? {
        NextClock(ca, links[j - 1].a, a.value);
      }
    }
  }

  // ---------- A congestion episode ----------

  /** A class of B is congested in all states from `i` to `j`. */
  predicate EpisodeOpen(links: seq<Link>, i: nat, j: nat, p: Prio) {
    i <= j < |links| && forall m :: i <= m <= j ==> links[m].b.rx.congested[p]
  }

  /** In move `j` a control frame for the class reaches A. */
  predicate Hears(links: seq<Link>, moves: seq<Move>, j: nat, p: Prio) {
    && j < |links| && j < |moves| && moves[j] == ArriveAtA
    && links[j].toA < |links[j].b.mac.wire| && Pauses(Receive(links[j].b.mac.wire[links[j].toA]), p)
  }

  /** A has processed all that B has signalled for the class. */
  predicate CaughtUp(l: Link, p: Prio) {
    |Processed(l, p)| == l.b.rx.txXoff[p] + l.b.rx.txXon[p]
  }

  /** While a class stays congested, B signals nothing more for it and its queue grows by arrivals only. */
  lemma CongestedQuiet(c: Config, s: Dev, a: Action, p: Prio)
    requires Hysteresis(c) && Enabled(s, a) && (forall r: Prio :: LevelsOk(c, s, r))
    requires s.rx.congested[p] && Next(c, s, a).rx.congested[p]
    ensures var s1 := Next(c, s, a);
      s1.rx.txXoff[p] == s.rx.txXoff[p] && s1.rx.txXon[p] == s.rx.txXon[p]
      && s1.rx.occ[p] <= s.rx.occ[p] + |ArrivedBy(a, p)|
  {
    assert LevelsOk(c, s, p);
    if a.Receive? && a.frame.Data? {
      assert LevelsOk(c, s, a.frame.prio);
      ArrivalEffect(c, s, a.frame);
    } else if a.Receive? {
      ApplyBelowLeaves(c, s, a.frame, 8);
    }
  }

  lemma TakeNext(w: seq<Frame>, w1: seq<Frame>, n: nat, test: Frame -> bool)
    requires n < |w| && w <= w1
    ensures w1[..n] == w[..n]
    ensures Keep(w1[..n + 1], test) == Keep(w[..n], test) + (if test(w[n]) then [w[n]] else [])
  {
    assert w1[..n + 1] == w[..n] + [w[n]];
    KeepConcat(w[..n], [w[n]], test);
    assert Keep([w[n]], test) == if test(w[n]) then [w[n]] + Keep([], test) else Keep([], test);
  }

  /** Arrivals at B and processed signals at A are counted along the wires. */
  lemma MoveCounts(ca: Config, cb: Config, l: Link, m: Move, p: Prio)
    requires Hysteresis(cb) && CanMove(l, m) && LinkOk(cb, l)
    ensures var l1 := Step(ca, cb, l, m);
      && LinkOk(cb, l1)
      && ArrivedAtB(l1, p) == ArrivedAtB(l, p) + (var b := ForB(l, m); if b.Some? then |ArrivedBy(b.value, p)| else 0)
      && |Processed(l1, p)| == |Processed(l, p)|
           + (var a := ForA(l, m); if a.Some? && Pauses(a.value, p) then 1 else 0)
  {
    var l1 := Step(ca, cb, l, m);
    MoveKeepsLink(ca, cb, l, m);
    if m == ArriveAtB {
      TakeNext(l.a.mac.wire, l1.a.mac.wire, l.toB, InClass(p));
    } else {
      assert l1.a.mac.wire[..l.toB] == l.a.mac.wire[..l.toB];
    }
    if m == ArriveAtA {
      TakeNext(l.b.mac.wire, l1.b.mac.wire, l.toA, Enables(p));
    } else {
      assert l1.b.mac.wire[..l.toA] == l.b.mac.wire[..l.toA];
    }
  }

  /** What A has processed is the beginning of what B has signalled. */
  lemma ProcessedIsPrefix(cb: Config, l: Link, p: Prio)
    requires LinkOk(cb, l)
    ensures Processed(l, p) <= Signals(l.b, p)
  {
    var w := l.b.mac.wire + l.b.mac.queue;
    assert w == l.b.mac.wire[..l.toA] + (l.b.mac.wire[l.toA..] + l.b.mac.queue);
    KeepConcat(l.b.mac.wire[..l.toA], l.b.mac.wire[l.toA..] + l.b.mac.queue, Enables(p));
  }

  /** As long as the episode goes on, the queue of B grows by no more than what arrives. */
  lemma {:induction false} GrowthBounded(ca: Config, cb: Config, links: seq<Link>, moves: seq<Move>, i: nat, j: nat, p: Prio)
    requires Hysteresis(cb) && LinkRun(ca, cb, links, moves)
    requires i <= j < |links| && EpisodeOpen(links, i, j, p)
    ensures links[j].b.rx.occ[p] + ArrivedAtB(links[i], p) <= links[i].b.rx.occ[p] + ArrivedAtB(links[j], p)
    ensures links[j].b.rx.txXoff[p] == links[i].b.rx.txXoff[p] && links[j].b.rx.txXon[p] == links[i].b.rx.txXon[p]
  {
    if i < j {
      LinkAlwaysOk(ca, cb, links, moves, j - 1);
      GrowthBounded(ca, cb, links, moves, i, j - 1, p);
      var l, m := links[j - 1], moves[j - 1];
      assert Moved(ca, cb, links, moves, j - 1);
      MoveCounts(ca, cb, l, m, p);
      var b := ForB(l, m);
      if b.Some? {
        assert links[j].b == Next(cb, l.b, b.value);
        CongestedQuiet(cb, l.b, b.value, p);
      }
    }
  }

  /** One move of a run, with what is needed of it below. */
  lemma RunStep(ca: Config, cb: Config, links: seq<Link>, moves: seq<Move>, i: nat)
    requires Hysteresis(cb) && LinkRun(ca, cb, links, moves)
    requires i < |moves|
    ensures CanMove(links[i], moves[i]) && links[i + 1] == Step(ca, cb, links[i], moves[i])
    ensures NoSignalLost(links[i + 1].b) ==> NoSignalLost(links[i].b)
    ensures links[i].a.sched.now <= links[i + 1].a.sched.now
  {
    assert Moved(ca, cb, links, moves, i);
    TimeForward(ca, cb, links, moves, i, i + 1);
  }

  /** A has heard all there is for the class, and holds this pause. */
  predicate Standing(ca: Config, l: Link, p: Prio, pause: Pause) {
    CaughtUp(l, p) && PauseStateOk(ca, l.a, Some(pause), p)
  }

  lemma PauseStandsStep(ca: Config, cb: Config, l: Link, m: Move, p: Prio, pause: Pause)
    requires Hysteresis(cb) && CanMove(l, m) && LinkOk(cb, l)
    requires l.b.rx.congested[p] && Step(ca, cb, l, m).b.rx.congested[p] && NoSignalLost(Step(ca, cb, l, m).b)
    requires Standing(ca, l, p, pause)
    ensures Standing(ca, Step(ca, cb, l, m), p, pause)
  {
    var l1 := Step(ca, cb, l, m);
    MoveCounts(ca, cb, l, m, p);
    ProcessedIsPrefix(cb, l1, p);
    assert SignalsOk(cb, l1.b, p);
    var a, b := ForA(l, m), ForB(l, m);
    if b.Some? {
      assert l1.b == Next(cb, l.b, b.value);
      CongestedQuiet(cb, l.b, b.value, p);
    }
    if a.Some? {
      assert !Pauses(a.value, p);
      NextKeepsPauseState(ca, l.a, a.value, Some(pause), p);
    }
  }

  lemma PauseStandsNext(ca: Config, cb: Config, links: seq<Link>, moves: seq<Move>, i: nat, p: Prio, pause: Pause)
    requires Hysteresis(cb) && LinkRun(ca, cb, links, moves)
    requires i < |moves| && links[i].b.rx.congested[p] && links[i + 1].b.rx.congested[p] && NoSignalLost(links[i + 1].b)
    requires Standing(ca, links[i], p, pause)
    ensures Standing(ca, links[i + 1], p, pause)
  {
    LinkAlwaysOk(ca, cb, links, moves, i);
    assert Moved(ca, cb, links, moves, i);
    PauseStandsStep(ca, cb, links[i], moves[i], p, pause);
  }

  /** Once A has caught up, nothing more reaches it for the class, and its pause stands. */
  lemma {:induction false} PauseStands(
    ca: Config, cb: Config, links: seq<Link>, moves: seq<Move>, i: nat, j: nat, p: Prio, pause: Pause)
    requires Hysteresis(cb) && LinkRun(ca, cb, links, moves)
    requires i <= j < |links| && EpisodeOpen(links, i, j, p)
    requires Standing(ca, links[i], p, pause)
    requires NoSignalLost(links[j].b)
    ensures Standing(ca, links[j], p, pause)
  {
    if i < j {
      RunStep(ca, cb, links, moves, j - 1);
      PauseStands(ca, cb, links, moves, i, j - 1, p, pause);
      PauseStandsNext(ca, cb, links, moves, j - 1, p, pause);
    }
  }

  lemma GatedMove(ca: Config, cb: Config, l: Link, m: Move, p: Prio)
    requires Hysteresis(cb) && CanMove(l, m) && LinkOk(cb, l)
    requires Gated(Step(ca, cb, l, m).a, p)
    ensures Started(Step(ca, cb, l, m), p) == Started(l, p)
  {
    var a := ForA(l, m);
    if a.Some? {
      NextGate(ca, l.a, a.value);
    }
  }

  /** The pause asks for something and has not run out. */
  predicate InForce(ca: Config, l: Link, pause: Pause) {
    pause.quanta > 0 && l.a.sched.now < pause.at + PauseTime(ca, pause.quanta)
  }

  lemma GatedNext(ca: Config, cb: Config, links: seq<Link>, moves: seq<Move>, i: nat, p: Prio)
    requires Hysteresis(cb) && LinkRun(ca, cb, links, moves)
    requires i < |moves| && Gated(links[i + 1].a, p)
    ensures Started(links[i + 1], p) == Started(links[i], p)
  {
    LinkAlwaysOk(ca, cb, links, moves, i);
    assert Moved(ca, cb, links, moves, i);
    GatedMove(ca, cb, links[i], moves[i], p);
  }

  lemma LastMoveStartsNothing(
    ca: Config, cb: Config, links: seq<Link>, moves: seq<Move>, i: nat, j: nat, p: Prio, pause: Pause)
    requires Hysteresis(cb) && LinkRun(ca, cb, links, moves)
    requires i < j < |links| && EpisodeOpen(links, i, j, p)
    requires Standing(ca, links[i], p, pause)
    requires NoSignalLost(links[j].b) && InForce(ca, links[j], pause)
    ensures Started(links[j], p) == Started(links[j - 1], p)
  {
    PauseStands(ca, cb, links, moves, i, j, p, pause);
    assert Gated(links[j].a, p);
    GatedNext(ca, cb, links, moves, j - 1, p);
  }

  /** While the pause stands and has not run out, A starts no frame of the class. */
  lemma {:induction false} NothingStarted(
    ca: Config, cb: Config, links: seq<Link>, moves: seq<Move>, i: nat, j: nat, p: Prio, pause: Pause)
    requires Hysteresis(cb) && LinkRun(ca, cb, links, moves)
    requires i <= j < |links| && EpisodeOpen(links, i, j, p)
    requires Standing(ca, links[i], p, pause)
    requires NoSignalLost(links[j].b)
    requires InForce(ca, links[j], pause)
    ensures Started(links[j], p) == Started(links[i], p)
  {
    if i < j {
      RunStep(ca, cb, links, moves, j - 1);
      NothingStarted(ca, cb, links, moves, i, j - 1, p, pause);
      LastMoveStartsNothing(ca, cb, links, moves, i, j, p, pause);
    }
  }

  /** The step in which B becomes congested leaves it at most at its high watermark. */
  lemma CrossingLevel(c: Config, s: Dev, a: Action, p: Prio)
    requires Hysteresis(c) && Enabled(s, a) && (forall r: Prio :: LevelsOk(c, s, r))
    requires !s.rx.congested[p] && Next(c, s, a).rx.congested[p]
    ensures Next(c, s, a).rx.occ[p] == c.high
  {
    assert LevelsOk(c, s, p);
    if a.Receive? && a.frame.Data? {
      assert LevelsOk(c, s, a.frame.prio);
      ArrivalEffect(c, s, a.frame);
    } else if a.Receive? {
      ApplyBelowLeaves(c, s, a.frame, 8);
    }
  }

  /** The signal with which A catches up while B is congested is the pause of this episode. */
  lemma CatchUpIsPause(ca: Config, cb: Config, l: Link, p: Prio)
    requires Hysteresis(cb) && 0 < cb.quanta && CanMove(l, ArriveAtA) && LinkOk(cb, l)
    requires Pauses(Receive(l.b.mac.wire[l.toA]), p)
    requires var l1 := Step(ca, cb, l, ArriveAtA); CaughtUp(l1, p) && NoSignalLost(l1.b) && l1.b.rx.congested[p]
    ensures var l1 := Step(ca, cb, l, ArriveAtA);
      LinkOk(cb, l1) && PauseStateOk(ca, l1.a, Some(Pause(l.a.sched.now, cb.quanta)), p)
  {
    var l1 := Step(ca, cb, l, ArriveAtA);
    var f := l.b.mac.wire[l.toA];
    MoveKeepsLink(ca, cb, l, ArriveAtA);
    TakeNext(l.b.mac.wire, l1.b.mac.wire, l.toA, Enables(p));
    ProcessedIsPrefix(cb, l1, p);
    assert SignalsOk(cb, l1.b, p) && LevelsOk(cb, l1.b, p);
    var n := |Processed(l1, p)|;
    assert Processed(l1, p)[n - 1] == f == Signals(l1.b, p)[n - 1];
    assert n % 2 == 1;
    assert f == PauseFrame(p, cb.quanta);
    ApplyBelowPauses(ca, l.a, f, 8, p);
  }

  /** From the move in which A catches up with a congested B on, it starts nothing until the pause has run out. */
  lemma PeerSilent(ca: Config, cb: Config, links: seq<Link>, moves: seq<Move>, j: nat, k: nat, p: Prio)
    requires Hysteresis(cb) && 0 < cb.quanta && LinkRun(ca, cb, links, moves)
    requires j < k < |links| && EpisodeOpen(links, j + 1, k, p)
    requires Hears(links, moves, j, p) && CaughtUp(links[j + 1], p)
    requires links[k].a.sched.now < links[j].a.sched.now + PauseTime(ca, cb.quanta)
    requires NoSignalLost(links[k].b)
    ensures Started(links[k], p) == Started(links[j + 1], p)
  {
    LinkAlwaysOk(ca, cb, links, moves, j);
    assert Moved(ca, cb, links, moves, j);
    TimeForward(ca, cb, links, moves, j + 1, k);
    CatchUpIsPause(ca, cb, links[j], p);
    NothingStarted(ca, cb, links, moves, j + 1, k, p, Pause(links[j].a.sched.now, cb.quanta));
  }

  lemma SplitWire(l: Link, p: Prio)
    ensures ArrivedAtB(l, p) + InFlight(l, p) == Started(l, p)
  {
    assert l.a.mac.wire == l.a.mac.wire[..l.toB] + l.a.mac.wire[l.toB..];
    OfClassConcat(l.a.mac.wire[..l.toB], l.a.mac.wire[l.toB..], p);
  }

  lemma CrossingMove(ca: Config, cb: Config, links: seq<Link>, moves: seq<Move>, i: nat, p: Prio)
    requires Hysteresis(cb) && LinkRun(ca, cb, links, moves)
    requires i < |moves| && !links[i].b.rx.congested[p] && links[i + 1].b.rx.congested[p]
    ensures links[i + 1].b.rx.occ[p] == cb.high
  {
    LinkAlwaysOk(ca, cb, links, moves, i);
    RunStep(ca, cb, links, moves, i);
    var b := ForB(links[i], moves[i]);
    assert b.Some? && links[i + 1].b == Next(cb, links[i].b, b.value);
    CrossingLevel(cb, links[i].b, b.value, p);
  }

  /** What A has started only grows. */
  lemma {:induction false} StartedGrows(ca: Config, cb: Config, links: seq<Link>, moves: seq<Move>, i: nat, j: nat, p: Prio)
    requires LinkRun(ca, cb, links, moves) && i <= j < |links|
    ensures Started(links[i], p) <= Started(links[j], p)
  {
    if i < j {
      StartedGrows(ca, cb, links, moves, i, j - 1, p);
      assert Moved(ca, cb, links, moves, j - 1);
      var w, w1 := links[j - 1].a.mac.wire, links[j].a.mac.wire;
      assert w1 == w + w1[|w|..];
      OfClassConcat(w, w1[|w|..], p);
    }
  }

  /**
   * The headroom of a congestion episode. B's class `p` crosses the high
   * watermark in move `i` and stays congested. From then on the class occupies at
   * most the high watermark, plus the frames that were on the wire when B crossed
   * it, plus those that A has started since. Once A, in move `j`, has caught up
   * with B's signals, only those count that it started before it processed the
   * pause, as long as that pause has not run out.
   */
  lemma HeadroomBound(ca: Config, cb: Config, links: seq<Link>, moves: seq<Move>, i: nat, j: nat, k: nat, p: Prio)
    requires Hysteresis(cb) && 0 < cb.quanta && LinkRun(ca, cb, links, moves)
    requires i < j && i < k < |links|
    requires !links[i].b.rx.congested[p] && EpisodeOpen(links, i + 1, k, p)
    requires k > j ==>
      && Hears(links, moves, j, p) && CaughtUp(links[j + 1], p)
      && links[k].a.sched.now < links[j].a.sched.now + PauseTime(ca, cb.quanta)
      && NoSignalLost(links[k].b)
    ensures |links[k].b.rx.ingressQ[p]|
      <= cb.high + InFlight(links[i + 1], p) + (Started(links[if k <= j then k else j + 1], p) - Started(links[i + 1], p))
    ensures j < |moves| ==>
      |links[k].b.rx.ingressQ[p]| <= cb.high + InFlight(links[i + 1], p) + (Started(links[j + 1], p) - Started(links[i + 1], p))
  {
    CrossingMove(ca, cb, links, moves, i, p);
    GrowthBounded(ca, cb, links, moves, i + 1, k, p);
    if k > j {
      PeerSilent(ca, cb, links, moves, j, k, p);
    } else if j < |moves| {
      StartedGrows(ca, cb, links, moves, k, j + 1, p);
    }
    SplitWire(links[k], p);
    SplitWire(links[i + 1], p);
    LinkAlwaysOk(ca, cb, links, moves, k);
    assert LevelsOk(cb, links[k].b, p);
  }
}
