/**
 * Where the accepted frames are: none is lost or duplicated, and exactly which
 * steps let a frame overtake an older one of its class.
 */
module DeviceOrder {
  import opened Frames
  import opened EventQueue
  import opened PfcDevice
  import opened DeviceGate
  import opened Sequences

  /** The frames of a class that Send has accepted in the first `i` actions. */
  function AcceptedOf(actions: seq<Action>, i: nat, p: Prio): (r: seq<DataFrame>)
    requires i <= |actions|
  {
    if i == 0 then []
    else AcceptedOf(actions, i - 1, p) + AcceptedBy(actions[i - 1], p)
  }

  function AcceptedBy(a: Action, p: Prio): seq<DataFrame> {
    if a.Accept? && a.packet.prio == p then [a.packet] else []
  }

  /**
   * The frames of a class in the order in which they stand between the
   * application and the far end: sent, in the MAC queue, on hold, not yet dequeued.
   */
  function Line(s: Dev, p: Prio): seq<DataFrame> {
    OfClass(s.mac.wire, p) + OfClass(s.mac.queue, p) + s.tx.hold[p] + s.tx.txq[p]
  }

  /** The step leaves one class exactly where it was. */
  predicate SameClass(s: Dev, s1: Dev, p: Prio) {
    && OfClass(s1.mac.wire, p) == OfClass(s.mac.wire, p)
    && OfClass(s1.mac.queue, p) == OfClass(s.mac.queue, p)
    && s1.tx.hold[p] == s.tx.hold[p] && s1.tx.txq[p] == s.tx.txq[p]
  }

  // ---------- The steps one by one ----------

  /** The path of a class through the transmitter. */
  function MacPath(m: Mac, p: Prio): seq<DataFrame> {
    OfClass(m.wire, p) + OfClass(m.queue, p)
  }

  lemma TransmitHeadPath(m: Mac, p: Prio)
    ensures MacPath(TransmitHead(m), p) == MacPath(m, p)
  {
    if m.queue != [] {
      OfClassTail(m.queue, p);
      OfClassConcat(m.wire, [m.queue[0]], p);
    }
  }

  lemma MacSendPath(c: Config, m: Mac, f: Frame, p: Prio)
    ensures MacPath(MacSend(c, m, f), p) == MacPath(m, p) + if HasRoom(c, m) && IsClass(f, p) then [f] else []
  {
    if HasRoom(c, m) {
      OfClassSnoc(m.queue, f, p);
      TransmitHeadPath(m.(queue := m.queue + [f]), p);
    }
  }

  /** Moving held frames to the end of the MAC queue keeps their class in line. */
  lemma MoveHeldLine(c: Config, s: Dev, p: Prio)
    requires Pure(s)
    ensures Line(MoveHeld(c, s, p), p) == Line(s, p)
  {
    var k := Movable(c, s, p);
    var moved, kept := s.tx.hold[p][..k], s.tx.hold[p][k..];
    assert forall g :: g in moved ==> g in s.tx.hold[p];
    OfClassConcat(s.mac.queue, moved, p);
    OfClassPure(moved, p, p);
    assert moved + kept == s.tx.hold[p];
    var w, q, t := OfClass(s.mac.wire, p), OfClass(s.mac.queue, p), s.tx.txq[p];
    assert w + (q + moved) + kept + t == w + q + (moved + kept) + t;
  }

  lemma RefillLine(c: Config, s: Dev, r: Prio, p: Prio)
    requires Pure(s)
    ensures Pure(Refill(c, s, r))
    ensures Line(Refill(c, s, r), p) == Line(s, p)
    ensures r != p ==> SameClass(s, Refill(c, s, r), p)
  {
    RefillGate(c, s, r, p);
    if !Gated(s, r) && r == p {
      var s0 := Unpaused(s, r);
      assert Pure(s0);
      MoveHeldLine(c, s0, p);
      var s1 := MoveHeld(c, s0, p);
      assert AfterMove(s1, p).mac == s1.mac && AfterMove(s1, p).tx.hold == s1.tx.hold && AfterMove(s1, p).tx.txq == s1.tx.txq;
    }
  }

  /** Counters, pauses and timers have no part in where the frames are. */
  lemma SamePlaces(s: Dev, s1: Dev, p: Prio)
    requires s1.mac == s.mac && s1.tx.hold == s.tx.hold && s1.tx.txq == s.tx.txq
    ensures Line(s1, p) == Line(s, p) && SameClass(s, s1, p) && (Pure(s) ==> Pure(s1))
  {
  }

  /** A step that leaves the upper and hold queues alone changes a class as it changes its path through the transmitter. */
  lemma SamePath(s: Dev, s1: Dev, p: Prio)
    requires MacPath(s1.mac, p) == MacPath(s.mac, p) && s1.tx.hold == s.tx.hold && s1.tx.txq == s.tx.txq
    ensures Line(s1, p) == Line(s, p)
  {
  }

  lemma XonLine(c: Config, s: Dev, r: Prio, p: Prio)
    requires Pure(s)
    ensures Pure(Xon(c, s, r))
    ensures Line(Xon(c, s, r), p) == Line(s, p)
    ensures r != p ==> SameClass(s, Xon(c, s, r), p)
  {
    var s0 := Reopened(s, r);
    SamePlaces(s, s0, p);
    RefillLine(c, s0, r, p);
  }

  lemma XoffLine(c: Config, s: Dev, r: Prio, q: nat, p: Prio)
    requires Pure(s)
    ensures var s1 := Xoff(c, s, r, q);
      && Pure(s1)
      && (r != p ==> SameClass(s, s1, p))
      && (r == p ==>
            Line(s1, p) == OfClass(s.mac.wire, p) + s.tx.hold[p] + OfClass(s.mac.queue, p) + s.tx.txq[p])
  {
    var s0 := Stopped(c, s, r, q);
    assert Pure(s0);
    PurgeGate(s0, r, p);
    assert Xoff(c, s, r, q).tx.hold == Purge(s0, r).tx.hold;
    if r == p {
      assert OfClass(s.mac.wire, p) + [] + (s.tx.hold[p] + OfClass(s.mac.queue, p)) + s.tx.txq[p]
          == OfClass(s.mac.wire, p) + s.tx.hold[p] + OfClass(s.mac.queue, p) + s.tx.txq[p];
    }
  }

  /** A pause of class `p` puts what is in the MAC queue behind what is on hold. */
  predicate Turned(s: Dev, s1: Dev, p: Prio) {
    Line(s1, p) == OfClass(s.mac.wire, p) + s.tx.hold[p] + OfClass(s.mac.queue, p) + s.tx.txq[p]
  }

  lemma ApplyClassLine(c: Config, s: Dev, f: Frame, r: Prio, p: Prio)
    requires f.Control? && Pure(s)
    ensures var s1 := ApplyClass(c, s, f, r);
      && Pure(s1)
      && (r != p ==> SameClass(s, s1, p))
      && (r == p ==> if p in f.enabled && f.quanta[p] > 0 then Turned(s, s1, p) else Line(s1, p) == Line(s, p))
  {
    if r in f.enabled && f.quanta[r] == 0 {
      XonLine(c, s, r, p);
    } else if r in f.enabled {
      XoffLine(c, s, r, f.quanta[r], p);
    }
  }

  /** Where class `p` is once the classes below `k` have been handled. */
  predicate Handled(s: Dev, s1: Dev, f: Frame, k: nat, p: Prio)
    requires f.Control?
  {
    && (k <= p ==> SameClass(s, s1, p))
    && (k > p ==> if p in f.enabled && f.quanta[p] > 0 then Turned(s, s1, p) else Line(s1, p) == Line(s, p))
  }

  lemma HandledNext(c: Config, s: Dev, s1: Dev, f: Frame, k: Prio, p: Prio)
    requires f.Control? && Pure(s1) && Handled(s, s1, f, k, p)
    ensures Pure(ApplyClass(c, s1, f, k)) && Handled(s, ApplyClass(c, s1, f, k), f, k + 1, p)
  {
    ApplyClassLine(c, s1, f, k, p);
  }

  lemma {:induction false} ApplyBelowLine(c: Config, s: Dev, f: Frame, k: nat, p: Prio)
    requires f.Control? && k <= 8 && Pure(s)
    ensures Pure(ApplyBelow(c, s, f, k)) && Handled(s, ApplyBelow(c, s, f, k), f, k, p)
  {
    if k > 0 {
      ApplyBelowLine(c, s, f, k - 1, p);
      HandledNext(c, s, ApplyBelow(c, s, f, k - 1), f, k - 1, p);
    }
  }

  lemma ReceiveDataLine(c: Config, s: Dev, f: DataFrame, p: Prio)
    ensures Line(ReceiveData(c, s, f), p) == Line(s, p)
  {
    ArrivalMac(c, s, f);
    MacSendPath(c, s.mac, PauseFrame(f.prio, c.quanta), p);
    MacSendPath(c, MacSend(c, s.mac, PauseFrame(f.prio, c.quanta)), PauseFrame(f.prio, 0), p);
    MacSendPath(c, s.mac, PauseFrame(f.prio, 0), p);
    SamePath(s, ReceiveData(c, s, f), p);
  }

  lemma DrainLine(c: Config, s: Dev, granted: bool, p: Prio)
    ensures Line(DrainStep(c, s, granted), p) == Line(s, p)
  {
    match WaitingBelow(s, 8)
    case None =>
    case Some(r) =>
      MacSendPath(c, s.mac, PauseFrame(r, 0), p);
      SamePath(s, DrainStep(c, s, granted), p);
  }

  /** Dequeuing puts a frame ahead of what is on hold. */
  lemma DequeueLine(c: Config, s: Dev, r: Prio, p: Prio)
    requires Pure(s) && s.tx.txq[r] != []
    ensures var s1 := DequeueClass(c, s, r);
      Line(s1, p) == if r == p && HasRoom(c, s.mac)
        then OfClass(s.mac.wire, p) + OfClass(s.mac.queue, p) + [s.tx.txq[p][0]] + s.tx.hold[p] + s.tx.txq[p][1..]
        else Line(s, p)
  {
    var f := s.tx.txq[r][0];
    assert f in s.tx.txq[r];
    MacSendPath(c, s.mac, f, p);
    var s1 := DequeueClass(c, s, r);
    assert s1.mac == MacSend(c, s.mac, f) && s1.tx.hold == s.tx.hold;
    if !HasRoom(c, s.mac) {
      SamePath(s, s1, p);
    } else {
      var rest := s.tx.txq[r][1..];
      assert s1.tx.txq == s.tx.txq[r := rest];
      if r == p {
        assert Line(s1, p) == MacPath(s.mac, p) + [f] + s.tx.hold[p] + rest;
      } else {
        assert Line(s1, p) == MacPath(s.mac, p) + s.tx.hold[p] + s.tx.txq[p];
      }
    }
  }

  // ---------- Which steps overtake ----------

  /**
   * The two guards that break the order of a class: a dequeue that succeeds
   * while older frames are on hold, and a pause that finds newer frames in the
   * MAC queue while older ones are still on hold.
   */
  predicate Overtakes(c: Config, s: Dev, a: Action, p: Prio)
    requires Enabled(s, a)
  {
    s.tx.hold[p] != [] &&
    match a
    case Fire(id, _) => s.sched.pending[id].call == TryDequeue && PickNextPrio(s) == Some(p) && HasRoom(c, s.mac)
    case Receive(f) => f.Control? && p in f.enabled && f.quanta[p] > 0 && OfClass(s.mac.queue, p) != []
    case _ => false
  }

  /** What an action does to the line of a class: extend it, keep it, or swap two parts of it. */
  datatype Effect = Effect(before: seq<DataFrame>, first: seq<DataFrame>, second: seq<DataFrame>, after: seq<DataFrame>)

  /** The line is before + first + second + after, and the step turns it into before + second + first + after. */
  predicate Swaps(s: Dev, s1: Dev, p: Prio, e: Effect) {
    && Line(s, p) == e.before + e.first + e.second + e.after
    && Line(s1, p) == e.before + e.second + e.first + e.after
  }

  lemma {:induction false} PickSame(s: Dev, s1: Dev, k: nat)
    requires k <= 8 && s1.tx == s.tx && s1.sched.now == s.sched.now
    ensures PickBelow(s1, k) == PickBelow(s, k)
  {
    if k > 0 {
      PickSame(s, s1, k - 1);
    }
  }

  lemma FireEffect(c: Config, s: Dev, id: EventId, granted: bool, p: Prio) returns (e: Effect)
    requires Enabled(s, Fire(id, granted)) && Pure(s)
    ensures Swaps(s, Next(c, s, Fire(id, granted)), p, e)
    ensures Overtakes(c, s, Fire(id, granted), p) <==> e.first != [] && e.second != []
  {
    var s0 := s.(sched := s.sched.Cancel(id));
    e := Effect(Line(s, p), [], [], []);
    SamePlaces(s, s0, p);
    match s.sched.pending[id].call {
      case TryDequeue =>
        PickSame(s, s0, 8);
        match PickNextPrio(s) {
          case None =>
          case Some(r) =>
            DequeueLine(c, s0, r, p);
            if r == p && HasRoom(c, s.mac) {
              e := Effect(MacPath(s.mac, p), s.tx.hold[p], [s.tx.txq[p][0]], s.tx.txq[p][1..]);
              assert s.tx.txq[p] == e.second + e.after;
            }
        }
      case DoIngressDrain =>
        DrainLine(c, s0, granted, p);
      case ResumeFromPause(r) =>
        SamePlaces(s0, Unpaused(s0, r), p);
        RefillLine(c, Unpaused(s0, r), r, p);
      case RefillMacQueueFromHold(r) =>
        RefillLine(c, s0, r, p);
    }
  }

  lemma ReceiveEffect(c: Config, s: Dev, f: Frame, p: Prio) returns (e: Effect)
    requires Pure(s)
    ensures Swaps(s, Next(c, s, Receive(f)), p, e)
    ensures Overtakes(c, s, Receive(f), p) <==> e.first != [] && e.second != []
  {
    e := Effect(Line(s, p), [], [], []);
    if f.Data? {
      ReceiveDataLine(c, s, f, p);
    } else if f.enabled != {} {
      ApplyBelowLine(c, s, f, 8, p);
      if p in f.enabled && f.quanta[p] > 0 {
        e := Effect(OfClass(s.mac.wire, p), OfClass(s.mac.queue, p), s.tx.hold[p], s.tx.txq[p]);
      }
    }
  }

  lemma NextEffect(c: Config, s: Dev, a: Action, p: Prio) returns (e: Effect)
    requires Enabled(s, a) && Pure(s) && !a.Accept?
    ensures Swaps(s, Next(c, s, a), p, e)
    ensures Overtakes(c, s, a, p) <==> e.first != [] && e.second != []
  {
    match a
    case Tick(_) => e := Effect(Line(s, p), [], [], []);
    case TransmitComplete =>
      e := Effect(Line(s, p), [], [], []);
      TransmitHeadPath(s.mac, p);
      assert MacPath(Next(c, s, a).mac, p) == MacPath(s.mac, p);
    case Receive(f) => e := ReceiveEffect(c, s, f, p);
    case Fire(id, granted) => e := FireEffect(c, s, id, granted, p);
  }

  lemma AcceptLine(c: Config, s: Dev, f: DataFrame, p: Prio)
    ensures Line(Next(c, s, Accept(f)), p) == Line(s, p) + AcceptedBy(Accept(f), p)
  {
    assert MacPath(Next(c, s, Accept(f)).mac, p) == MacPath(s.mac, p);
  }

  // ---------- What is in the transmitter stays in order ----------

  /** A control frame that stops the class. */
  predicate Stops(a: Action, p: Prio) {
    a.Receive? && a.frame.Control? && p in a.frame.enabled && a.frame.quanta[p] > 0
  }

  lemma RefillPath(c: Config, s: Dev, r: Prio, p: Prio)
    requires Pure(s)
    ensures Pure(Refill(c, s, r)) && MacPath(s.mac, p) <= MacPath(Refill(c, s, r).mac, p)
  {
    RefillLine(c, s, r, p);
    if r == p && !Gated(s, p) {
      var moved := s.tx.hold[p][..Movable(c, Unpaused(s, p), p)];
      assert Refill(c, s, p).mac.queue == s.mac.queue + moved && Refill(c, s, p).mac.wire == s.mac.wire;
      OfClassConcat(s.mac.queue, moved, p);
      SeqAssoc(OfClass(s.mac.wire, p), OfClass(s.mac.queue, p), OfClass(moved, p));
    }
  }

  predicate Extends(s: Dev, s1: Dev, p: Prio) {
    MacPath(s.mac, p) <= MacPath(s1.mac, p)
  }

  lemma ApplyClassPath(c: Config, s: Dev, s1: Dev, f: Frame, r: Prio, p: Prio)
    requires f.Control? && Pure(s1) && !Stops(Receive(f), p) && Extends(s, s1, p)
    ensures Pure(ApplyClass(c, s1, f, r)) && Extends(s, ApplyClass(c, s1, f, r), p)
  {
    ApplyClassLine(c, s1, f, r, p);
    if r == p && p in f.enabled {
      SamePlaces(s1, Reopened(s1, p), p);
      RefillPath(c, Reopened(s1, p), p, p);
    }
  }

  lemma {:induction false} ApplyBelowPath(c: Config, s: Dev, f: Frame, k: nat, p: Prio)
    requires f.Control? && k <= 8 && Pure(s) && !Stops(Receive(f), p)
    ensures Pure(ApplyBelow(c, s, f, k)) && Extends(s, ApplyBelow(c, s, f, k), p)
  {
    if k > 0 {
      ApplyBelowPath(c, s, f, k - 1, p);
      ApplyClassPath(c, s, ApplyBelow(c, s, f, k - 1), f, k - 1, p);
    }
  }

  /** Every action but a pause of the class only adds to the end of what the class has in the transmitter. */
  lemma PathGrows(c: Config, s: Dev, a: Action, p: Prio)
    requires Enabled(s, a) && Pure(s) && !Stops(a, p)
    ensures MacPath(s.mac, p) <= MacPath(Next(c, s, a).mac, p)
  {
    match a
    case Tick(_) =>
    case Accept(_) =>
    case TransmitComplete => TransmitHeadPath(s.mac, p);
    case Receive(f) =>
      if f.Control? {
        ApplyBelowPath(c, s, f, 8, p);
      } else {
        ArrivalMac(c, s, f);
        MacSendPath(c, s.mac, PauseFrame(f.prio, c.quanta), p);
        MacSendPath(c, MacSend(c, s.mac, PauseFrame(f.prio, c.quanta)), PauseFrame(f.prio, 0), p);
        MacSendPath(c, s.mac, PauseFrame(f.prio, 0), p);
      }
    case Fire(id, granted) => FirePath(c, s, id, granted, p);
  }

  lemma FirePath(c: Config, s: Dev, id: EventId, granted: bool, p: Prio)
    requires Enabled(s, Fire(id, granted)) && Pure(s)
    ensures MacPath(s.mac, p) <= MacPath(Next(c, s, Fire(id, granted)).mac, p)
  {
    var s0 := s.(sched := s.sched.Cancel(id));
    SamePlaces(s, s0, p);
    match s.sched.pending[id].call {
      case TryDequeue => DequeuePath(c, s0, p);
      case DoIngressDrain => DrainPath(c, s0, granted, p);
      case ResumeFromPause(r) =>
        SamePlaces(s0, Unpaused(s0, r), p);
        RefillPath(c, Unpaused(s0, r), r, p);
      case RefillMacQueueFromHold(r) => RefillPath(c, s0, r, p);
    }
  }

  lemma DequeuePath(c: Config, s: Dev, p: Prio)
    ensures MacPath(s.mac, p) <= MacPath(TryDequeueStep(c, s).mac, p)
  {
    match PickNextPrio(s) {
      case None =>
      case Some(r) => MacSendPath(c, s.mac, s.tx.txq[r][0], p);
    }
  }

  lemma DrainPath(c: Config, s: Dev, granted: bool, p: Prio)
    ensures MacPath(s.mac, p) <= MacPath(DrainStep(c, s, granted).mac, p)
  {
    match WaitingBelow(s, 8) {
      case None =>
      case Some(r) => MacSendPath(c, s.mac, PauseFrame(r, 0), p);
    }
  }

  /**
   * Until the class is paused again, a frame that overtook another stays ahead of
   * it: what the class has in the transmitter is only extended, whatever happens.
   */
  lemma {:induction false} PathOverRun(c: Config, states: seq<Dev>, actions: seq<Action>, i: nat, j: nat, p: Prio)
    requires Run(c, states, actions) && states[0] == INITIAL && i <= j < |states|
    requires forall k :: i <= k < j ==> !Stops(actions[k], p)
    ensures MacPath(states[i].mac, p) <= MacPath(states[j].mac, p)
  {
    if i < j {
      PathOverRun(c, states, actions, i, j - 1, p);
      GateAlwaysOk(c, states, actions, j - 1);
      PathGrows(c, states[j - 1], actions[j - 1], p);
    }
  }

  // ---------- Conservation ----------

  lemma NextConserves(c: Config, s: Dev, a: Action, p: Prio)
    requires Enabled(s, a) && Pure(s)
    ensures multiset(Line(Next(c, s, a), p)) == multiset(Line(s, p)) + multiset(AcceptedBy(a, p))
  {
    if a.Accept? {
      AcceptLine(c, s, a.packet, p);
    } else {
      var e := NextEffect(c, s, a, p);
    }
  }

  /**
   * Each frame that Send accepted is in exactly one place: on the wire, in the
   * MAC queue, on hold or in its upper queue, as often as it was accepted.
   */
  lemma {:induction false} NothingLost(c: Config, states: seq<Dev>, actions: seq<Action>, i: nat, p: Prio)
    requires Run(c, states, actions) && states[0] == INITIAL
    requires i < |states|
    ensures multiset(AcceptedOf(actions, i, p)) ==
      multiset(OfClass(states[i].mac.wire, p)) + multiset(OfClass(states[i].mac.queue, p))
      + multiset(states[i].tx.hold[p]) + multiset(states[i].tx.txq[p])
  {
    if i > 0 {
      NothingLost(c, states, actions, i - 1, p);
      GateAlwaysOk(c, states, actions, i - 1);
      NextConserves(c, states[i - 1], actions[i - 1], p);
    }
  }

  // ---------- Order ----------

  /** Swapping two parts of a sequence without repetitions keeps it only when one of them is empty. */
  lemma SwapVisible(a: seq<DataFrame>, x: seq<DataFrame>, y: seq<DataFrame>, b: seq<DataFrame>)
    requires Distinct(a + x + y + b)
    ensures a + x + y + b == a + y + x + b <==> x == [] || y == []
  {
    var q, r := a + x + y + b, a + y + x + b;
    if x == [] || y == [] {
      assert q == r;
    } else {
      assert q[|a|] == x[0] && r[|a|] == y[0];
      assert q[|a| + |x|] == y[0];
    }
  }

  /**
   * A class that is in the order of acceptance stays in it exactly when the step
   * does not overtake. Packets are told apart by their uid.
   */
  lemma OrderKeptIff(c: Config, s: Dev, a: Action, accepted: seq<DataFrame>, p: Prio)
    requires Enabled(s, a) && Pure(s)
    requires Line(s, p) == accepted && Distinct(accepted)
    ensures Line(Next(c, s, a), p) == accepted + AcceptedBy(a, p) <==> !Overtakes(c, s, a, p)
  {
    if a.Accept? {
      AcceptLine(c, s, a.packet, p);
    } else {
      var e := NextEffect(c, s, a, p);
      SwapVisible(e.before, e.first, e.second, e.after);
      assert accepted + [] == accepted;
    }
  }

  lemma {:induction false} AcceptedPrefix(actions: seq<Action>, i: nat, j: nat, p: Prio)
    requires i <= j <= |actions|
    ensures AcceptedOf(actions, i, p) <= AcceptedOf(actions, j, p)
  {
    if i < j {
      AcceptedPrefix(actions, i, j - 1, p);
    }
  }

  /** Without overtaking steps, each class leaves in the order in which it was accepted. */
  lemma {:induction false} OrderOverRun(c: Config, states: seq<Dev>, actions: seq<Action>, i: nat, p: Prio)
    requires Run(c, states, actions) && states[0] == INITIAL
    requires i < |states|
    requires Distinct(AcceptedOf(actions, |actions|, p))
    requires forall j :: 0 <= j < i ==> !Overtakes(c, states[j], actions[j], p)
    ensures Line(states[i], p) == AcceptedOf(actions, i, p)
    ensures OfClass(states[i].mac.wire, p) <= AcceptedOf(actions, i, p)
  {
    if i > 0 {
      OrderOverRun(c, states, actions, i - 1, p);
      GateAlwaysOk(c, states, actions, i - 1);
      AcceptedPrefix(actions, i - 1, |actions|, p);
      OrderKeptIff(c, states[i - 1], actions[i - 1], AcceptedOf(actions, i - 1, p), p);
    }
  }

  /** The first overtaking step of a run puts the class out of order. */
  lemma FirstOvertakingShows(c: Config, states: seq<Dev>, actions: seq<Action>, i: nat, p: Prio)
    requires Run(c, states, actions) && states[0] == INITIAL
    requires i < |actions|
    requires Distinct(AcceptedOf(actions, |actions|, p))
    requires forall j :: 0 <= j < i ==> !Overtakes(c, states[j], actions[j], p)
    requires Overtakes(c, states[i], actions[i], p)
    ensures Line(states[i + 1], p) != AcceptedOf(actions, i + 1, p)
  {
    OrderOverRun(c, states, actions, i, p);
    GateAlwaysOk(c, states, actions, i);
    AcceptedPrefix(actions, i, |actions|, p);
    OrderKeptIff(c, states[i], actions[i], AcceptedOf(actions, i, p), p);
  }

  // ---------- Overtaking reaches the far end ----------

  /** In a run over distinct packets a frame is in one place only. */
  lemma OnePlace(c: Config, states: seq<Dev>, actions: seq<Action>, i: nat, p: Prio)
    requires Run(c, states, actions) && states[0] == INITIAL && i < |states|
    requires Distinct(AcceptedOf(actions, |actions|, p))
    ensures Distinct(MacPath(states[i].mac, p))
    ensures forall f :: f in states[i].tx.hold[p] ==> f !in MacPath(states[i].mac, p)
  {
    var accepted, path := AcceptedOf(actions, i, p), MacPath(states[i].mac, p);
    AcceptedPrefix(actions, i, |actions|, p);
    NothingLost(c, states, actions, i, p);
    forall x, y | 0 <= x < y < |path|
      ensures path[x] != path[y]
    {
      if path[x] == path[y] {
        CountsTwice(path, x, y);
        DistinctCounts(accepted, path[x]);
      }
    }
    forall f | f in states[i].tx.hold[p]
      ensures f !in path
    {
      DistinctCounts(accepted, f);
    }
  }

  lemma AheadShows(accepted: seq<DataFrame>, early: seq<DataFrame>, late: seq<DataFrame>, wire: seq<DataFrame>, older: nat, newer: nat)
    requires Distinct(accepted) && Distinct(late) && early <= late && wire <= late
    requires older < newer < |accepted| && accepted[newer] in early && accepted[newer] in wire
    requires accepted[older] !in early
    ensures !(wire <= accepted)
  {
    var x :| 0 <= x < |wire| && wire[x] == accepted[newer];
    assert late[x] == wire[x];
    var y :| 0 <= y < |early| && early[y] == accepted[newer];
    assert late[y] == early[y];
    if older < x {
      assert wire[older] == early[older] != accepted[older];
    } else {
      assert wire[x] != accepted[x];
    }
  }

  /**
   * A frame that stands in the transmitter while an older one of its class is on
   * hold arrives out of order: once it is on the wire, and unless the class has been
   * paused again in between, the far end does not see the order of acceptance.
   */
  lemma OvertakenOnWire(c: Config, states: seq<Dev>, actions: seq<Action>, i: nat, j: nat, p: Prio, older: nat, newer: nat)
    requires Run(c, states, actions) && states[0] == INITIAL && i <= j < |states|
    requires Distinct(AcceptedOf(actions, |actions|, p))
    requires older < newer < |AcceptedOf(actions, i, p)|
    requires AcceptedOf(actions, i, p)[older] in states[i].tx.hold[p]
    requires AcceptedOf(actions, i, p)[newer] in MacPath(states[i].mac, p)
    requires forall k :: i <= k < j ==> !Stops(actions[k], p)
    requires AcceptedOf(actions, i, p)[newer] in OfClass(states[j].mac.wire, p)
    ensures !(OfClass(states[j].mac.wire, p) <= AcceptedOf(actions, j, p))
  {
    var accepted, wire := AcceptedOf(actions, j, p), OfClass(states[j].mac.wire, p);
    AcceptedPrefix(actions, i, j, p);
    AcceptedPrefix(actions, j, |actions|, p);
    PathOverRun(c, states, actions, i, j, p);
    OnePlace(c, states, actions, i, p);
    OnePlace(c, states, actions, j, p);
    AheadShows(accepted, MacPath(states[i].mac, p), MacPath(states[j].mac, p), wire, older, newer);
  }

  /**
   * A purge from an empty hold queue, followed by a refill that finds room, only
   * moves the class behind the rest of the MAC queue: the order inside every
   * class and among the control frames is what it was.
   */
  lemma PurgeThenRefill(c: Config, s: Dev, p: Prio, r: Prio)
    requires s.tx.hold[p] == [] && |s.mac.queue| <= c.cap
    ensures var s1 := MoveHeld(c, Purge(s, p), p);
      && s1.tx.hold[p] == []
      && s1.mac.queue == Without(s.mac.queue, p) + OfClass(s.mac.queue, p)
      && OfClass(s1.mac.queue, r) == OfClass(s.mac.queue, r)
      && Controls(s1.mac.queue) == Controls(s.mac.queue)
      && multiset(s1.mac.queue) == multiset(s.mac.queue)
  {
    var q := s.mac.queue;
    SplitCount(q, p);
    assert Purge(s, p).tx.hold[p] == OfClass(q, p);
    assert OfClass(q, p)[..|OfClass(q, p)|] == OfClass(q, p);
    MovedBehind(q, p, r);
  }

  lemma MovedBehind(q: seq<Frame>, p: Prio, r: Prio)
    ensures OfClass(Without(q, p) + OfClass(q, p), r) == OfClass(q, r)
    ensures Controls(Without(q, p) + OfClass(q, p)) == Controls(q)
  {
    var held := OfClass(q, p);
    OfClassConcat(Without(q, p), held, r);
    OfClassWithout(q, p, r);
    OfClassPure(held, p, r);
    KeepConcat(Without(q, p), held, IsControl());
    KeepTwice(q, NotInClass(p), IsControl());
    KeepNone(held, IsControl());
  }
}
