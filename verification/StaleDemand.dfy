/**
 * When a port stays registered with the token manager although nothing of its
 * ingress queues leaves through the egress port any more, and what follows.
 */
module StaleDemand {
  import opened Frames
  import opened EventQueue
  import opened PfcDevice
  import opened DeviceEvents
  import opened DeviceGate
  import T = Tokens
  import TokenLaws
  import TurnLaws

  /** A node as one of its ports sees it: the device of the port and the token manager that all ports share. */
  datatype Node = Node(dev: Dev, mgr: T.Manager)

  /** The device acts, or another port of the node calls the manager. */
  datatype Event = Own(action: Action) | Others(op: TokenLaws.Op)

  // ---------- The drain and the manager together ----------

  /** The egress port of the frame that the next drain looks at. */
  function HeadEgress(s: Dev): Option<nat> {
    match WaitingBelow(s, 8)
    case None => None
    case Some(p) => s.rx.ingressQ[p][0].egress
  }

  /** The manager's verdict for that frame. */
  predicate Allowed(n: Node, port: nat) {
    HeadEgress(n.dev).Some? ==> T.AttemptGranted(n.mgr, HeadEgress(n.dev).value, port, n.dev.sched.now)
  }

  /** The demand is withdrawn when the frame is the last one of its class queue, wherever the other frames go. */
  function AskManager(n: Node, port: nat): T.Manager {
    match WaitingBelow(n.dev, 8)
    case None => n.mgr
    case Some(p) =>
      var q := n.dev.rx.ingressQ[p];
      match q[0].egress
      case None => n.mgr
      case Some(e) => T.Attempt(n.mgr, e, port, n.dev.sched.now, |q| == 1)
  }

  function Drain(c: Config, n: Node, port: nat): Node {
    Node(DrainStep(c, n.dev, Allowed(n, port)), AskManager(n, port))
  }

  predicate Drains(s: Dev, a: Action) {
    a.Fire? && a.id in s.sched.pending && s.sched.pending[a.id].call == DoIngressDrain
  }

  /** A drain takes the manager's verdict; the other ports speak for themselves only. */
  predicate Possible(n: Node, x: Event, port: nat) {
    match x
    case Own(a) => Enabled(n.dev, a) && (Drains(n.dev, a) ==> a.granted == Allowed(n, port))
    case Others(op) => op.ingress != port
  }

  function After(c: Config, n: Node, x: Event, port: nat): Node
    requires Possible(n, x, port)
  {
    match x
    case Own(a) => Node(Next(c, n.dev, a), if Drains(n.dev, a) then AskManager(n, port) else n.mgr)
    case Others(op) => n.(mgr := TokenLaws.Do(n.mgr, op))
  }

  predicate Moves(c: Config, nodes: seq<Node>, events: seq<Event>, port: nat, k: int)
    requires |nodes| == |events| + 1
  {
    0 <= k < |events| ==> Possible(nodes[k], events[k], port) && nodes[k + 1] == After(c, nodes[k], events[k], port)
  }

  ghost predicate NodeRun(c: Config, nodes: seq<Node>, events: seq<Event>, port: nat) {
    |nodes| == |events| + 1 && forall k :: Moves(c, nodes, events, port, k)
  }

  // ---------- When a demand goes stale ----------

  predicate LeavesThrough(s: Dev, p: Prio, i: nat, egress: nat) {
    i < |s.rx.ingressQ[p]| && s.rx.ingressQ[p][i].egress == Some(egress)
  }

  /** Some received frame is still to leave through this port. */
  ghost predicate Waiting(s: Dev, egress: nat) {
    exists p: Prio, i: nat :: LeavesThrough(s, p, i, egress)
  }

  /** Whoever is registered has something to send. */
  ghost predicate Backed(n: Node, port: nat, egress: nat) {
    port in n.mgr.Active(egress) ==> Waiting(n.dev, egress)
  }

  /** The drain sends the only frame for this egress port, and there are others behind it in its class queue. */
  ghost predicate GoesStale(n: Node, port: nat, egress: nat) {
    var p := WaitingBelow(n.dev, 8);
    && p.Some? && LeavesThrough(n.dev, p.value, 0, egress) && |n.dev.rx.ingressQ[p.value]| > 1
    && T.AttemptGranted(n.mgr, egress, port, n.dev.sched.now)
    && forall r: Prio, i: nat :: LeavesThrough(n.dev, r, i, egress) ==> r == p.value && i == 0
  }

  /** Asking for one egress port leaves the arbiters of the others alone; its own registers the port, and withdraws it with a granted last frame. */
  lemma AttemptActive(m: T.Manager, egress: nat, port: nat, now: real, lastOne: bool, e: nat)
    ensures e != egress ==> T.Attempt(m, egress, port, now, lastOne).ArbiterOf(e) == m.ArbiterOf(e)
    ensures port in T.Attempt(m, egress, port, now, lastOne).Active(egress)
            <==> !(lastOne && T.AttemptGranted(m, egress, port, now))
  {
  }

  /** A drain that delivers takes the head off its class queue, and one that does not changes no queue. */
  lemma DrainQueues(c: Config, s: Dev, granted: bool)
    ensures DrainStep(c, s, granted).rx.ingressQ ==
      match WaitingBelow(s, 8)
      case None => s.rx.ingressQ
      case Some(p) =>
        if s.rx.ingressQ[p][0].egress.Some? && !granted then s.rx.ingressQ
        else s.rx.ingressQ[p := s.rx.ingressQ[p][1..]]
  {
  }

  /** The head of a class queue is gone. */
  predicate Taken(s: Dev, s1: Dev, p: Prio) {
    s.rx.ingressQ[p] != [] && s1.rx.ingressQ == s.rx.ingressQ[p := s.rx.ingressQ[p][1..]]
  }

  /** Something waits afterwards exactly if something other than the head waited before. */
  lemma TakenWaiting(s: Dev, s1: Dev, p: Prio, egress: nat)
    requires Taken(s, s1, p)
    ensures Waiting(s1, egress) <==> exists r: Prio, i: nat :: LeavesThrough(s, r, i, egress) && !(r == p && i == 0)
  {
    forall r: Prio, i: nat
      ensures LeavesThrough(s1, r, i, egress) <==> LeavesThrough(s, r, if r == p then i + 1 else i, egress)
    {
    }
    if r: Prio, i: nat :| LeavesThrough(s1, r, i, egress) {
      var k := if r == p then i + 1 else i;
      assert LeavesThrough(s, r, k, egress) && !(r == p && k == 0);
    }
    if r: Prio, i: nat :| LeavesThrough(s, r, i, egress) && !(r == p && i == 0) {
      var k: nat := if r == p then i - 1 else i;
      assert LeavesThrough(s1, r, k, egress);
    }
  }

  /** From a state in which the demand is backed, a drain leaves it so unless it goes stale. */
  lemma DrainBackedIff(c: Config, n: Node, port: nat, egress: nat)
    requires Backed(n, port, egress)
    ensures Backed(Drain(c, n, port), port, egress) <==> !GoesStale(n, port, egress)
  {
    DrainQueues(c, n.dev, Allowed(n, port));
    var n1 := Drain(c, n, port);
    match WaitingBelow(n.dev, 8) {
      case None =>
      case Some(p) =>
        var q := n.dev.rx.ingressQ[p];
        match q[0].egress {
          case None =>
            TakenWaiting(n.dev, n1.dev, p, egress);
            assert !LeavesThrough(n.dev, p, 0, egress);
          case Some(e) =>
            AttemptActive(n.mgr, e, port, n.dev.sched.now, |q| == 1, egress);
            if Allowed(n, port) {
              TakenWaiting(n.dev, n1.dev, p, egress);
            } else {
              SameQueues(n.dev, n1.dev, egress);
            }
            assert LeavesThrough(n.dev, p, 0, egress) <==> e == egress;
        }
    }
  }

  lemma SameQueues(s: Dev, s1: Dev, egress: nat)
    requires s1.rx.ingressQ == s.rx.ingressQ
    ensures Waiting(s1, egress) <==> Waiting(s, egress)
  {
    forall r: Prio, i: nat
      ensures LeavesThrough(s1, r, i, egress) <==> LeavesThrough(s, r, i, egress)
    {
    }
  }

  // ---------- Steps and runs ----------

  /** A frame arrives that leaves through this port. */
  predicate ArrivesFor(x: Event, egress: nat) {
    x.Own? && x.action.Receive? && x.action.frame.Data? && x.action.frame.egress == Some(egress)
  }

  ghost predicate StaleStep(n: Node, x: Event, port: nat, egress: nat) {
    x.Own? && Drains(n.dev, x.action) && GoesStale(n, port, egress)
  }

  /** Every action but a drain leaves the ingress queues alone or adds an arrival to one. */
  lemma OtherActions(c: Config, s: Dev, a: Action)
    requires Enabled(s, a) && !Drains(s, a)
    ensures Next(c, s, a).rx.ingressQ ==
      if a.Receive? && a.frame.Data? then s.rx.ingressQ[a.frame.prio := s.rx.ingressQ[a.frame.prio] + [a.frame]]
      else s.rx.ingressQ
  {
    match a
    case Tick(_) =>
    case Accept(_) =>
    case TransmitComplete =>
    case Receive(f) =>
      if f.Control? {
        ApplyBelowLeaves(c, s, f, 8);
      }
    case Fire(id, granted) =>
      var s0 := s.(sched := s.sched.Cancel(id));
      match s.sched.pending[id].call {
        case TryDequeue => assert TryDequeueStep(c, s0).rx == s.rx;
        case ResumeFromPause(r) => assert Resume(c, s0, r).rx == s.rx;
        case RefillMacQueueFromHold(r) => assert Refill(c, s0, r).rx == s.rx;
        case DoIngressDrain => assert false;
      }
  }

  lemma ArrivalWaiting(s: Dev, s1: Dev, f: DataFrame, egress: nat)
    requires s1.rx.ingressQ == s.rx.ingressQ[f.prio := s.rx.ingressQ[f.prio] + [f]]
    ensures Waiting(s1, egress) <==> Waiting(s, egress) || f.egress == Some(egress)
  {
    var n := |s.rx.ingressQ[f.prio]|;
    forall r: Prio, i: nat
      ensures LeavesThrough(s1, r, i, egress)
              <==> LeavesThrough(s, r, i, egress) || (r == f.prio && i == n && f.egress == Some(egress))
    {
    }
    if f.egress == Some(egress) {
      assert LeavesThrough(s1, f.prio, n, egress);
    }
    if r: Prio, i: nat :| LeavesThrough(s, r, i, egress) {
      assert LeavesThrough(s1, r, i, egress);
    }
  }

  /** Canceling the event that fires changes nothing that the drain looks at. */
  lemma SameDrain(c: Config, n: Node, a: Action, port: nat, egress: nat)
    requires Possible(n, Own(a), port) && Drains(n.dev, a)
    ensures var n0 := n.(dev := n.dev.(sched := n.dev.sched.Cancel(a.id)));
      && After(c, n, Own(a), port) == Drain(c, n0, port)
      && (Backed(n, port, egress) <==> Backed(n0, port, egress))
      && (GoesStale(n, port, egress) <==> GoesStale(n0, port, egress))
  {
    var n0 := n.(dev := n.dev.(sched := n.dev.sched.Cancel(a.id)));
    WaitingSame(n.dev, n0.dev, 8);
    SameQueues(n.dev, n0.dev, egress);
    forall r: Prio, i: nat
      ensures LeavesThrough(n0.dev, r, i, egress) <==> LeavesThrough(n.dev, r, i, egress)
    {
    }
  }

  /** What the other ports do to the manager neither registers nor withdraws this one. */
  lemma OthersKeep(m: T.Manager, op: TokenLaws.Op, port: nat, egress: nat)
    requires op.ingress != port
    ensures port in TokenLaws.Do(m, op).Active(egress) <==> port in m.Active(egress)
  {
  }

  /** A backed demand stays backed by a step exactly if the step does not leave it stale. */
  lemma StaysBackedIff(c: Config, n: Node, x: Event, port: nat, egress: nat)
    requires Possible(n, x, port) && Backed(n, port, egress)
    ensures Backed(After(c, n, x, port), port, egress) <==> !StaleStep(n, x, port, egress)
  {
    match x
    case Others(op) => OthersKeep(n.mgr, op, port, egress);
    case Own(a) =>
      if Drains(n.dev, a) {
        SameDrain(c, n, a, port, egress);
        DrainBackedIff(c, n.(dev := n.dev.(sched := n.dev.sched.Cancel(a.id))), port, egress);
      } else {
        OwnWaiting(c, n.dev, a, egress);
      }
  }

  lemma OwnWaiting(c: Config, s: Dev, a: Action, egress: nat)
    requires Enabled(s, a) && !Drains(s, a)
    ensures Waiting(Next(c, s, a), egress) <==> Waiting(s, egress) || ArrivesFor(Own(a), egress)
  {
    OtherActions(c, s, a);
    if a.Receive? && a.frame.Data? {
      ArrivalWaiting(s, Next(c, s, a), a.frame, egress);
    } else {
      SameQueues(s, Next(c, s, a), egress);
    }
  }

  /** And a stale one stays stale exactly until a frame for the egress port arrives. */
  lemma StaysStaleIff(c: Config, n: Node, x: Event, port: nat, egress: nat)
    requires Possible(n, x, port) && !Backed(n, port, egress)
    ensures !Backed(After(c, n, x, port), port, egress) <==> !ArrivesFor(x, egress)
    ensures After(c, n, x, port).mgr.Active(egress) == n.mgr.Active(egress) || x.Others?
    ensures x.Own? ==> After(c, n, x, port).mgr.ArbiterOf(egress) == n.mgr.ArbiterOf(egress)
  {
    match x
    case Others(op) => OthersKeep(n.mgr, op, port, egress);
    case Own(a) =>
      if Drains(n.dev, a) {
        SameDrain(c, n, a, port, egress);
        DrainStale(c, n.(dev := n.dev.(sched := n.dev.sched.Cancel(a.id))), port, egress);
      } else {
        OwnWaiting(c, n.dev, a, egress);
      }
  }

  lemma DrainStale(c: Config, n: Node, port: nat, egress: nat)
    requires !Waiting(n.dev, egress)
    ensures !Waiting(Drain(c, n, port).dev, egress)
    ensures Drain(c, n, port).mgr.ArbiterOf(egress) == n.mgr.ArbiterOf(egress)
  {
    DrainQueues(c, n.dev, Allowed(n, port));
    var n1 := Drain(c, n, port);
    if n1.dev.rx.ingressQ == n.dev.rx.ingressQ {
      SameQueues(n.dev, n1.dev, egress);
    } else {
      TakenWaiting(n.dev, n1.dev, WaitingBelow(n.dev, 8).value, egress);
    }
    match WaitingBelow(n.dev, 8) {
      case None =>
      case Some(p) =>
        var q := n.dev.rx.ingressQ[p];
        assert !LeavesThrough(n.dev, p, 0, egress);
        if q[0].egress.Some? {
          AttemptActive(n.mgr, q[0].egress.value, port, n.dev.sched.now, |q| == 1, egress);
        }
    }
  }

  /**
   * Over a run that starts backed, a port is registered without a frame exactly if
   * some drain left its demand stale and no frame for the egress port has arrived since.
   */
  lemma {:induction false} StaleIff(c: Config, nodes: seq<Node>, events: seq<Event>, i: nat, port: nat, egress: nat)
    requires NodeRun(c, nodes, events, port) && i < |nodes| && Backed(nodes[0], port, egress)
    ensures !Backed(nodes[i], port, egress)
            <==> exists k :: 0 <= k < i && StaleStep(nodes[k], events[k], port, egress)
                             && forall l :: k < l < i ==> !ArrivesFor(events[l], egress)
  {
    if i > 0 {
      StaleIff(c, nodes, events, i - 1, port, egress);
      assert Moves(c, nodes, events, port, i - 1);
      var n, x := nodes[i - 1], events[i - 1];
      if Backed(n, port, egress) {
        StaysBackedIff(c, n, x, port, egress);
      } else {
        StaysStaleIff(c, n, x, port, egress);
      }
    }
  }

  // ---------- What a stale demand does to the other ports ----------

  /** Ports register before they ask. */
  predicate OthersRegistered(nodes: seq<Node>, events: seq<Event>, egress: nat)
    requires |nodes| == |events| + 1
  {
    forall k :: 0 <= k < |events| && events[k].Others? && events[k].op.Ask? && events[k].op.egress == egress ==>
      events[k].op.ingress in nodes[k].mgr.Active(egress)
  }

  predicate GrantTo(n: Node, x: Event, egress: nat, y: nat) {
    x.Others? && TokenLaws.GrantsTo(n.mgr, x.op, egress, y)
  }

  /** From state `i` to state `j` no frame for the egress port arrives. */
  predicate NoArrival(events: seq<Event>, i: nat, j: nat, egress: nat)
    requires i <= j <= |events|
  {
    forall k :: i <= k < j ==> !ArrivesFor(events[k], egress)
  }

  lemma {:induction false} StaleLasts(c: Config, nodes: seq<Node>, events: seq<Event>, i: nat, j: nat, port: nat, egress: nat)
    requires NodeRun(c, nodes, events, port) && i <= j <= |events| && NoArrival(events, i, j, egress)
    requires !Backed(nodes[i], port, egress) && egress in nodes[i].mgr.buckets
    ensures !Backed(nodes[j], port, egress) && egress in nodes[j].mgr.buckets
  {
    if i < j {
      StaleLasts(c, nodes, events, i, j - 1, port, egress);
      assert Moves(c, nodes, events, port, j - 1);
      StaysStaleIff(c, nodes[j - 1], events[j - 1], port, egress);
      BucketKept(c, nodes[j - 1], events[j - 1], port, egress);
    }
  }

  lemma BucketKept(c: Config, n: Node, x: Event, port: nat, egress: nat)
    requires Possible(n, x, port) && egress in n.mgr.buckets
    ensures egress in After(c, n, x, port).mgr.buckets
  {
  }

  lemma StepBehind(c: Config, n: Node, x: Event, port: nat, egress: nat, y: nat)
    requires Possible(n, x, port) && !Backed(n, port, egress) && egress in n.mgr.buckets && y != port
    requires x.Others? && x.op.Ask? && x.op.egress == egress ==> x.op.ingress in n.mgr.Active(egress)
    requires TurnLaws.MetBefore(n.mgr.ArbiterOf(egress).lastServed, port, y)
    ensures TurnLaws.MetBefore(After(c, n, x, port).mgr.ArbiterOf(egress).lastServed, port, y) && !GrantTo(n, x, egress, y)
  {
    StaysStaleIff(c, n, x, port, egress);
    if x.Others? {
      TurnLaws.OrderStays(n.mgr, x.op, egress, port, y);
    }
  }

  /** Once the silent port is met before `y`, it stays so. */
  lemma {:induction false} KeptBehind(c: Config, nodes: seq<Node>, events: seq<Event>, i: nat, j: nat, port: nat, egress: nat, y: nat)
    requires NodeRun(c, nodes, events, port) && i <= j <= |events| && NoArrival(events, i, j, egress)
    requires OthersRegistered(nodes, events, egress)
    requires !Backed(nodes[i], port, egress) && egress in nodes[i].mgr.buckets && y != port
    requires TurnLaws.MetBefore(nodes[i].mgr.ArbiterOf(egress).lastServed, port, y)
    ensures TurnLaws.MetBefore(nodes[j].mgr.ArbiterOf(egress).lastServed, port, y)
    ensures forall k :: i <= k < j ==> !GrantTo(nodes[k], events[k], egress, y)
  {
    if i < j {
      KeptBehind(c, nodes, events, i, j - 1, port, egress, y);
      StaleLasts(c, nodes, events, i, j - 1, port, egress);
      assert Moves(c, nodes, events, port, j - 1);
      StepBehind(c, nodes[j - 1], events[j - 1], port, egress, y);
    }
  }

  /**
   * While a demand is stale, each other port gets at most one more token of the
   * egress port, however many tokens there are and whoever else comes and goes.
   */
  lemma StaleBlocks(c: Config, nodes: seq<Node>, events: seq<Event>, i: nat, j: nat, port: nat, egress: nat, y: nat, g: nat, h: nat)
    requires NodeRun(c, nodes, events, port) && i <= j <= |events| && NoArrival(events, i, j, egress)
    requires OthersRegistered(nodes, events, egress)
    requires !Backed(nodes[i], port, egress) && egress in nodes[i].mgr.buckets && y != port
    requires i <= g < h < j && GrantTo(nodes[g], events[g], egress, y)
    ensures !GrantTo(nodes[h], events[h], egress, y)
  {
    StaleLasts(c, nodes, events, i, g, port, egress);
    StaleLasts(c, nodes, events, i, g + 1, port, egress);
    assert Moves(c, nodes, events, port, g);
    TurnLaws.GrantMovesOn(nodes[g].mgr, events[g].op, egress, port, y);
    KeptBehind(c, nodes, events, g + 1, j, port, egress, y);
  }

  // ---------- A device that leaves a stale demand ----------

  /**
   * A port with two frames in one class queue, the first for `egress` and the second
   * for `other`: both are granted and delivered, the first drain is the one that goes
   * stale, and afterwards the queues are empty while the port is registered
   * for `egress`. A competitor asks once and is refused ever after.
   */
  lemma StaleDevice(c: Config, s: Dev, m: T.Manager, p: Prio, f: DataFrame, g: DataFrame, egress: nat, other: nat, x: nat, y: nat)
    requires s.rx.ingressQ == NO_FRAMES[p := [f, g]] && f.egress == Some(egress) && g.egress == Some(other)
    requires egress != other && x != y && egress in m.buckets && other in m.buckets
    requires T.Affords(m.buckets[egress], s.sched.now, 2) && T.Affords(m.buckets[other], s.sched.now, 1)
    requires m.Active(egress) == {} && m.Active(other) == {}
    ensures var n := Node(s, m);
      var n1 := Drain(c, n, x);
      var n2 := Drain(c, n1, x);
      && Allowed(n, x) && Allowed(n1, x) && GoesStale(n, x, egress)
      && n2.dev.rx.ingressQ == NO_FRAMES && n2.mgr.Active(egress) == {x} && !Backed(n2, x, egress)
      && n2.dev.rx.delivered == s.rx.delivered + [f, g]
      && forall later :: !T.AttemptGranted(T.Attempt(n2.mgr, egress, y, s.sched.now, false), egress, y, later)
  {
    var n := Node(s, m);
    TurnLaws.StaleDemand(m, egress, other, x, y, s.sched.now);
    DrainOne(c, n, p, [f, g], egress, x);
    var n1 := Drain(c, n, x);
    assert [f, g][1..] == [g] && [g][1..] == [];
    DrainOne(c, n1, p, [g], other, x);
    var n2 := Drain(c, n1, x);
    assert n2.dev.rx.ingressQ == NO_FRAMES;
    assert (s.rx.delivered + [f]) + [g] == s.rx.delivered + [f, g];
    NoneWaits(n2.dev, egress);
    OnlyHead(n.dev, p, f, g, egress);
  }

  lemma NoneWaits(s: Dev, egress: nat)
    requires s.rx.ingressQ == NO_FRAMES
    ensures !Waiting(s, egress)
  {
    assert forall r: Prio, i: nat :: !LeavesThrough(s, r, i, egress);
  }

  lemma OnlyHead(s: Dev, p: Prio, f: DataFrame, g: DataFrame, egress: nat)
    requires s.rx.ingressQ == NO_FRAMES[p := [f, g]] && g.egress != Some(egress)
    ensures forall r: Prio, i: nat :: LeavesThrough(s, r, i, egress) ==> r == p && i == 0
    ensures LeavesThrough(s, p, 0, egress) <==> f.egress == Some(egress)
    ensures WaitingBelow(s, 8) == Some(p)
  {
    OnlyClass(s, p, 8);
    forall r: Prio, i: nat | LeavesThrough(s, r, i, egress)
      ensures r == p && i == 0
    {
      assert s.rx.ingressQ[r] == if r == p then [f, g] else [];
    }
  }

  /** A drain of the only class with frames, whose head the manager grants. */
  lemma DrainOne(c: Config, n: Node, p: Prio, q: seq<DataFrame>, egress: nat, x: nat)
    requires q != [] && n.dev.rx.ingressQ == NO_FRAMES[p := q] && q[0].egress == Some(egress)
    requires T.AttemptGranted(n.mgr, egress, x, n.dev.sched.now)
    ensures Allowed(n, x)
    ensures var n1 := Drain(c, n, x);
      && n1.mgr == T.Attempt(n.mgr, egress, x, n.dev.sched.now, |q| == 1)
      && n1.dev.rx.ingressQ == NO_FRAMES[p := q[1..]] && n1.dev.rx.delivered == n.dev.rx.delivered + [q[0]]
      && n1.dev.sched.now == n.dev.sched.now
  {
    OnlyClass(n.dev, p, 8);
  }

  lemma {:induction false} OnlyClass(s: Dev, p: Prio, k: nat)
    requires k <= 8 && s.rx.ingressQ[p] != [] && forall r: Prio :: r != p ==> s.rx.ingressQ[r] == []
    ensures WaitingBelow(s, k) == if p < k then Some(p) else None
  {
    if k > 0 {
      OnlyClass(s, p, k - 1);
    }
  }
}
