/**
 * The device itself: fields that its methods update in place, each method proved
 * to do what the state machine of PfcDevice says.
 */
module QbbDevice {
  import opened Frames
  import opened EventQueue
  import opened D = PfcDevice
  import opened TokenManager
  import DeviceGate
  import S = StaleDemand
  import T = Tokens
  import TokenLaws

  /** The part of a node that its devices share: the token manager, and the link rates of its ports. */
  class Node {
    var tokenMgr: EgressTokenManager?
    /** The bit rate of each port, None for a port that is no QbbNetDevice. */
    const rates: seq<Option<nat>>

    constructor (rates: seq<Option<nat>>)
      ensures this.rates == rates && tokenMgr == null
    {
      this.rates := rates;
      tokenMgr := null;
    }
  }

  /** Register the first `k` ports with a token manager. */
  function RegisterPorts(m: T.Manager, rates: seq<Option<nat>>, avgPktSize: nat, now: real, k: nat): T.Manager
    requires k <= |rates|
  {
    if k == 0 then m
    else
      var before := RegisterPorts(m, rates, avgPktSize, now, k - 1);
      if rates[k - 1].None? then before
      else T.RegisterEgressPort(before, k - 1, rates[k - 1].value, avgPktSize, now)
  }

  /** Every PFC port among them has a bucket afterwards, a full one of its own rate unless it had one; nothing else changes. */
  lemma {:induction false} PortsRegistered(m: T.Manager, rates: seq<Option<nat>>, avgPktSize: nat, now: real, k: nat, port: nat)
    requires k <= |rates|
    ensures var m1 := RegisterPorts(m, rates, avgPktSize, now, k);
      && m1.arbiters == m.arbiters
      && (port in m1.buckets <==> port in m.buckets || (port < k && rates[port].Some?))
      && (port in m.buckets ==> m1.buckets[port] == m.buckets[port])
      && (port in m1.buckets && port !in m.buckets ==> TokenLaws.FullBucket(m1.buckets[port], rates[port].value, avgPktSize, now))
  {
    if k > 0 {
      PortsRegistered(m, rates, avgPktSize, now, k - 1, port);
      if rates[k - 1].Some? {
        var before := RegisterPorts(m, rates, avgPktSize, now, k - 1);
        TokenLaws.NewPort(before, k - 1, rates[k - 1].value, avgPktSize, now);
      }
    }
  }

  /** One more frame of a queue goes to its class or to the rest. */
  lemma SplitNext(q: seq<Frame>, n: nat, p: Prio)
    requires n < |q|
    ensures OfClass(q[..n + 1], p) == if IsClass(q[n], p) then OfClass(q[..n], p) + [q[n]] else OfClass(q[..n], p)
    ensures Without(q[..n + 1], p) == if IsClass(q[n], p) then Without(q[..n], p) else Without(q[..n], p) + [q[n]]
  {
    assert q[..n + 1] == q[..n] + [q[n]];
    OfClassSnoc(q[..n], q[n], p);
    KeepConcat(q[..n], [q[n]], NotInClass(p));
    assert Keep([q[n]], NotInClass(p)) == if IsClass(q[n], p) then Keep([], NotInClass(p)) else [q[n]] + Keep([], NotInClass(p));
  }

  lemma SetTwice(h: Queues, p: Prio, a: seq<DataFrame>, b: seq<DataFrame>)
    ensures h[p := a][p := b] == h[p := b] && h[p := a][p] == a
  {
  }

  class QbbNetDevice {
    const config: Config
    const sim: Simulator
    const node: Node
    const ifIndex: nat
    const avgPktSize: nat

    // the point-to-point transmitter
    var queue: seq<Frame>
    var busy: bool
    ghost var wire: seq<Frame>
    ghost var refused: seq<Frame>

    // sending
    var txq: Queues
    var hold: Queues
    var paused: Flags
    var until: Times
    var txEvent: EventId
    var refill: Handles
    var rxXoff: Counts
    var rxXon: Counts

    // receiving
    var ingressQ: Queues
    var occ: Counts
    var congested: Flags
    var drainEvent: EventId
    var txXoff: Counts
    var txXon: Counts
    ghost var delivered: seq<DataFrame>
    var tokenMgr: EgressTokenManager?

    ghost function Abs(): Dev
      reads this, sim
    {
      Dev(sim.Abs(),
          Mac(queue, busy, wire, refused),
          Tx(txq, hold, paused, until, txEvent, refill, rxXoff, rxXon),
          Rx(ingressQ, occ, congested, drainEvent, txXoff, txXon, delivered))
    }

    /** The MAC queue keeps to its limit. */
    ghost predicate Valid()
      reads this
    {
      |queue| <= config.cap
    }

    /** Once a data frame has come in, the device has its node's token manager. */
    ghost predicate HasManager()
      reads this, node, if tokenMgr == null then {} else {tokenMgr}
    {
      && (tokenMgr != null ==> node.tokenMgr == tokenMgr && tokenMgr.Valid())
      && (tokenMgr == null ==> ingressQ == NO_FRAMES)
    }

    constructor (config: Config, sim: Simulator, node: Node, ifIndex: nat, avgPktSize: nat)
      ensures Valid() && HasManager()
      ensures this.config == config && this.sim == sim && this.node == node && this.ifIndex == ifIndex
      ensures Abs() == INITIAL.(sched := sim.Abs())
    {
      this.config, this.sim, this.node, this.ifIndex, this.avgPktSize := config, sim, node, ifIndex, avgPktSize;
      queue, busy, wire, refused := [], false, [], [];
      txq, hold, paused, until := NO_FRAMES, NO_FRAMES, ALL_CLEAR, ZERO_TIMES;
      txEvent, refill, rxXoff, rxXon := 0, NO_HANDLES, ZERO_COUNTS, ZERO_COUNTS;
      ingressQ, occ, congested, drainEvent := NO_FRAMES, ZERO_COUNTS, ALL_CLEAR, 0;
      txXoff, txXon, delivered, tokenMgr := ZERO_COUNTS, ZERO_COUNTS, [], null;
    }

    // ---------- The drop-tail queue and the transmitter ----------

    method Enqueue(f: Frame) returns (ok: bool)
      requires Valid()
      modifies this`queue
      ensures Valid()
      ensures ok == (|old(queue)| < config.cap)
      ensures queue == if ok then old(queue) + [f] else old(queue)
    {
      ok := |queue| < config.cap;
      if ok {
        queue := queue + [f];
      }
    }

    method TransmitHeadFrame()
      requires Valid()
      modifies this`queue, this`busy, this`wire
      ensures Valid()
      ensures Abs() == old(Abs()).(mac := TransmitHead(old(Abs()).mac))
    {
      if |queue| == 0 {
        busy := false;
        return;
      }
      wire := wire + [queue[0]];
      queue := queue[1..];
      busy := true;
    }

    /** PointToPointNetDevice::Send. */
    method SendToMac(f: Frame) returns (ok: bool)
      requires Valid()
      modifies this`queue, this`busy, this`wire, this`refused
      ensures Valid()
      ensures ok == HasRoom(config, old(Abs()).mac)
      ensures Abs() == old(Abs()).(mac := MacSend(config, old(Abs()).mac, f))
    {
      ok := Enqueue(f);
      if !ok {
        refused := refused + [f];
        return;
      }
      if !busy {
        TransmitHeadFrame();
      }
    }

    /** PointToPointNetDevice::TransmitComplete, run when the frame being sent is out. */
    method TransmitComplete()
      requires Valid() && busy
      modifies this
      ensures Valid()
      ensures Abs() == D.Next(config, old(Abs()), D.TransmitComplete)
      ensures ingressQ == old(ingressQ) && tokenMgr == old(tokenMgr)
    {
      busy := false;
      TransmitHeadFrame();
    }

    // ---------- Sending ----------

    method ArmTransmit()
      requires Valid()
      modifies this`txEvent, sim
      ensures Valid() && Abs() == ArmTx(old(Abs()))
    {
      var expired := sim.IsExpired(txEvent);
      if expired {
        txEvent := sim.Schedule(0.0, Call.TryDequeue);
      }
    }

    method Send(p: DataFrame) returns (ok: bool)
      requires Valid()
      modifies this`txq, this`txEvent, sim
      ensures Valid() && ok
      ensures Abs() == AppSend(old(Abs()), p)
    {
      txq := txq[p.prio := txq[p.prio] + [p]];
      ArmTransmit();
      ok := true;
    }

    method PickNext() returns (pr: int)
      ensures -1 <= pr < 8
      ensures PickNextPrio(Abs()) == if pr == -1 then None else Some(pr)
    {
      pr := 7;
      while pr >= 0
        invariant -1 <= pr < 8
        invariant PickNextPrio(Abs()) == PickBelow(Abs(), pr + 1)
      {
        if txq[pr] != [] && !(paused[pr] && sim.now < until[pr]) {
          return;
        }
        pr := pr - 1;
      }
    }

    method TryDequeue()
      requires Valid()
      modifies this`queue, this`busy, this`wire, this`refused, this`txq, this`txEvent, sim
      ensures Valid()
      ensures Abs() == TryDequeueStep(config, old(Abs()))
    {
      var pr := PickNext();
      if pr < 0 {
        return;
      }
      var item := txq[pr][0];
      if paused[pr] && sim.now < until[pr] {
        // PickNext has skipped gated classes: the source's second test never succeeds.
        assert false;
      }
      var sent := SendToMac(item);
      if !sent {
        txEvent := sim.Schedule(RETRY_SEND, Call.TryDequeue);
        return;
      }
      txq := txq[pr := txq[pr][1..]];
      txEvent := sim.Schedule(0.0, Call.TryDequeue);
    }

    // ---------- Pausing ----------

    /** Take the whole MAC queue apart, set one class aside, and put the rest back: the rest always fits. */
    method PurgeMacQueueForPrio(prio: Prio)
      requires Valid()
      modifies this`queue, this`hold
      ensures Valid()
      ensures Abs() == Purge(old(Abs()), prio)
    {
      ghost var s0 := Abs();
      ghost var all, h := queue, hold;
      ghost var n := 0;
      var keep: seq<Frame> := [];
      assert h[prio] + OfClass(all[..n], prio) == h[prio];
      assert hold == h[prio := h[prio] + OfClass(all[..n], prio)];
      while |queue| > 0
        invariant n <= |all| && queue == all[n..]
        invariant keep == Without(all[..n], prio)
        invariant hold == h[prio := h[prio] + OfClass(all[..n], prio)]
        decreases |queue|
      {
        var pkt := queue[0];
        queue := queue[1..];
        SplitNext(all, n, prio);
        if pkt.Control? {
          keep := keep + [pkt];
        } else if pkt.prio == prio {
          SetTwice(h, prio, h[prio] + OfClass(all[..n], prio), h[prio] + OfClass(all[..n + 1], prio));
          assert hold[prio] + [pkt] == h[prio] + OfClass(all[..n + 1], prio);
          hold := hold[prio := hold[prio] + [pkt]];
        } else {
          keep := keep + [pkt];
        }
        n := n + 1;
      }
      assert all[..n] == all;
      PutBack(keep);
      assert Abs() == s0.(mac := s0.mac.(queue := keep), tx := s0.tx.(hold := hold));
    }

    /** The second loop of PurgeMacQueueForPrio: what was kept goes back in order, and none of it is refused. */
    method PutBack(keep: seq<Frame>)
      requires Valid() && queue == [] && |keep| <= config.cap
      modifies this`queue
      ensures Valid() && queue == keep
    {
      for i := 0 to |keep|
        invariant queue == keep[..i]
      {
        var ok := Enqueue(keep[i]);
        assert ok;
      }
      assert keep[..|keep|] == keep;
    }

    /** The loop of RefillMacQueueFromHold: held frames go back in order until the MAC queue is full. */
    method MoveHeldFrames(prio: Prio)
      requires Valid()
      modifies this`queue, this`hold
      ensures Valid()
      ensures Abs() == MoveHeld(config, old(Abs()), prio)
    {
      ghost var h: seq<DataFrame> := hold[prio];
      ghost var q := queue;
      ghost var k := 0;
      assert hold[prio := h[k..]] == hold;
      while hold[prio] != []
        invariant k <= |h| && |queue| <= config.cap
        invariant hold == old(hold)[prio := h[k..]]
        invariant queue == q + h[..k]
        decreases |hold[prio]|
      {
        var ok := Enqueue(hold[prio][0]);
        if !ok {
          break;
        }
        hold := hold[prio := hold[prio][1..]];
        assert h[..k + 1] == h[..k] + [h[k]];
        k := k + 1;
      }
      assert k == Movable(config, old(Abs()), prio);
    }

    method RefillMacQueueFromHold(prio: Prio)
      requires Valid()
      modifies this`paused, this`queue, this`hold, this`refill, this`txEvent, sim
      ensures Valid()
      ensures Abs() == Refill(config, old(Abs()), prio)
    {
      if paused[prio] && sim.now < until[prio] {
        return;
      }
      if paused[prio] && sim.now >= until[prio] {
        paused := paused[prio := false];
      }
      assert paused == old(paused)[prio := false];
      MoveHeldFrames(prio);
      if hold[prio] != [] {
        var id := sim.Schedule(RETRY_REFILL, Call.RefillMacQueueFromHold(prio));
        refill := refill[prio := id];
      } else {
        ArmTransmit();
      }
    }

    method ResumeFromPause(prio: Prio)
      requires Valid()
      modifies this`paused, this`queue, this`hold, this`refill, this`txEvent, sim
      ensures Valid()
      ensures Abs() == Resume(config, old(Abs()), prio)
    {
      if sim.now < until[prio] {
        return;
      }
      paused := paused[prio := false];
      RefillMacQueueFromHold(prio);
    }

    method CancelRefill(prio: Prio)
      requires Valid()
      modifies sim
      ensures Valid()
      ensures Abs() == old(Abs()).(sched := old(Abs()).sched.Cancel(refill[prio]))
    {
      var expired := sim.IsExpired(refill[prio]);
      if !expired {
        sim.Cancel(refill[prio]);
      } else {
        assert sim.pending - {refill[prio]} == sim.pending;
      }
    }

    method HandleXon(prio: Prio)
      requires Valid()
      modifies this`rxXon, this`paused, this`until, this`queue, this`hold, this`refill, this`txEvent, sim
      ensures Valid()
      ensures Abs() == Xon(config, old(Abs()), prio)
    {
      ghost var s0 := Abs();
      rxXon := rxXon[prio := rxXon[prio] + 1];
      paused := paused[prio := false];
      var now := sim.now;
      until := until[prio := now];
      ghost var s1 := Abs();
      assert s1 == s0.(tx := s0.tx.(rxXon := rxXon, paused := paused, until := until));
      CancelRefill(prio);
      ghost var s2 := Abs();
      assert s2 == s1.(sched := s1.sched.Cancel(s0.tx.refill[prio]));
      RefillMacQueueFromHold(prio);
      assert Abs() == Refill(config, s2, prio);
    }

    /** Seconds per bit: the rate times it is one, and without a rate it is a nanosecond. */
    method GetBitTime() returns (bt: real)
      ensures bt == BitTime(config)
      ensures if config.bitRate > 0 then bt * config.bitRate as real == 1.0 else bt == 0.000000001
    {
      bt := 0.000000001;
      if config.bitRate > 0 {
        bt := 1.0 / config.bitRate as real;
      }
      DeviceGate.BitTimes(config);
    }

    /** The first half of the pause branch: count, stop the class, and note the end of its pause. */
    method Stop(prio: Prio, q: nat)
      requires Valid()
      modifies this`rxXoff, this`paused, this`until
      ensures Valid()
      ensures Abs() == Stopped(config, old(Abs()), prio, q)
    {
      rxXoff := rxXoff[prio := rxXoff[prio] + 1];
      var bt := GetBitTime();
      paused := paused[prio := true];
      until := until[prio := sim.now + q as real * 512.0 * bt];
    }

    method HandleXoff(prio: Prio, q: nat)
      requires Valid()
      modifies this`rxXoff, this`paused, this`until, this`queue, this`hold, this`refill, sim
      ensures Valid()
      ensures Abs() == Xoff(config, old(Abs()), prio, q)
    {
      Stop(prio, q);
      PurgeMacQueueForPrio(prio);
      ReplaceRefill(prio);
    }

    /** Cancel what is in the refill slot of a class and put the end of its pause there. */
    method ReplaceRefill(prio: Prio)
      requires Valid()
      modifies this`refill, sim
      ensures Valid()
      ensures var s := old(Abs());
        var sched := s.sched.Cancel(s.tx.refill[prio]);
        Abs() == s.(tx := s.tx.(refill := s.tx.refill[prio := sched.next]),
                    sched := sched.Schedule(s.tx.until[prio] - sched.now, Call.ResumeFromPause(prio)))
    {
      CancelRefill(prio);
      var id := sim.Schedule(until[prio] - sim.now, Call.ResumeFromPause(prio));
      refill := refill[prio := id];
    }

    method HandlePfcClass(f: Frame, prio: Prio)
      requires Valid() && f.Control?
      modifies this`rxXon, this`rxXoff, this`paused, this`until, this`queue, this`hold, this`refill, this`txEvent, sim
      ensures Valid()
      ensures Abs() == ApplyClass(config, old(Abs()), f, prio)
    {
      if prio !in f.enabled {
        return;
      }
      var q := f.quanta[prio];
      if q == 0 {
        HandleXon(prio);
      } else {
        HandleXoff(prio, q);
      }
    }

    method HandlePfcFrame(f: Frame)
      requires Valid() && f.Control?
      modifies this`rxXon, this`rxXoff, this`paused, this`until, this`queue, this`hold, this`refill, this`txEvent, sim
      ensures Valid()
      ensures Abs() == ReceiveControl(config, old(Abs()), f)
    {
      if f.enabled == {} {
        return;
      }
      for pr := 0 to 8
        invariant Valid()
        invariant Abs() == ApplyBelow(config, old(Abs()), f, pr)
      {
        HandlePfcClass(f, pr);
      }
      ArmTransmit();
    }

    // ---------- Receiving ----------

    method SendPfcXoff(prio: Prio)
      requires Valid()
      modifies this`txXoff, this`queue, this`busy, this`wire, this`refused
      ensures Valid()
      ensures Abs() == SendXoff(config, old(Abs()), prio)
    {
      txXoff := txXoff[prio := txXoff[prio] + 1];
      var ok := SendToMac(PauseFrame(prio, config.quanta));
    }

    method SendPfcXon(prio: Prio)
      requires Valid()
      modifies this`txXon, this`queue, this`busy, this`wire, this`refused
      ensures Valid()
      ensures Abs() == SendXon(config, old(Abs()), prio)
    {
      txXon := txXon[prio := txXon[prio] + 1];
      var ok := SendToMac(PauseFrame(prio, 0));
    }

    method CheckHighWatermark(prio: Prio)
      requires Valid()
      modifies this`congested, this`txXoff, this`queue, this`busy, this`wire, this`refused
      ensures Valid()
      ensures Abs() == CheckHigh(config, old(Abs()), prio)
    {
      if !congested[prio] && occ[prio] >= config.high {
        congested := congested[prio := true];
        SendPfcXoff(prio);
      }
    }

    method CheckLowWatermark(prio: Prio)
      requires Valid()
      modifies this`congested, this`txXon, this`queue, this`busy, this`wire, this`refused
      ensures Valid()
      ensures Abs() == CheckLow(config, old(Abs()), prio)
    {
      if congested[prio] && occ[prio] <= config.low {
        congested := congested[prio := false];
        SendPfcXon(prio);
      }
    }

    method OnDataRx(prio: Prio)
      requires Valid()
      modifies this`occ, this`congested, this`txXoff, this`txXon, this`queue, this`busy, this`wire, this`refused
      ensures Valid()
      ensures Abs() == D.OnDataRx(config, old(Abs()), prio)
    {
      if !config.pfcEnable {
        return;
      }
      ghost var s0 := Abs();
      occ := occ[prio := occ[prio] + 1];
      ghost var s1 := Abs();
      assert s1 == s0.(rx := s0.rx.(occ := occ));
      CheckHighWatermark(prio);
      CheckLowWatermark(prio);
      assert Abs() == CheckLow(config, CheckHigh(config, s1, prio), prio);
    }

    method EnsureTokenManager()
      requires HasManager()
      requires node.tokenMgr != null ==> node.tokenMgr.Valid()
      modifies this`tokenMgr, node, if node.tokenMgr == null then {} else {node.tokenMgr}
      ensures HasManager() && tokenMgr != null
      ensures old(tokenMgr) != null ==> tokenMgr == old(tokenMgr) && tokenMgr.Abs() == old(tokenMgr.Abs())
      ensures old(tokenMgr) == null && old(node.tokenMgr) == null ==>
        fresh(tokenMgr) && tokenMgr.Abs() == RegisterPorts(T.Manager(map[], map[]), node.rates, avgPktSize, sim.now, |node.rates|)
      ensures old(tokenMgr) == null && old(node.tokenMgr) != null ==>
        tokenMgr == old(node.tokenMgr)
        && tokenMgr.Abs() == RegisterPorts(old(node.tokenMgr.Abs()), node.rates, avgPktSize, sim.now, |node.rates|)
    {
      if tokenMgr != null {
        return;
      }
      if node.tokenMgr == null {
        node.tokenMgr := new EgressTokenManager();
      }
      tokenMgr := node.tokenMgr;
      ghost var start := tokenMgr.Abs();
      var mgr: EgressTokenManager := tokenMgr;
      for i := 0 to |node.rates|
        invariant tokenMgr == mgr == node.tokenMgr && mgr.Valid()
        invariant mgr.Abs() == RegisterPorts(start, node.rates, avgPktSize, sim.now, i)
      {
        if node.rates[i].Some? {
          mgr.RegisterEgressPort(i, node.rates[i].value, avgPktSize, sim.now);
        }
      }
    }

    method ArmIngressDrain()
      requires Valid()
      modifies this`drainEvent, sim
      ensures Valid() && Abs() == ArmDrain(old(Abs()))
    {
      var expired := sim.IsExpired(drainEvent);
      if expired {
        drainEvent := sim.Schedule(0.0, Call.DoIngressDrain);
      }
    }

    /** MacRx for a data frame: queue it, account for it, and make sure a drain event is coming. */
    method HandleDataFrame(f: DataFrame)
      requires Valid()
      modifies this`ingressQ, this`drainEvent, this`occ, this`congested, this`txXoff, this`txXon
      modifies this`queue, this`busy, this`wire, this`refused, sim
      ensures Valid()
      ensures Abs() == ReceiveData(config, old(Abs()), f)
    {
      ghost var s0 := Abs();
      ingressQ := ingressQ[f.prio := ingressQ[f.prio] + [f]];
      ghost var s1 := Abs();
      assert s1 == s0.(rx := s0.rx.(ingressQ := ingressQ));
      OnDataRx(f.prio);
      ArmIngressDrain();
    }

    /** The MacRx callback. */
    method HandleMacRx(f: Frame)
      requires Valid() && HasManager()
      requires node.tokenMgr != null ==> node.tokenMgr.Valid()
      modifies this, sim, node, if node.tokenMgr == null then {} else {node.tokenMgr}
      ensures Valid() && HasManager()
      ensures Abs() == D.HandleMacRx(config, old(Abs()), f)
    {
      if f.Control? {
        HandlePfcFrame(f);
      } else {
        EnsureTokenManager();
        HandleDataFrame(f);
      }
    }

    /** The highest class with a waiting frame, or -1. */
    method PickWaiting() returns (pick: int)
      ensures -1 <= pick < 8
      ensures WaitingBelow(Abs(), 8) == if pick == -1 then None else Some(pick)
    {
      pick := 7;
      while pick >= 0
        invariant -1 <= pick < 8
        invariant WaitingBelow(Abs(), 8) == WaitingBelow(Abs(), pick + 1)
      {
        if ingressQ[pick] != [] {
          return;
        }
        pick := pick - 1;
      }
    }

    /** Ask the token manager for the head frame of a class, on behalf of this port. */
    method AskForToken(egress: nat, lastOne: bool) returns (ok: bool)
      requires tokenMgr != null && tokenMgr.Valid()
      modifies tokenMgr.Repr()
      ensures tokenMgr.Valid()
      ensures ok == T.AttemptGranted(old(tokenMgr.Abs()), egress, ifIndex, sim.now)
      ensures tokenMgr.Abs() == T.Attempt(old(tokenMgr.Abs()), egress, ifIndex, sim.now, lastOne)
    {
      tokenMgr.RegisterDemand(egress, ifIndex);
      ok := tokenMgr.TryConsumeTokenFair(egress, ifIndex, sim.now, 1);
      if ok && lastOne {
        tokenMgr.UnregisterDemand(egress, ifIndex);
      }
    }

    method DeliverHead(prio: Prio)
      requires Valid() && ingressQ[prio] != []
      modifies this`ingressQ, this`occ, this`congested, this`txXon, this`queue, this`busy, this`wire, this`refused, this`delivered
      ensures Valid()
      ensures Abs() == Deliver(config, old(Abs()), prio)
    {
      ghost var s0 := Abs();
      var pkt := ingressQ[prio][0];
      ingressQ := ingressQ[prio := ingressQ[prio][1..]];
      if occ[prio] > 0 {
        occ := occ[prio := occ[prio] - 1];
      }
      delivered := delivered + [pkt];
      if config.pfcEnable {
        CheckLowWatermark(prio);
      }
    }

    method RetryIngressDrain(delay: real)
      requires Valid()
      modifies this`drainEvent, sim
      ensures Valid() && Abs() == RetryDrain(old(Abs()), delay)
    {
      drainEvent := sim.Schedule(delay, Call.DoIngressDrain);
    }

    /** What the token manager says about a frame, and how asking changes it; a local delivery asks nothing. */
    twostate predicate Asked(f: DataFrame, lastOne: bool, granted: bool)
      reads this, sim, if tokenMgr == null then {} else tokenMgr.Repr()
    {
      && tokenMgr == old(tokenMgr)
      && (f.egress.None? && tokenMgr != null ==> tokenMgr.Abs() == old(tokenMgr.Abs()))
      && (f.egress.Some? ==>
        && tokenMgr != null
        && granted == T.AttemptGranted(old(tokenMgr.Abs()), f.egress.value, ifIndex, old(sim.now))
        && tokenMgr.Abs() == T.Attempt(old(tokenMgr.Abs()), f.egress.value, ifIndex, old(sim.now), lastOne))
    }

    /** A frame that leaves through another port needs the token manager's leave. */
    method TakeTurn(f: DataFrame, lastOne: bool) returns (ok: bool)
      requires HasManager() && tokenMgr != null
      modifies tokenMgr.Repr()
      ensures HasManager()
      ensures f.egress.None? ==> ok
      ensures Asked(f, lastOne, ok)
    {
      ok := true;
      if f.egress.Some? {
        ok := AskForToken(f.egress.value, lastOne);
      }
    }

    method FinishDrain(pick: Prio, ok: bool)
      requires Valid() && WaitingBelow(Abs(), 8) == Some(pick)
      requires ingressQ[pick][0].egress.None? ==> ok
      modifies this`ingressQ, this`drainEvent, this`occ, this`congested, this`txXon, this`delivered
      modifies this`queue, this`busy, this`wire, this`refused, sim
      ensures Valid()
      ensures Abs() == DrainStep(config, old(Abs()), ok)
    {
      if !ok {
        RetryIngressDrain(RETRY_SEND);
        return;
      }
      DeliverHead(pick);
      RetryIngressDrain(0.0);
    }

    /** Ask for the head frame of the waiting class, and deliver it or come back. */
    method DrainHead(pick: Prio) returns (ok: bool)
      requires Valid() && HasManager() && WaitingBelow(Abs(), 8) == Some(pick)
      modifies this`ingressQ, this`drainEvent, this`occ, this`congested, this`txXon, this`delivered
      modifies this`queue, this`busy, this`wire, this`refused
      modifies sim, if tokenMgr == null then {} else tokenMgr.Repr()
      ensures Valid() && HasManager()
      ensures Abs() == DrainStep(config, old(Abs()), ok)
      ensures Asked(old(ingressQ[pick][0]), old(|ingressQ[pick]| == 1), ok)
    {
      ghost var s0 := Abs();
      var head, lastOne := ingressQ[pick][0], |ingressQ[pick]| == 1;
      ok := TakeTurn(head, lastOne);
      assert Abs() == s0;
      ghost var m := tokenMgr.Abs();
      FinishDrain(pick, ok);
      assert tokenMgr.Abs() == m;
    }

    /**
     * One frame of the highest waiting class goes up to layer 3, unless it must
     * leave through a port whose token manager refuses it.
     */
    method DoIngressDrain() returns (ghost granted: bool)
      requires Valid() && HasManager()
      modifies this`ingressQ, this`drainEvent, this`occ, this`congested, this`txXon, this`delivered
      modifies this`queue, this`busy, this`wire, this`refused
      modifies sim, if tokenMgr == null then {} else tokenMgr.Repr()
      ensures Valid() && HasManager()
      ensures Abs() == DrainStep(config, old(Abs()), granted)
      ensures var p := WaitingBelow(old(Abs()), 8);
        p.Some? ==> Asked(old(ingressQ)[p.value][0], |old(ingressQ)[p.value]| == 1, granted)
      ensures tokenMgr == old(tokenMgr)
      ensures tokenMgr != null ==>
        S.Node(Abs(), tokenMgr.Abs()) == S.Drain(config, S.Node(old(Abs()), old(tokenMgr.Abs())), ifIndex)
    {
      granted := true;
      var pick := PickWaiting();
      if pick < 0 {
        return;
      }
      var ok := DrainHead(pick);
      granted := ok;
    }
  }
}
