/**
 * The receiving half: watermark hysteresis, how many control frames it can
 * cause, and the order of delivery.
 */
module DeviceWatermark {
  import opened Frames
  import opened EventQueue
  import opened PfcDevice
  import opened DeviceGate

  /** Flow control is on and the watermarks leave a gap. */
  predicate Hysteresis(c: Config) {
    c.pfcEnable && c.low < c.high
  }

  function ArrivedBy(a: Action, p: Prio): seq<DataFrame> {
    if a.Receive? && IsClass(a.frame, p) then [a.frame] else []
  }

  /** The data frames of a class received in the first `i` actions. */
  function ArrivedOf(actions: seq<Action>, i: nat, p: Prio): (r: seq<DataFrame>)
    requires i <= |actions|
  {
    if i == 0 then [] else ArrivedOf(actions, i - 1, p) + ArrivedBy(actions[i - 1], p)
  }

  function Excess(c: Config, occ: nat): nat {
    if occ > c.low then occ - c.low else 0
  }

  /** The occupancy counts the queue, and the verdict of a class agrees with it and with what has been signalled. */
  predicate LevelsOk(c: Config, s: Dev, p: Prio) {
    && s.rx.occ[p] == |s.rx.ingressQ[p]|
    && (if s.rx.congested[p] then c.low < s.rx.occ[p] else s.rx.occ[p] < c.high)
    && s.rx.txXoff[p] == s.rx.txXon[p] + (if s.rx.congested[p] then 1 else 0)
  }

  /**
   * The amortised account of a class: each pause frame has been paid for by
   * high - low arrivals, and a class that is not congested has already saved up
   * its excess over the low watermark.
   */
  predicate WatermarkOk(c: Config, s: Dev, p: Prio, arrivals: nat) {
    && LevelsOk(c, s, p)
    && s.rx.txXoff[p] * (c.high - c.low) + (if s.rx.congested[p] then 0 else Excess(c, s.rx.occ[p])) <= arrivals
  }

  /** What has arrived is what was delivered, followed by what is waiting. */
  ghost predicate DeliveryOk(s: Dev, p: Prio, arrived: seq<DataFrame>) {
    && (forall r: Prio, f :: f in s.rx.ingressQ[r] ==> IsClass(f, r))
    && arrived == OfClass(s.rx.delivered, p) + s.rx.ingressQ[p]
  }

  // ---------- Delivery ----------

  lemma ReceiveDelivery(c: Config, s: Dev, f: Frame, p: Prio, arrived: seq<DataFrame>)
    requires DeliveryOk(s, p, arrived)
    ensures DeliveryOk(HandleMacRx(c, s, f), p, arrived + ArrivedBy(Receive(f), p))
  {
    if f.Control? {
      ApplyBelowLeaves(c, s, f, 8);
      assert arrived + [] == arrived;
    } else {
      var s1 := ReceiveData(c, s, f);
      assert s1.rx.ingressQ == s.rx.ingressQ[f.prio := s.rx.ingressQ[f.prio] + [f]];
      assert s1.rx.delivered == s.rx.delivered;
    }
  }

  lemma DrainDelivery(c: Config, s: Dev, granted: bool, p: Prio, arrived: seq<DataFrame>)
    requires DeliveryOk(s, p, arrived)
    ensures DeliveryOk(DrainStep(c, s, granted), p, arrived)
  {
    match WaitingBelow(s, 8)
    case None =>
    case Some(r) =>
      var f := s.rx.ingressQ[r][0];
      var d, q := OfClass(s.rx.delivered, p), s.rx.ingressQ[p];
      assert f in s.rx.ingressQ[r];
      assert forall g :: g in s.rx.ingressQ[r][1..] ==> g in s.rx.ingressQ[r];
      OfClassSnoc(s.rx.delivered, f, p);
      assert r == p ==> d + [f] + q[1..] == d + q;
      var s1 := DrainStep(c, s, granted);
      if !(f.egress.Some? && !granted) {
        assert s1.rx.delivered == s.rx.delivered + [f];
        assert s1.rx.ingressQ == s.rx.ingressQ[r := s.rx.ingressQ[r][1..]];
      }
  }

  /** Every class is delivered in its order of arrival, without loss or repetition, under any configuration. */
  lemma {:induction false} DeliveredInOrder(c: Config, states: seq<Dev>, actions: seq<Action>, i: nat, p: Prio)
    requires Run(c, states, actions) && states[0] == INITIAL
    requires i < |states|
    ensures DeliveryOk(states[i], p, ArrivedOf(actions, i, p))
  {
    if i > 0 {
      DeliveredInOrder(c, states, actions, i - 1, p);
      var s, a, arrived := states[i - 1], actions[i - 1], ArrivedOf(actions, i - 1, p);
      assert arrived + [] == arrived;
      if a.Receive? {
        ReceiveDelivery(c, s, a.frame, p, arrived);
      } else if a.Fire? && s.sched.pending[a.id].call == DoIngressDrain {
        DrainDelivery(c, s.(sched := s.sched.Cancel(a.id)), a.granted, p, arrived);
      }
    }
  }

  // ---------- Watermarks ----------

  lemma OneMore(x: nat, d: nat)
    ensures (x + 1) * d == x * d + d
  {
  }

  /** An arrival raises the occupancy; it sends a pause frame if that reaches the high watermark, and never a resume frame. */
  lemma ArrivalEffect(c: Config, s: Dev, f: DataFrame)
    requires Hysteresis(c) && LevelsOk(c, s, f.prio)
    ensures var p, rx, rx1 := f.prio, s.rx, ReceiveData(c, s, f).rx;
      var crosses := !rx.congested[p] && rx.occ[p] + 1 >= c.high;
      && rx1.ingressQ == rx.ingressQ[p := rx.ingressQ[p] + [f]] && rx1.delivered == rx.delivered
      && rx1.occ == rx.occ[p := rx.occ[p] + 1]
      && rx1.congested == (if crosses then rx.congested[p := true] else rx.congested)
      && rx1.txXoff == (if crosses then rx.txXoff[p := rx.txXoff[p] + 1] else rx.txXoff)
      && rx1.txXon == rx.txXon
  {
    var p := f.prio;
    var s1 := s.(rx := s.rx.(ingressQ := s.rx.ingressQ[p := s.rx.ingressQ[p] + [f]]));
    var s2 := s1.(rx := s1.rx.(occ := s1.rx.occ[p := s1.rx.occ[p] + 1]));
    assert CheckLow(c, CheckHigh(c, s2, p), p) == CheckHigh(c, s2, p);
  }

  lemma ReceiveWatermark(c: Config, s: Dev, f: Frame, p: Prio, arrivals: nat)
    requires Hysteresis(c) && WatermarkOk(c, s, p, arrivals)
    requires f.Data? ==> LevelsOk(c, s, f.prio)
    ensures WatermarkOk(c, HandleMacRx(c, s, f), p, arrivals + |ArrivedBy(Receive(f), p)|)
  {
    if f.Control? {
      ApplyBelowLeaves(c, s, f, 8);
    } else {
      ArrivalEffect(c, s, f);
      OneMore(s.rx.txXoff[p], c.high - c.low);
    }
  }

  lemma DrainWatermark(c: Config, s: Dev, granted: bool, p: Prio, arrivals: nat)
    requires Hysteresis(c) && WatermarkOk(c, s, p, arrivals)
    ensures WatermarkOk(c, DrainStep(c, s, granted), p, arrivals)
  {
  }

  lemma NextKeepsWatermark(c: Config, s: Dev, a: Action, p: Prio, arrivals: nat)
    requires Hysteresis(c) && Enabled(s, a) && WatermarkOk(c, s, p, arrivals)
    requires a.Receive? && a.frame.Data? ==> LevelsOk(c, s, a.frame.prio)
    ensures WatermarkOk(c, Next(c, s, a), p, arrivals + |ArrivedBy(a, p)|)
  {
    if a.Receive? {
      ReceiveWatermark(c, s, a.frame, p, arrivals);
    } else if a.Fire? && s.sched.pending[a.id].call == DoIngressDrain {
      DrainWatermark(c, s.(sched := s.sched.Cancel(a.id)), a.granted, p, arrivals);
    }
  }

  lemma {:induction false} WatermarkAlwaysOk(c: Config, states: seq<Dev>, actions: seq<Action>, i: nat, p: Prio)
    requires Hysteresis(c) && Run(c, states, actions) && states[0] == INITIAL
    requires i < |states|
    ensures WatermarkOk(c, states[i], p, |ArrivedOf(actions, i, p)|)
  {
    if i > 0 {
      WatermarkAlwaysOk(c, states, actions, i - 1, p);
      if actions[i - 1].Receive? && actions[i - 1].frame.Data? {
        WatermarkAlwaysOk(c, states, actions, i - 1, actions[i - 1].frame.prio);
      }
      NextKeepsWatermark(c, states[i - 1], actions[i - 1], p, |ArrivedOf(actions, i - 1, p)|);
    }
  }

  /**
   * Over every run: a class is congested exactly while it has sent one pause
   * frame more than resume frames, and the pause frames it has sent, times the
   * gap between the watermarks, never exceed the frames it has received.
   */
  lemma ControlFramesBounded(c: Config, states: seq<Dev>, actions: seq<Action>, i: nat, p: Prio)
    requires Hysteresis(c) && Run(c, states, actions) && states[0] == INITIAL
    requires i < |states|
    ensures var s := states[i];
      && (s.rx.congested[p] <==> s.rx.txXoff[p] == s.rx.txXon[p] + 1)
      && (!s.rx.congested[p] <==> s.rx.txXoff[p] == s.rx.txXon[p])
      && s.rx.txXoff[p] * (c.high - c.low) <= |ArrivedOf(actions, i, p)|
  {
    WatermarkAlwaysOk(c, states, actions, i, p);
  }

  /** Between the watermarks the verdict is the old one; outside them it is decided by the occupancy. */
  lemma OccupancyDecides(c: Config, states: seq<Dev>, actions: seq<Action>, i: nat, p: Prio)
    requires Hysteresis(c) && Run(c, states, actions) && states[0] == INITIAL
    requires i < |states|
    ensures var waiting := |states[i].rx.ingressQ[p]|;
      && states[i].rx.occ[p] == waiting
      && (waiting >= c.high ==> states[i].rx.congested[p])
      && (waiting <= c.low ==> !states[i].rx.congested[p])
  {
    WatermarkAlwaysOk(c, states, actions, i, p);
  }

  /** What an arrival and a delivery do to the count and the verdict of their class, whatever the thresholds are. */
  lemma Verdicts(c: Config, s: Dev, f: DataFrame, p: Prio)
    requires s.rx.ingressQ[p] != []
    ensures var rx, rx1, r := s.rx, ReceiveData(c, s, f).rx, f.prio;
      var n := rx.occ[r] + 1;
      var high := rx.congested[r] || n >= c.high;
      if !c.pfcEnable then rx1.occ == rx.occ && rx1.congested == rx.congested && rx1.txXoff == rx.txXoff && rx1.txXon == rx.txXon
      else
        && rx1.occ == rx.occ[r := n] && rx1.congested == rx.congested[r := high && n > c.low]
        && rx1.txXoff == rx.txXoff[r := rx.txXoff[r] + (if high && !rx.congested[r] then 1 else 0)]
        && rx1.txXon == rx.txXon[r := rx.txXon[r] + (if high && n <= c.low then 1 else 0)]
    ensures var rx, rx1 := s.rx, Deliver(c, s, p).rx;
      var n := if rx.occ[p] > 0 then rx.occ[p] - 1 else 0;
      var ends := c.pfcEnable && rx.congested[p] && n <= c.low;
      && rx1.occ == rx.occ[p := n] && rx1.congested == rx.congested[p := rx.congested[p] && !ends]
      && rx1.txXoff == rx.txXoff && rx1.txXon == rx.txXon[p := rx.txXon[p] + if ends then 1 else 0]
  {
  }

  /** The low-watermark test on arrival never fires: no arrival sends a resume frame. */
  lemma ArrivalNeverResumes(c: Config, states: seq<Dev>, actions: seq<Action>, i: nat)
    requires Hysteresis(c) && Run(c, states, actions) && states[0] == INITIAL
    requires i < |actions| && actions[i].Receive?
    ensures states[i + 1].rx.txXon == states[i].rx.txXon
  {
    var f := actions[i].frame;
    if f.Control? {
      ApplyBelowLeaves(c, states[i], f, 8);
    } else {
      WatermarkAlwaysOk(c, states, actions, i, f.prio);
      ArrivalEffect(c, states[i], f);
    }
  }
}
