/**
 * The priority flow control device as a state machine over values: what every
 * event does to the state. The class QbbNetDevice is proved against these functions.
 */
module PfcDevice {
  import opened Frames
  import opened EventQueue

  type Queues = q: seq<seq<DataFrame>> | |q| == 8 witness [[], [], [], [], [], [], [], []]
  type Flags = f: seq<bool> | |f| == 8 witness [false, false, false, false, false, false, false, false]
  type Times = t: seq<real> | |t| == 8 witness [0.0, 0.0, 0.0, 0.0, 0.0, 0.0, 0.0, 0.0]
  type Counts = c: seq<nat> | |c| == 8 witness [0, 0, 0, 0, 0, 0, 0, 0]
  type Handles = h: seq<EventId> | |h| == 8 witness [0, 0, 0, 0, 0, 0, 0, 0]

  const NO_FRAMES: Queues := [[], [], [], [], [], [], [], []]
  const ALL_CLEAR: Flags := [false, false, false, false, false, false, false, false]
  const ZERO_TIMES: Times := [0.0, 0.0, 0.0, 0.0, 0.0, 0.0, 0.0, 0.0]
  const ZERO_COUNTS: Counts := [0, 0, 0, 0, 0, 0, 0, 0]
  const NO_HANDLES: Handles := [0, 0, 0, 0, 0, 0, 0, 0]

  const RETRY_SEND := 0.00001
  const RETRY_REFILL := 0.000005

  /** The attributes of a device; `cap` is the packet limit of its drop-tail MAC queue. */
  datatype Config = Config(cap: nat, bitRate: nat, pfcEnable: bool, high: nat, low: nat, quanta: Word)

  /** Seconds per bit, with the source's fallback for a rate of zero. */
  function BitTime(c: Config): (t: real)
    ensures t > 0.0
  {
    if c.bitRate > 0 then 1.0 / c.bitRate as real else 0.000000001
  }

  /** How long `q` quanta of 512 bit times last. */
  function PauseTime(c: Config, q: nat): (t: real)
    ensures t >= 0.0
    ensures q > 0 ==> t > 0.0
  {
    q as real * 512.0 * BitTime(c)
  }

  /**
   * The point-to-point transmitter: a bounded FIFO, whether a frame is being
   * sent, the frames whose transmission has started, and the frames that
   * Send refused (its MacTxDrop trace).
   */
  datatype Mac = Mac(queue: seq<Frame>, busy: bool, wire: seq<Frame>, refused: seq<Frame>)

  /** The sending half. */
  datatype Tx = Tx(
    txq: Queues, hold: Queues, paused: Flags, until: Times, txEvent: EventId, refill: Handles,
    rxXoff: Counts, rxXon: Counts)

  /** The receiving half. `delivered` is what was passed up to layer 3, in order. */
  datatype Rx = Rx(
    ingressQ: Queues, occ: Counts, congested: Flags, drainEvent: EventId,
    txXoff: Counts, txXon: Counts, delivered: seq<DataFrame>)

  datatype Dev = Dev(sched: Sched, mac: Mac, tx: Tx, rx: Rx)

  const INITIAL := Dev(
    START,
    Mac([], false, [], []),
    Tx(NO_FRAMES, NO_FRAMES, ALL_CLEAR, ZERO_TIMES, 0, NO_HANDLES, ZERO_COUNTS, ZERO_COUNTS),
    Rx(NO_FRAMES, ZERO_COUNTS, ALL_CLEAR, 0, ZERO_COUNTS, ZERO_COUNTS, []))

  // ---------- The point-to-point transmitter ----------

  /** Start sending the head of the queue, if there is one. */
  function TransmitHead(m: Mac): Mac {
    if m.queue == [] then m.(busy := false)
    else m.(queue := m.queue[1..], busy := true, wire := m.wire + [m.queue[0]])
  }

  predicate HasRoom(c: Config, m: Mac) {
    |m.queue| < c.cap
  }

  /** Send queues the frame and, when the transmitter is idle, starts the head of the queue. */
  function MacSend(c: Config, m: Mac, f: Frame): Mac {
    if !HasRoom(c, m) then m.(refused := m.refused + [f])
    else if m.busy then m.(queue := m.queue + [f])
    else TransmitHead(m.(queue := m.queue + [f]))
  }

  // ---------- The sending half ----------

  /** A class is gated while it is paused and its pause has not run out. */
  predicate Gated(s: Dev, p: Prio) {
    s.tx.paused[p] && s.sched.now < s.tx.until[p]
  }

  /** Schedule the dequeue event unless one is pending. */
  function ArmTx(s: Dev): Dev {
    if s.sched.IsExpired(s.tx.txEvent)
    then s.(tx := s.tx.(txEvent := s.sched.next), sched := s.sched.Schedule(0.0, TryDequeue))
    else s
  }

  function AppSend(s: Dev, f: DataFrame): Dev {
    ArmTx(s.(tx := s.tx.(txq := s.tx.txq[f.prio := s.tx.txq[f.prio] + [f]])))
  }

  /** The highest class below `k` that has a frame and is not gated. */
  function PickBelow(s: Dev, k: nat): (r: Option<Prio>)
    requires k <= 8
    ensures r.Some? ==> r.value < k && s.tx.txq[r.value] != [] && !Gated(s, r.value)
    ensures r.Some? ==> forall p: Prio :: r.value < p < k ==> s.tx.txq[p] == [] || Gated(s, p)
    ensures r.None? ==> forall p: Prio :: p < k ==> s.tx.txq[p] == [] || Gated(s, p)
  {
    if k == 0 then None
    else if s.tx.txq[k - 1] != [] && !Gated(s, k - 1) then Some(k - 1)
    else PickBelow(s, k - 1)
  }

  function PickNextPrio(s: Dev): Option<Prio> {
    PickBelow(s, 8)
  }

  /** Run TryDequeue again after `delay`. */
  function RetryTx(s: Dev, delay: real): Dev {
    s.(tx := s.tx.(txEvent := s.sched.next), sched := s.sched.Schedule(delay, TryDequeue))
  }

  function DequeueClass(c: Config, s: Dev, p: Prio): Dev
    requires s.tx.txq[p] != []
  {
    var s1 := s.(mac := MacSend(c, s.mac, s.tx.txq[p][0]));
    if !HasRoom(c, s.mac) then RetryTx(s1, RETRY_SEND)
    else RetryTx(s1.(tx := s1.tx.(txq := s1.tx.txq[p := s1.tx.txq[p][1..]])), 0.0)
  }

  function TryDequeueStep(c: Config, s: Dev): Dev {
    match PickNextPrio(s)
    case None => s
    case Some(p) => DequeueClass(c, s, p)
  }

  // ---------- Pausing ----------

  /** Move the data frames of a class from the MAC queue to its hold queue. */
  function Purge(s: Dev, p: Prio): Dev {
    s.(mac := s.mac.(queue := Without(s.mac.queue, p)),
       tx := s.tx.(hold := s.tx.hold[p := s.tx.hold[p] + OfClass(s.mac.queue, p)]))
  }

  /** How many held frames the MAC queue has room for. */
  function Movable(c: Config, s: Dev, p: Prio): (k: nat)
    ensures k <= |s.tx.hold[p]|
  {
    var room := if |s.mac.queue| < c.cap then c.cap - |s.mac.queue| else 0;
    if |s.tx.hold[p]| <= room then |s.tx.hold[p]| else room
  }

  function MoveHeld(c: Config, s: Dev, p: Prio): Dev {
    var k := Movable(c, s, p);
    s.(mac := s.mac.(queue := s.mac.queue + s.tx.hold[p][..k]),
       tx := s.tx.(hold := s.tx.hold[p := s.tx.hold[p][k..]]))
  }

  /** Either come back for the rest of the hold queue, or let the upper queues go on. */
  function AfterMove(s: Dev, p: Prio): Dev {
    if s.tx.hold[p] != []
    then s.(tx := s.tx.(refill := s.tx.refill[p := s.sched.next]),
            sched := s.sched.Schedule(RETRY_REFILL, RefillMacQueueFromHold(p)))
    else ArmTx(s)
  }

  function Unpaused(s: Dev, p: Prio): Dev {
    s.(tx := s.tx.(paused := s.tx.paused[p := false]))
  }

  function Refill(c: Config, s: Dev, p: Prio): Dev {
    if Gated(s, p) then s
    else AfterMove(MoveHeld(c, Unpaused(s, p), p), p)
  }

  function Resume(c: Config, s: Dev, p: Prio): Dev {
    if s.sched.now < s.tx.until[p] then s
    else Refill(c, Unpaused(s, p), p)
  }

  function Reopened(s: Dev, p: Prio): Dev {
    var tx := s.tx.(rxXon := s.tx.rxXon[p := s.tx.rxXon[p] + 1],
                    paused := s.tx.paused[p := false],
                    until := s.tx.until[p := s.sched.now]);
    s.(tx := tx, sched := s.sched.Cancel(s.tx.refill[p]))
  }

  /** A zero quanta: the class may send again at once. */
  function Xon(c: Config, s: Dev, p: Prio): Dev {
    Refill(c, Reopened(s, p), p)
  }

  function Stopped(c: Config, s: Dev, p: Prio, q: nat): Dev {
    s.(tx := s.tx.(rxXoff := s.tx.rxXoff[p := s.tx.rxXoff[p] + 1],
                   paused := s.tx.paused[p := true],
                   until := s.tx.until[p := s.sched.now + PauseTime(c, q)]))
  }

  /** A non-zero quanta: stop the class and come back when the pause has run out. */
  function Xoff(c: Config, s: Dev, p: Prio, q: nat): Dev {
    var s1 := Purge(Stopped(c, s, p, q), p);
    var sched := s1.sched.Cancel(s1.tx.refill[p]);
    s1.(tx := s1.tx.(refill := s1.tx.refill[p := sched.next]),
        sched := sched.Schedule(s1.tx.until[p] - sched.now, ResumeFromPause(p)))
  }

  function ApplyClass(c: Config, s: Dev, f: Frame, p: Prio): Dev
    requires f.Control?
  {
    if p !in f.enabled then s
    else if f.quanta[p] == 0 then Xon(c, s, p)
    else Xoff(c, s, p, f.quanta[p])
  }

  /** The classes below `k`, in increasing order. */
  function ApplyBelow(c: Config, s: Dev, f: Frame, k: nat): Dev
    requires f.Control? && k <= 8
  {
    if k == 0 then s else ApplyClass(c, ApplyBelow(c, s, f, k - 1), f, k - 1)
  }

  /** A control frame that enables no class is ignored. */
  function ReceiveControl(c: Config, s: Dev, f: Frame): Dev
    requires f.Control?
  {
    if f.enabled == {} then s else ArmTx(ApplyBelow(c, s, f, 8))
  }

  // ---------- The receiving half ----------

  /** The control frame that the device builds for one class. */
  function PauseFrame(p: Prio, q: Word): Frame {
    var zero: Quanta := [0, 0, 0, 0, 0, 0, 0, 0];
    Control({p}, zero[p := q])
  }

  function SendXoff(c: Config, s: Dev, p: Prio): Dev {
    s.(rx := s.rx.(txXoff := s.rx.txXoff[p := s.rx.txXoff[p] + 1]), mac := MacSend(c, s.mac, PauseFrame(p, c.quanta)))
  }

  function SendXon(c: Config, s: Dev, p: Prio): Dev {
    s.(rx := s.rx.(txXon := s.rx.txXon[p := s.rx.txXon[p] + 1]), mac := MacSend(c, s.mac, PauseFrame(p, 0)))
  }

  function CheckHigh(c: Config, s: Dev, p: Prio): Dev {
    if !s.rx.congested[p] && s.rx.occ[p] >= c.high
    then SendXoff(c, s.(rx := s.rx.(congested := s.rx.congested[p := true])), p)
    else s
  }

  function CheckLow(c: Config, s: Dev, p: Prio): Dev {
    if s.rx.congested[p] && s.rx.occ[p] <= c.low
    then SendXon(c, s.(rx := s.rx.(congested := s.rx.congested[p := false])), p)
    else s
  }

  function OnDataRx(c: Config, s: Dev, p: Prio): Dev {
    if !c.pfcEnable then s
    else CheckLow(c, CheckHigh(c, s.(rx := s.rx.(occ := s.rx.occ[p := s.rx.occ[p] + 1])), p), p)
  }

  function ArmDrain(s: Dev): Dev {
    if s.sched.IsExpired(s.rx.drainEvent)
    then s.(rx := s.rx.(drainEvent := s.sched.next), sched := s.sched.Schedule(0.0, DoIngressDrain))
    else s
  }

  function ReceiveData(c: Config, s: Dev, f: DataFrame): Dev {
    var rx := s.rx.(ingressQ := s.rx.ingressQ[f.prio := s.rx.ingressQ[f.prio] + [f]]);
    ArmDrain(OnDataRx(c, s.(rx := rx), f.prio))
  }

  function HandleMacRx(c: Config, s: Dev, f: Frame): Dev {
    if f.Control? then ReceiveControl(c, s, f) else ReceiveData(c, s, f)
  }

  /** The highest class below `k` with a waiting ingress frame. */
  function WaitingBelow(s: Dev, k: nat): (r: Option<Prio>)
    requires k <= 8
    ensures r.Some? ==> r.value < k && s.rx.ingressQ[r.value] != []
    ensures r.Some? ==> forall p: Prio :: r.value < p < k ==> s.rx.ingressQ[p] == []
    ensures r.None? ==> forall p: Prio :: p < k ==> s.rx.ingressQ[p] == []
  {
    if k == 0 then None
    else if s.rx.ingressQ[k - 1] != [] then Some(k - 1)
    else WaitingBelow(s, k - 1)
  }

  function RetryDrain(s: Dev, delay: real): Dev {
    s.(rx := s.rx.(drainEvent := s.sched.next), sched := s.sched.Schedule(delay, DoIngressDrain))
  }

  /** Take the head frame of a class off the ingress queue and pass it up. */
  function Deliver(c: Config, s: Dev, p: Prio): Dev
    requires s.rx.ingressQ[p] != []
  {
    var rx := s.rx.(ingressQ := s.rx.ingressQ[p := s.rx.ingressQ[p][1..]],
                    occ := s.rx.occ[p := if s.rx.occ[p] > 0 then s.rx.occ[p] - 1 else 0],
                    delivered := s.rx.delivered + [s.rx.ingressQ[p][0]]);
    var s1 := s.(rx := rx);
    if c.pfcEnable then CheckLow(c, s1, p) else s1
  }

  /** `granted` is the egress token manager's verdict; local deliveries do not ask for it. */
  function DrainStep(c: Config, s: Dev, granted: bool): Dev {
    match WaitingBelow(s, 8)
    case None => s
    case Some(p) =>
      if s.rx.ingressQ[p][0].egress.Some? && !granted then RetryDrain(s, RETRY_SEND)
      else RetryDrain(Deliver(c, s, p), 0.0)
  }

  // ---------- Runs ----------

  datatype Action =
    | Tick(to: real)
    | Fire(id: EventId, granted: bool)
    | Accept(packet: DataFrame)
    | Receive(frame: Frame)
    | TransmitComplete

  /** Time passes only up to the next pending event; events fire when they are due, in the order of their ids. */
  predicate Enabled(s: Dev, a: Action) {
    match a
    case Tick(t) => s.sched.now <= t && forall id :: id in s.sched.pending ==> t <= s.sched.pending[id].at
    case Fire(id, _) =>
      && id in s.sched.pending && s.sched.pending[id].at == s.sched.now
      && forall other :: other in s.sched.pending && s.sched.pending[other].at == s.sched.now ==> id <= other
    case Accept(f) => true
    case Receive(f) => true
    case TransmitComplete => s.mac.busy
  }

  function Dispatch(c: Config, s: Dev, call: Call, granted: bool): Dev {
    match call
    case TryDequeue => TryDequeueStep(c, s)
    case DoIngressDrain => DrainStep(c, s, granted)
    case ResumeFromPause(p) => Resume(c, s, p)
    case RefillMacQueueFromHold(p) => Refill(c, s, p)
  }

  function Next(c: Config, s: Dev, a: Action): Dev
    requires Enabled(s, a)
  {
    match a
    case Tick(t) => s.(sched := s.sched.(now := t))
    case Fire(id, granted) => Dispatch(c, s.(sched := s.sched.Cancel(id)), s.sched.pending[id].call, granted)
    case Accept(f) => AppSend(s, f)
    case Receive(f) => HandleMacRx(c, s, f)
    case TransmitComplete => s.(mac := TransmitHead(s.mac))
  }

  /** A run is a chain of states, each reached from the one before by an enabled action. */
  predicate Run(c: Config, states: seq<Dev>, actions: seq<Action>) {
    && |states| == |actions| + 1
    && forall i :: 0 <= i < |actions| ==> Enabled(states[i], actions[i]) && states[i + 1] == Next(c, states[i], actions[i])
  }
}
