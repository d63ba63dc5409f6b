/** What the token manager guarantees over whole runs: rate, refunds, and turns. */
module TokenLaws {
  import opened Tokens

  // ---------- Buckets ----------

  lemma ProductNotNegative(x: real, y: real)
    requires x >= 0.0 && y >= 0.0
    ensures x * y >= 0.0
  {
  }

  lemma RefillKeeps(b: Bucket, now: real)
    requires BucketOk(b) && b.lastRefill <= now
    ensures BucketOk(Refill(b, now))
  {
    if b.pps > 0.0 {
      ProductNotNegative(now - b.lastRefill, b.pps);
    }
  }

  lemma ConsumeKeeps(b: Bucket, now: real, pkts: nat)
    requires BucketOk(b) && b.lastRefill <= now
    ensures BucketOk(Consume(b, now, pkts))
  {
    RefillKeeps(b, now);
  }

  /** Refilling at two moments in turn is the same as refilling once at the second. */
  lemma RefillTwice(b: Bucket, t1: real, t2: real)
    requires b.lastRefill <= t1 <= t2
    ensures Refill(Refill(b, t1), t2) == Refill(b, t2)
  {
    if b.pps > 0.0 {
      assert (t2 - b.lastRefill) * b.pps == (t1 - b.lastRefill) * b.pps + (t2 - t1) * b.pps;
      ProductNotNegative(t2 - t1, b.pps);
    }
  }

  /** A refund right after a consumption gives back exactly what was taken, in spite of the cap. */
  lemma RefundRestores(b: Bucket, now: real, pkts: nat)
    requires BucketOk(b) && b.lastRefill <= now && Affords(b, now, pkts)
    ensures Refund(Consume(b, now, pkts), pkts) == Refill(b, now)
  {
    RefillKeeps(b, now);
  }

  /** A refund adds the tokens, and what does not fit is lost. */
  lemma RefundCapped(b: Bucket, pkts: nat)
    requires BucketOk(b)
    ensures var r := Refund(b, pkts);
      && BucketOk(r) && r == b.(tokens := r.tokens)
      && (b.tokens + pkts as real <= b.capacity as real ==> r.tokens == b.tokens + pkts as real)
      && (b.tokens + pkts as real >= b.capacity as real ==> r.tokens == b.capacity as real)
  {
  }

  // ---------- Runs ----------

  datatype Op =
    | Register(egress: nat, ingress: nat)
    | Unregister(egress: nat, ingress: nat)
    | Ask(egress: nat, ingress: nat, now: real, pkts: nat)

  function Do(m: Manager, op: Op): Manager {
    match op
    case Register(e, i) => RegisterDemand(m, e, i)
    case Unregister(e, i) => UnregisterDemand(m, e, i)
    case Ask(e, i, now, pkts) => TryConsumeTokenFair(m, e, i, now, pkts)
  }

  predicate Run(ms: seq<Manager>, ops: seq<Op>) {
    |ms| == |ops| + 1 && forall k :: 0 <= k < |ops| ==> ms[k + 1] == Do(ms[k], ops[k])
  }

  /** The operation asks for tokens of this egress port and gets them. */
  predicate Grants(m: Manager, op: Op, egress: nat) {
    op.Ask? && op.egress == egress && Granted(m, egress, op.ingress, op.now, op.pkts)
  }

  predicate GrantsTo(m: Manager, op: Op, egress: nat, ingress: nat) {
    Grants(m, op, egress) && op.ingress == ingress
  }

  // ---------- Refused turns ----------

  /** A port that is refused because it is not its turn leaves the bucket as a mere refill would. */
  lemma RefusalPaysBack(m: Manager, egress: nat, ingress: nat, now: real, pkts: nat)
    requires egress in m.buckets && BucketOk(m.buckets[egress]) && m.buckets[egress].lastRefill <= now
    requires !Granted(m, egress, ingress, now, pkts)
    ensures TryConsumeTokenFair(m, egress, ingress, now, pkts).buckets
      == m.buckets[egress := Refill(m.buckets[egress], now)]
    ensures TryConsumeTokenFair(m, egress, ingress, now, pkts).ArbiterOf(egress) == m.ArbiterOf(egress)
  {
    if Affords(m.buckets[egress], now, pkts) {
      RefundRestores(m.buckets[egress], now, pkts);
    }
  }

  /** A grant takes exactly what was asked for. */
  lemma GrantTakes(m: Manager, egress: nat, ingress: nat, now: real, pkts: nat)
    requires egress in m.buckets && Granted(m, egress, ingress, now, pkts)
    ensures TryConsumeTokenFair(m, egress, ingress, now, pkts).buckets
      == m.buckets[egress := Refill(m.buckets[egress], now).(tokens := Refill(m.buckets[egress], now).tokens - pkts as real)]
  {
  }

  // ---------- Registration ----------

  /** Full since `now`, with the packet rate of the link and the packets of one millisecond, at least eight. */
  predicate FullBucket(b: Bucket, bitRate: nat, avgPktSize: nat, now: real) {
    && (if avgPktSize > 0 then b.pps * (8 * avgPktSize) as real == bitRate as real else b.pps == 0.0)
    && b.capacity >= 8 && (b.capacity > 8 ==> b.capacity as real * 1000.0 <= b.pps) && b.pps < (b.capacity + 1) as real * 1000.0
    && b.tokens == b.capacity as real && b.lastRefill == now
  }

  lemma RateTimes(r: real, a: real)
    requires a > 0.0
    ensures r / (a * 8.0) * (8.0 * a) == r
  {
    assert a * 8.0 == 8.0 * a;
    DivideBack(r, 8.0 * a);
  }

  lemma DivideBack(r: real, d: real)
    requires d > 0.0
    ensures r / d * d == r
  {
  }

  /** A port is registered once, with a full bucket. */
  lemma NewPort(m: Manager, port: nat, bitRate: nat, avgPktSize: nat, now: real)
    ensures var m1 := RegisterEgressPort(m, port, bitRate, avgPktSize, now);
      && m1.arbiters == m.arbiters && m1.buckets.Keys == m.buckets.Keys + {port}
      && (forall q :: q in m.buckets ==> m1.buckets[q] == m.buckets[q])
      && (port !in m.buckets ==> FullBucket(m1.buckets[port], bitRate, avgPktSize, now))
  {
    if avgPktSize > 0 {
      RateTimes(bitRate as real, avgPktSize as real);
      assert (8 * avgPktSize) as real == 8.0 * avgPktSize as real;
      assert PortRate(bitRate, avgPktSize) >= 0.0;
    }
  }

  // ---------- Service ----------

  /** The tokens that a rate yields in a time. */
  function Yield(pps: real, time: real): real {
    if pps > 0.0 then time * pps else 0.0
  }

  /** What the bucket holds and its rate yields covers this many tokens. */
  predicate Covers(b: Bucket, now: real, n: nat) {
    b.tokens + Yield(b.pps, now - b.lastRefill) >= n as real
  }

  /** What a bucket holds at a time: what it held, plus what the rate has yielded since, up to the capacity. */
  lemma AffordsIff(b: Bucket, now: real, n: nat)
    requires BucketOk(b) && b.pps > 0.0 && b.lastRefill <= now
    ensures Affords(b, now, n) <==> n <= b.capacity && Covers(b, now, n)
  {
  }

  /** A bucket without a rate holds what it held. */
  lemma AffordsIdle(b: Bucket, now: real, n: nat)
    requires b.pps <= 0.0
    ensures Affords(b, now, n) <==> b.tokens >= n as real
  {
  }

  // ---------- Rate ----------

  /** The packets granted on an egress port by the first `k` operations, to all ingress ports together. */
  function TotalGranted(ms: seq<Manager>, ops: seq<Op>, k: nat, egress: nat): nat
    requires k <= |ops| < |ms|
  {
    if k == 0 then 0
    else TotalGranted(ms, ops, k - 1, egress) + if Grants(ms[k - 1], ops[k - 1], egress) then ops[k - 1].pkts else 0
  }

  /** Time does not run backwards, and all requests for the port lie between these two moments. */
  predicate Within(ops: seq<Op>, egress: nat, t0: real, t1: real) {
    && t0 <= t1
    && (forall k :: 0 <= k < |ops| && ops[k].Ask? && ops[k].egress == egress ==> t0 <= ops[k].now <= t1)
    && (forall j, k :: 0 <= j < k < |ops| && ops[j].Ask? && ops[k].Ask? ==> ops[j].now <= ops[k].now)
  }

  lemma YieldNotNegative(pps: real, time: real)
    requires time >= 0.0
    ensures Yield(pps, time) >= 0.0
  {
  }

  /** A bucket brought up to date at `t0`, if that is still to be done. */
  function UpToDate(b: Bucket, t0: real): Bucket {
    if b.lastRefill <= t0 then Refill(b, t0) else b
  }

  /** The most a bucket can still grant up to `t1`, when nothing is granted before `t0`. */
  function Worth(b: Bucket, t0: real, t1: real): real {
    var u := UpToDate(b, t0);
    u.tokens + Yield(u.pps, t1 - u.lastRefill)
  }

  lemma RefillWorth(b: Bucket, now: real, t0: real, t1: real)
    requires BucketOk(b) && b.lastRefill <= now && t0 <= now <= t1
    ensures Worth(Refill(b, now), t0, t1) <= Worth(b, t0, t1)
  {
    RefillKeeps(b, now);
    if b.pps > 0.0 {
      var u := UpToDate(b, t0);
      if b.lastRefill <= t0 {
        RefillTwice(b, t0, now);
      }
      assert Refill(b, now) == Refill(u, now);
      assert (t1 - u.lastRefill) * b.pps == (now - u.lastRefill) * b.pps + (t1 - now) * b.pps;
      assert UpToDate(Refill(b, now), t0) == Refill(b, now);
    }
  }

  lemma ConsumeWorth(b: Bucket, now: real, pkts: nat, t0: real, t1: real)
    requires BucketOk(b) && b.lastRefill <= now && t0 <= now <= t1 && Affords(b, now, pkts)
    ensures pkts as real + Worth(Consume(b, now, pkts), t0, t1) <= Worth(b, t0, t1)
  {
    RefillWorth(b, now, t0, t1);
    RefillKeeps(b, now);
    var r, c := Refill(b, now), Consume(b, now, pkts);
    if b.pps > 0.0 {
      assert UpToDate(r, t0) == r && UpToDate(c, t0) == c;
    }
  }

  lemma DoBucket(m: Manager, op: Op, egress: nat, t0: real, t1: real)
    requires egress in m.buckets && BucketOk(m.buckets[egress])
    requires op.Ask? && op.egress == egress ==> t0 <= op.now <= t1 && m.buckets[egress].lastRefill <= op.now
    ensures egress in Do(m, op).buckets
    ensures var b, b1 := m.buckets[egress], Do(m, op).buckets[egress];
      && BucketOk(b1) && b1.pps == b.pps && b1.capacity == b.capacity
      && (b1.lastRefill == b.lastRefill || (op.Ask? && op.egress == egress && b1.lastRefill == op.now))
      && (if Grants(m, op, egress) then op.pkts as real else 0.0) + Worth(b1, t0, t1) <= Worth(b, t0, t1)
  {
    if op.Ask? && op.egress == egress {
      var b := m.buckets[egress];
      ConsumeKeeps(b, op.now, op.pkts);
      RefillKeeps(b, op.now);
      if Grants(m, op, egress) {
        GrantTakes(m, egress, op.ingress, op.now, op.pkts);
        ConsumeWorth(b, op.now, op.pkts, t0, t1);
      } else {
        RefusalPaysBack(m, egress, op.ingress, op.now, op.pkts);
        RefillWorth(b, op.now, t0, t1);
      }
    }
  }

  /** When the bucket was last refilled: at the start or by an earlier request. */
  predicate RefilledBy(b: Bucket, b0: Bucket, ops: seq<Op>, k: nat, egress: nat)
    requires k <= |ops|
  {
    b.lastRefill == b0.lastRefill || exists j :: 0 <= j < k && ops[j].Ask? && ops[j].egress == egress && b.lastRefill == ops[j].now
  }

  lemma {:induction false} GrantsPaid(ms: seq<Manager>, ops: seq<Op>, k: nat, egress: nat, t0: real, t1: real)
    requires Run(ms, ops) && Within(ops, egress, t0, t1) && k <= |ops|
    requires egress in ms[0].buckets && BucketOk(ms[0].buckets[egress]) && ms[0].buckets[egress].lastRefill <= t0
    ensures egress in ms[k].buckets
    ensures var b, b0 := ms[k].buckets[egress], ms[0].buckets[egress];
      && BucketOk(b) && b.pps == b0.pps && b.capacity == b0.capacity && RefilledBy(b, b0, ops, k, egress)
      && TotalGranted(ms, ops, k, egress) as real + Worth(b, t0, t1) <= Worth(b0, t0, t1)
  {
    if k > 0 {
      GrantsPaid(ms, ops, k - 1, egress, t0, t1);
      DoBucket(ms[k - 1], ops[k - 1], egress, t0, t1);
      assert ms[k] == Do(ms[k - 1], ops[k - 1]);
    }
  }

  /**
   * The rate bound: over any run whose requests lie between t0 and t1, all
   * ingress ports together are granted at most the burst plus what the rate
   * yields in that time, whatever was saved up before.
   */
  lemma RateBound(ms: seq<Manager>, ops: seq<Op>, egress: nat, t0: real, t1: real)
    requires Run(ms, ops) && Within(ops, egress, t0, t1)
    requires egress in ms[0].buckets && BucketOk(ms[0].buckets[egress]) && ms[0].buckets[egress].lastRefill <= t0
    ensures var b := ms[0].buckets[egress];
      TotalGranted(ms, ops, |ops|, egress) as real <= b.capacity as real + Yield(b.pps, t1 - t0)
  {
    GrantsPaid(ms, ops, |ops|, egress, t0, t1);
    Settle(ops, egress, TotalGranted(ms, ops, |ops|, egress) as real, ms[|ops|].buckets[egress], ms[0].buckets[egress], t0, t1);
  }

  lemma Settle(ops: seq<Op>, egress: nat, total: real, b: Bucket, b0: Bucket, t0: real, t1: real)
    requires Within(ops, egress, t0, t1) && BucketOk(b0) && b0.lastRefill <= t0
    requires BucketOk(b) && RefilledBy(b, b0, ops, |ops|, egress)
    requires total + Worth(b, t0, t1) <= Worth(b0, t0, t1)
    ensures total <= b0.capacity as real + Yield(b0.pps, t1 - t0)
  {
    WorthNotNegative(b, t0, t1);
    RefillKeeps(b0, t0);
  }

  lemma WorthNotNegative(b: Bucket, t0: real, t1: real)
    requires BucketOk(b) && b.lastRefill <= t1 && t0 <= t1
    ensures Worth(b, t0, t1) >= 0.0
  {
    if b.lastRefill <= t0 {
      RefillKeeps(b, t0);
    }
    var u := UpToDate(b, t0);
    assert u.tokens >= 0.0;
    if u.pps > 0.0 {
      YieldNotNegative(u.pps, t1 - u.lastRefill);
    }
  }

  // ---------- Service over runs ----------

  /** From operation `i` to operation `k` nothing is granted on the port, and time does not run backwards. */
  predicate NoGrant(ms: seq<Manager>, ops: seq<Op>, i: nat, k: nat, egress: nat)
    requires |ms| == |ops| + 1 && i <= k <= |ops|
  {
    forall j :: i <= j < k ==> !Grants(ms[j], ops[j], egress)
  }

  predicate InTime(ops: seq<Op>, i: nat, k: nat, egress: nat, t0: real, t1: real)
    requires i <= k <= |ops|
  {
    && (forall j :: i <= j < k && ops[j].Ask? && ops[j].egress == egress ==> t0 <= ops[j].now <= t1)
    && forall j, l :: i <= j < l < k && ops[j].Ask? && ops[l].Ask? ==> ops[j].now <= ops[l].now
  }

  /** As far as a later moment is concerned, refusals leave a bucket as it was. */
  lemma {:induction false} RefusalsForgotten(ms: seq<Manager>, ops: seq<Op>, i: nat, k: nat, egress: nat, t1: real)
    requires Run(ms, ops) && i <= k <= |ops| && egress in ms[i].buckets && BucketOk(ms[i].buckets[egress])
    requires NoGrant(ms, ops, i, k, egress) && ms[i].buckets[egress].lastRefill <= t1
    requires InTime(ops, i, k, egress, ms[i].buckets[egress].lastRefill, t1)
    ensures egress in ms[k].buckets
    ensures var b, b0 := ms[k].buckets[egress], ms[i].buckets[egress];
      && BucketOk(b) && b.pps == b0.pps && b.capacity == b0.capacity
      && (b.lastRefill == b0.lastRefill || exists j :: i <= j < k && ops[j].Ask? && ops[j].egress == egress && b.lastRefill == ops[j].now)
      && b.lastRefill <= t1 && Refill(b, t1) == Refill(b0, t1)
  {
    if i < k {
      RefusalsForgotten(ms, ops, i, k - 1, egress, t1);
      var m, op := ms[k - 1], ops[k - 1];
      if op.Ask? && op.egress == egress {
        RefusalPaysBack(m, egress, op.ingress, op.now, op.pkts);
        RefillKeeps(m.buckets[egress], op.now);
        RefillTwice(m.buckets[egress], op.now, t1);
      }
    }
  }

  /**
   * Service: when nothing has been granted on a port since state `i`, a request is granted exactly if it
   * is the caller's turn and what was left then, plus what the rate has yielded since, covers it.
   */
  lemma GrantedIff(ms: seq<Manager>, ops: seq<Op>, i: nat, k: nat, egress: nat, ingress: nat, now: real, n: nat)
    requires Run(ms, ops) && i <= k <= |ops| && egress in ms[i].buckets && BucketOk(ms[i].buckets[egress])
    requires NoGrant(ms, ops, i, k, egress) && ms[i].buckets[egress].pps > 0.0 && ms[i].buckets[egress].lastRefill <= now
    requires InTime(ops, i, k, egress, ms[i].buckets[egress].lastRefill, now)
    ensures var b := ms[i].buckets[egress];
      Granted(ms[k], egress, ingress, now, n) <==>
      Turn(ms[k].ArbiterOf(egress), ingress) && n <= b.capacity && Covers(b, now, n)
  {
    RefusalsForgotten(ms, ops, i, k, egress, now);
    AffordsIff(ms[i].buckets[egress], now, n);
  }

  /**
   * And so a port whose turn it is gets its request once the time since the last grant, at the rate of the
   * port, covers it, however empty the bucket was left and whoever has been refused in between.
   */
  lemma ServedInTime(ms: seq<Manager>, ops: seq<Op>, i: nat, k: nat, egress: nat, ingress: nat, now: real, n: nat)
    requires Run(ms, ops) && i < k <= |ops| && egress in ms[i].buckets && BucketOk(ms[i].buckets[egress])
    requires ms[i].buckets[egress].pps > 0.0 && Grants(ms[i], ops[i], egress) && ms[i].buckets[egress].lastRefill <= ops[i].now <= now
    requires NoGrant(ms, ops, i + 1, k, egress) && InTime(ops, i + 1, k, egress, ops[i].now, now)
    requires Turn(ms[k].ArbiterOf(egress), ingress) && n <= ms[i].buckets[egress].capacity
    requires Yield(ms[i].buckets[egress].pps, now - ops[i].now) >= n as real
    ensures Granted(ms[k], egress, ingress, now, n)
  {
    var op, b := ops[i], ms[i].buckets[egress];
    GrantTakes(ms[i], egress, op.ingress, op.now, op.pkts);
    ConsumeKeeps(b, op.now, op.pkts);
    RefillKeeps(b, op.now);
    assert ms[i + 1] == Do(ms[i], op);
    var b1 := ms[i + 1].buckets[egress];
    assert b1.lastRefill == op.now && b1.pps == b.pps && b1.capacity == b.capacity && b1.tokens >= 0.0;
    assert now - b1.lastRefill == now - op.now;
    assert Covers(b1, now, n);
    GrantedIff(ms, ops, i + 1, k, egress, ingress, now, n);
  }
}
