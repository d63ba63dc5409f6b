/**
 * Egress rate control: one token bucket for each egress port and a round-robin
 * arbiter among the ingress ports that compete for it.
 */
module Tokens {

  // ---------- Token bucket ----------

  datatype Bucket = Bucket(pps: real, capacity: nat, tokens: real, lastRefill: real)

  function Min(x: real, y: real): real {
    if x < y then x else y
  }

  function Refill(b: Bucket, now: real): Bucket {
    if b.pps <= 0.0 then b
    else b.(tokens := Min(b.tokens + (now - b.lastRefill) * b.pps, b.capacity as real), lastRefill := now)
  }

  /** Whether the bucket holds this many tokens at time `now`. */
  predicate Affords(b: Bucket, now: real, pkts: nat) {
    Refill(b, now).tokens >= pkts as real
  }

  function Consume(b: Bucket, now: real, pkts: nat): Bucket {
    var r := Refill(b, now);
    if Affords(b, now, pkts) then r.(tokens := r.tokens - pkts as real) else r
  }

  function Refund(b: Bucket, pkts: nat): Bucket {
    b.(tokens := Min(b.tokens + pkts as real, b.capacity as real))
  }

  /** The tokens lie between none and the capacity. */
  predicate BucketOk(b: Bucket) {
    0.0 <= b.tokens <= b.capacity as real
  }

  // ---------- Arbiter ----------

  datatype Arbiter = Arbiter(active: set<nat>, lastServed: nat)

  const IDLE := Arbiter({}, 0)

  predicate IsLeast(s: set<nat>, m: nat) {
    m in s && forall x :: x in s ==> m <= x
  }

  lemma LeastExists(s: set<nat>)
    requires s != {}
    ensures exists m :: IsLeast(s, m)
    decreases |s|
  {
    var y :| y in s;
    var rest := s - {y};
    if rest == {} {
      assert s == {y};
      assert IsLeast(s, y);
    } else {
      LeastExists(rest);
      var m :| IsLeast(rest, m);
      var least := if m < y then m else y;
      forall x | x in s
        ensures least <= x
      {
        assert x == y || x in rest;
      }
      assert IsLeast(s, least);
    }
  }

  function Least(s: set<nat>): (m: nat)
    requires s != {}
    ensures IsLeast(s, m)
  {
    LeastExists(s);
    var m :| m in s && IsLeast(s, m);
    m
  }

  function Above(s: set<nat>, last: nat): set<nat> {
    set x | x in s && x > last
  }

  /** The first active port after the last one served, wrapping around. */
  function SelectNext(arb: Arbiter): nat
    requires arb.active != {}
  {
    if Above(arb.active, arb.lastServed) != {} then Least(Above(arb.active, arb.lastServed)) else Least(arb.active)
  }

  // ---------- Token manager ----------

  datatype Manager = Manager(buckets: map<nat, Bucket>, arbiters: map<nat, Arbiter>) {

    function ArbiterOf(egress: nat): Arbiter {
      if egress in arbiters then arbiters[egress] else IDLE
    }

    function Active(egress: nat): set<nat> {
      ArbiterOf(egress).active
    }
  }

  /** Packets per second of a link, and the burst that one millisecond of it allows, at least eight. */
  function PortRate(bitRate: nat, avgPktSize: nat): real {
    if avgPktSize > 0 then bitRate as real / (avgPktSize as real * 8.0) else 0.0
  }

  function PortBurst(pps: real): nat {
    var perMs := (pps * 0.001).Floor;
    if perMs > 8 then perMs else 8
  }

  function RegisterEgressPort(m: Manager, port: nat, bitRate: nat, avgPktSize: nat, now: real): Manager {
    if port in m.buckets then m
    else
      var pps := PortRate(bitRate, avgPktSize);
      m.(buckets := m.buckets[port := Bucket(pps, PortBurst(pps), PortBurst(pps) as real, now)])
  }

  function RegisterDemand(m: Manager, egress: nat, ingress: nat): Manager {
    var arb := m.ArbiterOf(egress);
    m.(arbiters := m.arbiters[egress := arb.(active := arb.active + {ingress})])
  }

  function UnregisterDemand(m: Manager, egress: nat, ingress: nat): Manager {
    var arb := m.ArbiterOf(egress);
    m.(arbiters := m.arbiters[egress := arb.(active := arb.active - {ingress})])
  }

  /** Whose turn it is: anyone's without competition, otherwise the next port's only. */
  predicate Turn(arb: Arbiter, ingress: nat) {
    |arb.active| <= 1 || SelectNext(arb) == ingress
  }

  predicate Granted(m: Manager, egress: nat, ingress: nat, now: real, pkts: nat) {
    egress in m.buckets ==> Affords(m.buckets[egress], now, pkts) && Turn(m.ArbiterOf(egress), ingress)
  }

  /** Consume first, and pay back when it is another port's turn. */
  function TryConsumeTokenFair(m: Manager, egress: nat, ingress: nat, now: real, pkts: nat): Manager {
    if egress !in m.buckets then m
    else
      var m1 := m.(buckets := m.buckets[egress := Consume(m.buckets[egress], now, pkts)]);
      if !Affords(m.buckets[egress], now, pkts) then m1
      else
        var arb := m.ArbiterOf(egress);
        var m2 := m1.(arbiters := m.arbiters[egress := arb]);
        if |arb.active| <= 1 then m2
        else if SelectNext(arb) == ingress then m2.(arbiters := m.arbiters[egress := arb.(lastServed := ingress)])
        else m2.(buckets := m2.buckets[egress := Refund(m2.buckets[egress], pkts)])
  }

  /** What DoIngressDrain asks of the manager for its head frame: register, try, and withdraw with the last frame. */
  function Attempt(m: Manager, egress: nat, ingress: nat, now: real, lastOne: bool): Manager {
    var m1 := RegisterDemand(m, egress, ingress);
    var m2 := TryConsumeTokenFair(m1, egress, ingress, now, 1);
    if Granted(m1, egress, ingress, now, 1) && lastOne then UnregisterDemand(m2, egress, ingress) else m2
  }

  predicate AttemptGranted(m: Manager, egress: nat, ingress: nat, now: real) {
    Granted(RegisterDemand(m, egress, ingress), egress, ingress, now, 1)
  }
}
