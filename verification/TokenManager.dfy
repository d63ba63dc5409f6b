/** The token bucket and the token manager of a node, updated in place. */
module TokenManager {
  import opened T = Tokens

  /** What a bucket holds after a time: what it held and what the rate has yielded, up to the capacity. */
  function Due(tokens: real, elapsed: real, pps: real, capacity: nat): real {
    if pps <= 0.0 then tokens
    else if tokens + elapsed * pps < capacity as real then tokens + elapsed * pps
    else capacity as real
  }

  class TokenBucket {
    var pps: real
    var capacity: nat
    var tokens: real
    var lastRefill: real

    ghost function Abs(): Bucket
      reads this
    {
      Bucket(pps, capacity, tokens, lastRefill)
    }

    constructor (pps: real, burst: nat, now: real)
      ensures Abs() == Bucket(pps, burst, burst as real, now)
    {
      this.pps, capacity, tokens, lastRefill := pps, burst, burst as real, now;
    }

    method Refill(now: real)
      modifies this
      ensures Abs() == T.Refill(old(Abs()), now)
      ensures tokens == Due(old(tokens), now - old(lastRefill), old(pps), capacity)
    {
      if pps <= 0.0 {
        return;
      }
      var elapsed := now - lastRefill;
      tokens := Min(tokens + elapsed * pps, capacity as real);
      lastRefill := now;
    }

    method TryConsume(now: real, pkts: nat) returns (ok: bool)
      modifies this
      ensures ok == Affords(old(Abs()), now, pkts)
      ensures Abs() == Consume(old(Abs()), now, pkts)
      ensures var due := Due(old(tokens), now - old(lastRefill), old(pps), capacity);
        ok == (due >= pkts as real) && tokens == (if ok then due - pkts as real else due)
    {
      Refill(now);
      if tokens >= pkts as real {
        tokens := tokens - pkts as real;
        return true;
      }
      return false;
    }

    method Refund(pkts: nat)
      modifies this
      ensures Abs() == T.Refund(old(Abs()), pkts)
    {
      tokens := Min(tokens + pkts as real, capacity as real);
    }
  }

  class EgressTokenManager {
    var buckets: map<nat, TokenBucket>
    var arbiters: map<nat, Arbiter>

    /** Each port has a bucket of its own. */
    ghost predicate Valid()
      reads this
    {
      forall p, q :: p in buckets && q in buckets && p != q ==> buckets[p] != buckets[q]
    }

    ghost function Repr(): set<object>
      reads this
    {
      {this} + set p | p in buckets :: buckets[p]
    }

    ghost function Abs(): Manager
      reads this, set p | p in buckets :: buckets[p]
    {
      Manager(map p | p in buckets :: buckets[p].Abs(), arbiters)
    }

    constructor ()
      ensures Valid() && Abs() == Manager(map[], map[]) && Repr() == {this}
    {
      buckets, arbiters := map[], map[];
    }

    method RegisterEgressPort(port: nat, bitRate: nat, avgPktSize: nat, now: real)
      requires Valid()
      modifies this
      ensures Valid() && fresh(Repr() - old(Repr()))
      ensures Abs() == T.RegisterEgressPort(old(Abs()), port, bitRate, avgPktSize, now)
    {
      if port in buckets {
        return;
      }
      var pps := PortRate(bitRate, avgPktSize);
      var bucket := new TokenBucket(pps, PortBurst(pps), now);
      ghost var m := Abs();
      buckets := buckets[port := bucket];
      assert Abs() == m.(buckets := m.buckets[port := bucket.Abs()]);
    }

    method RegisterDemand(egress: nat, ingress: nat)
      requires Valid()
      modifies this`arbiters
      ensures Abs() == T.RegisterDemand(old(Abs()), egress, ingress)
    {
      var arb := if egress in arbiters then arbiters[egress] else IDLE;
      arbiters := arbiters[egress := arb.(active := arb.active + {ingress})];
    }

    method UnregisterDemand(egress: nat, ingress: nat)
      requires Valid()
      modifies this`arbiters
      ensures Abs() == T.UnregisterDemand(old(Abs()), egress, ingress)
    {
      var arb := if egress in arbiters then arbiters[egress] else IDLE;
      arbiters := arbiters[egress := arb.(active := arb.active - {ingress})];
    }

    method SelectNextIngress(arb: Arbiter) returns (port: nat)
      ensures arb.active == {} ==> port == 0
      ensures arb.active != {} ==> port == SelectNext(arb)
    {
      if arb.active == {} {
        return 0;
      }
      var after := set x | x in arb.active && x > arb.lastServed;
      if after == {} {
        after := arb.active;
      }
      LeastExists(after);
      port :| port in after && IsLeast(after, port);
    }

    /** Without a bucket everything is granted. */
    method TryConsumeToken(egress: nat, now: real, pkts: nat) returns (ok: bool)
      requires Valid()
      modifies set p | p in buckets :: buckets[p]
      ensures ok == (egress in buckets ==> Affords(old(Abs()).buckets[egress], now, pkts))
      ensures var m := old(Abs());
        Abs() == if egress in buckets then m.(buckets := m.buckets[egress := Consume(m.buckets[egress], now, pkts)]) else m
    {
      if egress !in buckets {
        return true;
      }
      ghost var m := Abs();
      var bucket := buckets[egress];
      ok := bucket.TryConsume(now, pkts);
      assert Abs().buckets == m.buckets[egress := bucket.Abs()];
    }

    method RefundToken(egress: nat, pkts: nat)
      requires Valid() && egress in buckets
      modifies set p | p in buckets :: buckets[p]
      ensures var m := old(Abs()); Abs() == m.(buckets := m.buckets[egress := T.Refund(m.buckets[egress], pkts)])
    {
      ghost var m := Abs();
      var bucket := buckets[egress];
      bucket.Refund(pkts);
      assert Abs().buckets == m.buckets[egress := bucket.Abs()];
    }

    /** Without competition it is anyone's turn; otherwise the next port's, which is then the last one served. */
    method TakeTurn(egress: nat, ingress: nat) returns (granted: bool)
      requires Valid()
      modifies this`arbiters
      ensures granted == Turn(old(Abs()).ArbiterOf(egress), ingress)
      ensures var arb := old(Abs()).ArbiterOf(egress);
        arbiters == old(arbiters)[egress := if granted && |arb.active| > 1 then arb.(lastServed := ingress) else arb]
      ensures Abs().buckets == old(Abs()).buckets
    {
      if egress !in arbiters {
        arbiters := arbiters[egress := IDLE];
      }
      var arb := arbiters[egress];
      if |arb.active| == 0 || |arb.active| == 1 {
        return true;
      }
      var next := SelectNextIngress(arb);
      if next == ingress {
        arbiters := arbiters[egress := arb.(lastServed := ingress)];
        return true;
      }
      return false;
    }

    method TryConsumeTokenFair(egress: nat, ingress: nat, now: real, pkts: nat) returns (ok: bool)
      requires Valid()
      modifies Repr()
      ensures Valid() && Repr() == old(Repr())
      ensures ok == Granted(old(Abs()), egress, ingress, now, pkts)
      ensures Abs() == T.TryConsumeTokenFair(old(Abs()), egress, ingress, now, pkts)
    {
      if egress !in buckets {
        return true;
      }
      var enough := TryConsumeToken(egress, now, pkts);
      if !enough {
        return false;
      }
      ghost var m := Abs();
      ok := TakeTurn(egress, ingress);
      assert Abs() == m.(arbiters := arbiters);
      if !ok {
        RefundToken(egress, pkts);
      }
    }
  }
}
