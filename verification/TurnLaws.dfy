/** The round-robin arbiter: who can be passed over, how often, and for how long. */
module TurnLaws {
  import opened Tokens
  import opened TokenLaws

  // ---------- One turn ----------

  /** Going up from just after `last` and wrapping around, `x` is met before `y`. */
  predicate MetBefore(last: nat, x: nat, y: nat) {
    if (x > last) == (y > last) then x < y else x > last
  }

  /** The selected port is met before every other active port. */
  lemma SelectedIsFirst(arb: Arbiter, x: nat)
    requires x in arb.active
    ensures SelectNext(arb) in arb.active
    ensures x == SelectNext(arb) || MetBefore(arb.lastServed, SelectNext(arb), x)
  {
    assert x > arb.lastServed ==> x in Above(arb.active, arb.lastServed);
  }

  lemma TwoActive(s: set<nat>, x: nat, y: nat)
    requires x in s && y in s && x != y
    ensures |s| >= 2
  {
    assert {x, y} <= s;
    assert |s| >= |{x, y}| by {
      SubsetSize({x, y}, s);
    }
  }

  lemma {:induction false} SubsetSize(a: set<nat>, b: set<nat>)
    requires a <= b
    ensures |a| <= |b|
    decreases a
  {
    if a != {} {
      var x :| x in a;
      SubsetSize(a - {x}, b - {x});
    }
  }

  // ---------- Bounded bypass ----------

  /** The caller registers before it asks, as DoIngressDrain does. */
  predicate AsksRegistered(ms: seq<Manager>, ops: seq<Op>, egress: nat)
    requires |ms| == |ops| + 1
  {
    forall k :: 0 <= k < |ops| && ops[k].Ask? && ops[k].egress == egress ==> ops[k].ingress in ms[k].Active(egress)
  }

  /** From state `i` to state `j`, port `x` stays registered and is not granted anything. */
  predicate Waits(ms: seq<Manager>, ops: seq<Op>, i: nat, j: nat, egress: nat, x: nat)
    requires |ms| == |ops| + 1 && i <= j <= |ops|
  {
    forall k :: i <= k < j ==> x in ms[k].Active(egress) && !GrantsTo(ms[k], ops[k], egress, x)
  }

  /** What one operation does to the arbiter of a port: only a grant among competitors moves its turn. */
  lemma DoArbiter(m: Manager, op: Op, egress: nat)
    requires egress in m.buckets
    ensures egress in Do(m, op).buckets
    ensures var last, last1 := m.ArbiterOf(egress).lastServed, Do(m, op).ArbiterOf(egress).lastServed;
      if Grants(m, op, egress) && |m.Active(egress)| >= 2
      then last1 == op.ingress == SelectNext(m.ArbiterOf(egress))
      else last1 == last
  {
  }

  /** While `x` waits, a grant to `y` puts the turn where `x` comes before `y`. */
  lemma GrantMovesOn(m: Manager, op: Op, egress: nat, x: nat, y: nat)
    requires egress in m.buckets && x in m.Active(egress) && op.Ask? && op.ingress in m.Active(egress)
    requires GrantsTo(m, op, egress, y) && x != y
    ensures MetBefore(Do(m, op).ArbiterOf(egress).lastServed, x, y)
    ensures !MetBefore(m.ArbiterOf(egress).lastServed, x, y)
  {
    TwoActive(m.Active(egress), x, y);
    DoArbiter(m, op, egress);
    SelectedIsFirst(m.ArbiterOf(egress), x);
  }

  /** As long as `x` waits, whoever is granted, `x` stays before `y`. */
  lemma OrderStays(m: Manager, op: Op, egress: nat, x: nat, y: nat)
    requires egress in m.buckets && x in m.Active(egress) && x != y
    requires op.Ask? && op.egress == egress ==> op.ingress in m.Active(egress)
    requires !GrantsTo(m, op, egress, x)
    requires MetBefore(m.ArbiterOf(egress).lastServed, x, y)
    ensures MetBefore(Do(m, op).ArbiterOf(egress).lastServed, x, y) && !GrantsTo(m, op, egress, y)
  {
    DoArbiter(m, op, egress);
    if Grants(m, op, egress) {
      TwoActive(m.Active(egress), x, op.ingress);
      SelectedIsFirst(m.ArbiterOf(egress), x);
    }
  }

  lemma {:induction false} StaysBehind(ms: seq<Manager>, ops: seq<Op>, i: nat, j: nat, egress: nat, x: nat, y: nat)
    requires Run(ms, ops) && i <= j <= |ops| && AsksRegistered(ms, ops, egress)
    requires egress in ms[i].buckets && Waits(ms, ops, i, j, egress, x) && x != y
    requires MetBefore(ms[i].ArbiterOf(egress).lastServed, x, y)
    ensures egress in ms[j].buckets && MetBefore(ms[j].ArbiterOf(egress).lastServed, x, y)
    ensures forall k :: i <= k < j ==> !GrantsTo(ms[k], ops[k], egress, y)
  {
    if i < j {
      assert Waits(ms, ops, i, j - 1, egress, x);
      StaysBehind(ms, ops, i, j - 1, egress, x, y);
      var m, op := ms[j - 1], ops[j - 1];
      assert ms[j] == Do(m, op);
      assert op.Ask? && op.egress == egress ==> op.ingress in m.Active(egress);
      DoArbiter(m, op, egress);
      OrderStays(m, op, egress, x, y);
    }
  }

  lemma {:induction false} BucketStays(ms: seq<Manager>, ops: seq<Op>, i: nat, j: nat, egress: nat)
    requires Run(ms, ops) && i <= j <= |ops| && egress in ms[i].buckets
    ensures egress in ms[j].buckets
  {
    if i < j {
      BucketStays(ms, ops, i, j - 1, egress);
      DoArbiter(ms[j - 1], ops[j - 1], egress);
    }
  }

  /**
   * Bounded bypass: while a port stays registered and unserved, no other port is
   * granted twice, whoever else registers and withdraws in the meantime.
   */
  lemma BypassedOnce(ms: seq<Manager>, ops: seq<Op>, i: nat, j: nat, egress: nat, x: nat, y: nat, g: nat, h: nat)
    requires Run(ms, ops) && i <= j <= |ops| && AsksRegistered(ms, ops, egress)
    requires egress in ms[i].buckets && Waits(ms, ops, i, j, egress, x) && x != y
    requires i <= g < h < j && GrantsTo(ms[g], ops[g], egress, y)
    ensures !GrantsTo(ms[h], ops[h], egress, y)
  {
    BucketStays(ms, ops, i, g, egress);
    BucketStays(ms, ops, i, g + 1, egress);
    GrantMovesOn(ms[g], ops[g], egress, x, y);
    assert Waits(ms, ops, g + 1, j, egress, x);
    StaysBehind(ms, ops, g + 1, j, egress, x, y);
  }

  // ---------- Starvation ----------

  /**
   * The other side of strict turns: as long as the selected port does not ask and
   * the set of active ports stays as it is, nobody is granted anything, however
   * many tokens there are.
   */
  lemma {:induction false} SilentPortBlocks(ms: seq<Manager>, ops: seq<Op>, i: nat, j: nat, egress: nat)
    requires Run(ms, ops) && i <= j <= |ops| && egress in ms[i].buckets && |ms[i].Active(egress)| >= 2
    requires forall k :: i <= k <= j ==> ms[k].Active(egress) == ms[i].Active(egress)
    requires forall k :: i <= k < j && ops[k].Ask? && ops[k].egress == egress ==>
      ops[k].ingress != SelectNext(ms[i].ArbiterOf(egress))
    ensures egress in ms[j].buckets && ms[j].ArbiterOf(egress) == ms[i].ArbiterOf(egress)
    ensures forall k :: i <= k < j ==> !Grants(ms[k], ops[k], egress)
  {
    if i < j {
      SilentPortBlocks(ms, ops, i, j - 1, egress);
      DoArbiter(ms[j - 1], ops[j - 1], egress);
    }
  }

  /** Without competition a port is granted its token, and stays registered unless this was its last frame. */
  lemma AttemptAlone(m: Manager, egress: nat, ingress: nat, now: real, lastOne: bool)
    requires egress in m.buckets && Affords(m.buckets[egress], now, 1)
    requires m.Active(egress) == {}
    ensures AttemptGranted(m, egress, ingress, now)
    ensures var m1 := Attempt(m, egress, ingress, now, lastOne);
      && m1.buckets == m.buckets[egress := Consume(m.buckets[egress], now, 1)]
      && m1.ArbiterOf(egress) == Arbiter(if lastOne then {} else {ingress}, m.ArbiterOf(egress).lastServed)
      && forall other :: other != egress ==> m1.ArbiterOf(other) == m.ArbiterOf(other)
  {
    assert RegisterDemand(m, egress, ingress).Active(egress) == {ingress};
    assert {ingress} - {ingress} == {};
  }

  lemma NoYield(elapsed: real, pps: real)
    requires elapsed == 0.0
    ensures elapsed * pps == 0.0
  {
  }

  lemma RefillAtOnce(b: Bucket, now: real)
    requires b.lastRefill == now
    ensures Refill(b, now).tokens == if b.pps > 0.0 then Min(b.tokens, b.capacity as real) else b.tokens
  {
    NoYield(now - b.lastRefill, b.pps);
  }

  lemma OneLeft(b: Bucket, now: real)
    requires Affords(b, now, 2)
    ensures Affords(Consume(b, now, 1), now, 1)
  {
    if b.pps > 0.0 {
      var r, c := Refill(b, now), Consume(b, now, 1);
      assert r.lastRefill == now && r.tokens <= r.capacity as real && c == r.(tokens := r.tokens - 1.0);
      RefillAtOnce(c, now);
    }
  }

  /** Port `y` asks while only `x` is registered: from then on it is the turn of `x`, whether or not `y` was granted its token. */
  lemma AttemptAgainst(m: Manager, egress: nat, x: nat, y: nat, now: real)
    requires egress in m.buckets && Affords(m.buckets[egress], now, 1)
    requires m.Active(egress) == {x} && x != y
    ensures var m1 := Attempt(m, egress, y, now, false);
      && m1.Active(egress) == {x, y} && egress in m1.buckets && SelectNext(m1.ArbiterOf(egress)) == x
      && forall other :: other != egress ==> m1.ArbiterOf(other) == m.ArbiterOf(other)
  {
    var d := RegisterDemand(m, egress, y);
    assert d.Active(egress) == {x, y} && |{x, y}| == 2;
    SelectedIsFirst(d.ArbiterOf(egress), x);
    SelectedIsFirst(d.ArbiterOf(egress), y);
    var m1 := Attempt(m, egress, y, now, false);
    SelectedIsFirst(m1.ArbiterOf(egress), x);
    SelectedIsFirst(m1.ArbiterOf(egress), y);
  }

  /**
   * And a port can fall silent for good while registered: DoIngressDrain withdraws
   * a demand only with the last frame of its class queue, so a port whose next
   * frames go elsewhere stays registered. Port `x` sends one frame to `egress` and
   * a last one to `other`; then port `y` asks once, and is refused ever after.
   */
  lemma StaleDemand(m: Manager, egress: nat, other: nat, x: nat, y: nat, now: real)
    requires egress != other && x != y && egress in m.buckets && other in m.buckets
    requires Affords(m.buckets[egress], now, 2) && Affords(m.buckets[other], now, 1)
    requires m.Active(egress) == {} && m.Active(other) == {}
    ensures var m1 := Attempt(m, egress, x, now, false);
      var m2 := Attempt(m1, other, x, now, true);
      var m3 := Attempt(m2, egress, y, now, false);
      && AttemptGranted(m, egress, x, now) && AttemptGranted(m1, other, x, now)
      && m2.Active(egress) == {x} && m3.Active(egress) == {x, y} && m3.Active(other) == {}
      && forall later :: !AttemptGranted(m3, egress, y, later)
  {
    AttemptAlone(m, egress, x, now, false);
    var m1 := Attempt(m, egress, x, now, false);
    AttemptAlone(m1, other, x, now, true);
    var m2 := Attempt(m1, other, x, now, true);
    OneLeft(m.buckets[egress], now);
    AttemptAgainst(m2, egress, x, y, now);
    NeverAgain(Attempt(m2, egress, y, now, false), egress, x, y);
  }

  lemma NeverAgain(m: Manager, egress: nat, x: nat, y: nat)
    requires egress in m.buckets && m.Active(egress) == {x, y} && x != y && SelectNext(m.ArbiterOf(egress)) == x
    ensures forall later :: !AttemptGranted(m, egress, y, later)
  {
    assert {x, y} + {y} == {x, y} && |{x, y}| == 2;
    assert RegisterDemand(m, egress, y).ArbiterOf(egress) == m.ArbiterOf(egress);
  }

  // ---------- Exact round robin ----------

  /** How many active ports have a smaller id. */
  function Rank(s: set<nat>, x: nat): nat {
    |set y | y in s && y < x|
  }

  lemma RankBelow(s: set<nat>, x: nat, y: nat)
    requires x in s && y in s && x < y
    ensures Rank(s, x) < Rank(s, y) < |s|
  {
    var a := set z | z in s && z < x;
    var b := set z | z in s && z < y;
    assert x in b;
    SubsetSize(a, b - {x});
    SubsetSize(b, s - {y});
  }

  lemma RankInjective(s: set<nat>, x: nat, y: nat)
    requires x in s && y in s && Rank(s, x) == Rank(s, y)
    ensures x == y
  {
    if x < y {
      RankBelow(s, x, y);
    } else if y < x {
      RankBelow(s, y, x);
    }
  }

  lemma RankInRange(s: set<nat>, x: nat)
    requires x in s
    ensures Rank(s, x) < |s|
  {
    SubsetSize((set y | y in s && y < x), s - {x});
  }

  /** The next port in turn has the next rank, and the first rank after the last. */
  lemma NextRank(s: set<nat>, last: nat)
    requires last in s
    ensures var next := SelectNext(Arbiter(s, last));
      next in s && Rank(s, next) == if Rank(s, last) + 1 < |s| then Rank(s, last) + 1 else 0
  {
    var arb := Arbiter(s, last);
    var next := SelectNext(arb);
    SelectedIsFirst(arb, last);
    RankInRange(s, last);
    if Above(s, last) != {} {
      forall y | y in s && y < next
        ensures y <= last
      {
        assert y > last ==> y in Above(s, last);
      }
      assert (set y | y in s && y < next) == (set y | y in s && y < last) + {last};
      RankInRange(s, next);
    } else {
      assert (set y | y in s && y < next) == {};
      forall y | y in s && y != last
        ensures y < last
      {
        assert y > last ==> y in Above(s, last);
      }
      assert (set y | y in s && y < last) == s - {last};
    }
  }

  /** The ports granted in turn: each is the one selected after its predecessor. */
  predicate Turns(s: set<nat>, grants: seq<nat>) {
    && (forall k :: 0 <= k < |grants| ==> grants[k] in s)
    && forall k :: 0 < k < |grants| ==> grants[k] == SelectNext(Arbiter(s, grants[k - 1]))
  }

  lemma {:induction false} RankAfter(s: set<nat>, grants: seq<nat>, i: nat, j: nat)
    requires Turns(s, grants) && i <= j < |grants| && j - i <= |s|
    ensures var r := Rank(s, grants[i]) + (j - i);
      Rank(s, grants[j]) == if r < |s| then r else r - |s|
  {
    RankInRange(s, grants[i]);
    if i < j {
      RankAfter(s, grants, i, j - 1);
      NextRank(s, grants[j - 1]);
    }
  }

  /** Fewer than n consecutive grants never serve a port twice. */
  lemma NoRepeat(s: set<nat>, grants: seq<nat>, i: nat, j: nat)
    requires Turns(s, grants) && i < j < |grants| && j - i < |s|
    ensures grants[i] != grants[j]
  {
    RankInRange(s, grants[i]);
    RankAfter(s, grants, i, j);
  }

  /** Any n consecutive grants serve every port. */
  lemma EachServed(s: set<nat>, grants: seq<nat>, i: nat, x: nat)
    requires Turns(s, grants) && i + |s| <= |grants| && x in s
    ensures x in grants[i..i + |s|]
  {
    RankInRange(s, x);
    RankInRange(s, grants[i]);
    var r, q := Rank(s, grants[i]), Rank(s, x);
    var j := i + if q >= r then q - r else q + |s| - r;
    RankAfter(s, grants, i, j);
    RankInjective(s, grants[j], x);
    assert grants[i..i + |s|][j - i] == x;
  }

  function Count(grants: seq<nat>, x: nat): nat {
    if grants == [] then 0 else (if grants[0] == x then 1 else 0) + Count(grants[1..], x)
  }

  lemma {:induction false} CountConcat(a: seq<nat>, b: seq<nat>, x: nat)
    ensures Count(a + b, x) == Count(a, x) + Count(b, x)
  {
    if a == [] {
      assert a + b == b;
    } else {
      assert (a + b)[0] == a[0] && (a + b)[1..] == a[1..] + b;
      CountConcat(a[1..], b, x);
    }
  }

  lemma {:induction false} CountDistinct(grants: seq<nat>, x: nat)
    requires forall i, j :: 0 <= i < j < |grants| ==> grants[i] != grants[j]
    ensures Count(grants, x) == if x in grants then 1 else 0
  {
    if grants != [] {
      CountDistinct(grants[1..], x);
      assert grants == [grants[0]] + grants[1..];
    }
  }

  /** Any n consecutive grants serve each active port exactly once. */
  lemma WindowServesEachOnce(s: set<nat>, grants: seq<nat>, i: nat, x: nat)
    requires Turns(s, grants) && i + |s| <= |grants| && x in s
    ensures Count(grants[i..i + |s|], x) == 1
  {
    var w := grants[i..i + |s|];
    forall a, b | 0 <= a < b < |w|
      ensures w[a] != w[b]
    {
      NoRepeat(s, grants, i + a, i + b);
    }
    EachServed(s, grants, i, x);
    CountDistinct(w, x);
  }

  /** Over any number of grants, no port is ahead of another by more than one. */
  lemma {:induction false} SharesDifferByOne(s: set<nat>, grants: seq<nat>, x: nat, y: nat)
    requires Turns(s, grants) && x in s && y in s
    ensures Count(grants, x) <= Count(grants, y) + 1
    decreases |grants|
  {
    var n := |s|;
    if |grants| < n {
      forall a, b | 0 <= a < b < |grants|
        ensures grants[a] != grants[b]
      {
        NoRepeat(s, grants, a, b);
      }
      CountDistinct(grants, x);
    } else {
      assert grants == grants[..n] + grants[n..];
      assert grants[0..0 + n] == grants[..n];
      WindowServesEachOnce(s, grants, 0, x);
      WindowServesEachOnce(s, grants, 0, y);
      CountConcat(grants[..n], grants[n..], x);
      CountConcat(grants[..n], grants[n..], y);
      assert s != {};
      SharesDifferByOne(s, grants[n..], x, y);
    }
  }

  /** The ports granted on an egress port by the first `k` operations, in order. */
  function GrantList(ms: seq<Manager>, ops: seq<Op>, k: nat, egress: nat): (r: seq<nat>)
    requires k <= |ops| < |ms|
  {
    if k == 0 then []
    else GrantList(ms, ops, k - 1, egress) + if Grants(ms[k - 1], ops[k - 1], egress) then [ops[k - 1].ingress] else []
  }

  lemma TurnsExtend(s: set<nat>, grants: seq<nat>, next: nat)
    requires Turns(s, grants) && next in s
    requires grants != [] ==> next == SelectNext(Arbiter(s, grants[|grants| - 1]))
    ensures Turns(s, grants + [next])
  {
  }

  /** With a fixed set of at least two competing ports, the manager grants strictly in turn. */
  lemma {:induction false} GrantsInTurn(ms: seq<Manager>, ops: seq<Op>, k: nat, egress: nat)
    requires Run(ms, ops) && k <= |ops| && egress in ms[0].buckets && |ms[0].Active(egress)| >= 2
    requires forall i :: 0 <= i < |ms| ==> ms[i].Active(egress) == ms[0].Active(egress)
    ensures var g := GrantList(ms, ops, k, egress);
      && Turns(ms[0].Active(egress), g) && egress in ms[k].buckets
      && ms[k].ArbiterOf(egress).lastServed == if g == [] then ms[0].ArbiterOf(egress).lastServed else g[|g| - 1]
  {
    if k > 0 {
      GrantsInTurn(ms, ops, k - 1, egress);
      StepInTurn(ms[k - 1], ops[k - 1], egress, GrantList(ms, ops, k - 1, egress));
    }
  }

  lemma StepInTurn(m: Manager, op: Op, egress: nat, g: seq<nat>)
    requires egress in m.buckets && |m.Active(egress)| >= 2 && Turns(m.Active(egress), g)
    requires g != [] ==> m.ArbiterOf(egress).lastServed == g[|g| - 1]
    ensures egress in Do(m, op).buckets
    ensures var last1 := Do(m, op).ArbiterOf(egress).lastServed;
      if Grants(m, op, egress) then Turns(m.Active(egress), g + [op.ingress]) && last1 == op.ingress
      else last1 == m.ArbiterOf(egress).lastServed
  {
    DoArbiter(m, op, egress);
    if Grants(m, op, egress) {
      var some :| some in m.Active(egress);
      SelectedIsFirst(m.ArbiterOf(egress), some);
      TurnsExtend(m.Active(egress), g, op.ingress);
    }
  }

  /** Exact round robin over runs: each window of n grants serves every port once, and shares differ by at most one. */
  lemma RoundRobin(ms: seq<Manager>, ops: seq<Op>, egress: nat, i: nat, x: nat, y: nat)
    requires Run(ms, ops) && egress in ms[0].buckets && |ms[0].Active(egress)| >= 2
    requires forall k :: 0 <= k < |ms| ==> ms[k].Active(egress) == ms[0].Active(egress)
    requires x in ms[0].Active(egress) && y in ms[0].Active(egress)
    ensures var n, g := |ms[0].Active(egress)|, GrantList(ms, ops, |ops|, egress);
      && (i + n <= |g| ==> Count(g[i..i + n], x) == 1)
      && Count(g, x) <= Count(g, y) + 1
  {
    var active, g := ms[0].Active(egress), GrantList(ms, ops, |ops|, egress);
    GrantsInTurn(ms, ops, |ops|, egress);
    assert Turns(active, g);
    TurnsAreFair(active, g, i, x, y);
  }

  lemma TurnsAreFair(s: set<nat>, g: seq<nat>, i: nat, x: nat, y: nat)
    requires Turns(s, g) && x in s && y in s
    ensures i + |s| <= |g| ==> Count(g[i..i + |s|], x) == 1
    ensures Count(g, x) <= Count(g, y) + 1
  {
    if i + |s| <= |g| {
      WindowServesEachOnce(s, g, i, x);
    }
    SharesDifferByOne(s, g, x, y);
  }
}
