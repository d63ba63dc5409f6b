/** When the entries that Gather records are in the order in which Uniquefy was meant to leave them. */
module TypeOrder {
  import opened Sequences
  import opened UniqueItems
  import opened TypePaths
  import opened TypeRepeats

  // ---------- The order of the walks ----------

  /** Depth first: a walk comes before those that continue it, and then the earlier edge comes first. */
  predicate WalkLess(u: seq<nat>, v: seq<nat>) {
    v != [] && (u == [] || u[0] < v[0] || (u[0] == v[0] && WalkLess(u[1..], v[1..])))
  }

  lemma {:induction false} WalkOrder(u: seq<nat>, v: seq<nat>)
    ensures !(WalkLess(u, v) && WalkLess(v, u)) && (u == v ==> !WalkLess(u, v))
  {
    if u != [] && v != [] && u[0] == v[0] {
      WalkOrder(u[1..], v[1..]);
    }
  }

  predicate Ordered(walks: seq<seq<nat>>) {
    forall k, l :: 0 <= k < l < |walks| ==> WalkLess(walks[k], walks[l])
  }

  lemma OrderedConcat(a: seq<seq<nat>>, b: seq<seq<nat>>)
    requires Ordered(a) && Ordered(b)
    requires forall k, l :: 0 <= k < |a| && 0 <= l < |b| ==> WalkLess(a[k], b[l])
    ensures Ordered(a + b)
  {
  }

  lemma {:induction false} ThroughAt(i: nat, walks: seq<seq<nat>>)
    ensures |Through(i, walks)| == |walks|
    ensures forall k :: 0 <= k < |walks| ==> Through(i, walks)[k] == [i] + walks[k]
  {
    if walks != [] {
      ThroughAt(i, walks[..|walks| - 1]);
    }
  }

  lemma ThroughOrdered(i: nat, walks: seq<seq<nat>>)
    requires Ordered(walks)
    ensures Ordered(Through(i, walks))
  {
    ThroughAt(i, walks);
    forall k, l | 0 <= k < l < |walks|
      ensures WalkLess(Through(i, walks)[k], Through(i, walks)[l])
    {
      assert ([i] + walks[k])[1..] == walks[k] && ([i] + walks[l])[1..] == walks[l];
    }
  }

  /** The walks are found in that order. */
  lemma {:induction false} WalksInOrder(g: Graph, processed: seq<Tid>, tid: Tid)
    requires Closed(g) && tid in g
    ensures Ordered(Walks(g, processed, tid))
    decreases |Free(g, processed)|, 0
  {
    if tid !in processed {
      FreeShrinks(g, processed, tid);
      BelowInOrder(g, processed + [tid], tid, |g[tid]|);
      var below := WalksBelow(g, processed + [tid], tid, |g[tid]|);
      forall l | 0 <= l < |below|
        ensures WalkLess([], below[l])
      {
        BelowAreSimple(g, processed + [tid], tid, |g[tid]|, below[l]);
      }
      OrderedConcat([[]], below);
    }
  }

  lemma {:induction false} BelowInOrder(g: Graph, processed: seq<Tid>, tid: Tid, n: nat)
    requires Closed(g) && tid in g && n <= |g[tid]|
    ensures Ordered(WalksBelow(g, processed, tid, n))
    decreases |Free(g, processed)|, n
  {
    if n > 0 {
      BelowInOrder(g, processed, tid, n - 1);
      var below, walks := WalksBelow(g, processed, tid, n - 1), Walks(g, processed, g[tid][n - 1].target);
      WalksInOrder(g, processed, g[tid][n - 1].target);
      ThroughOrdered(n - 1, walks);
      ThroughAt(n - 1, walks);
      forall k | 0 <= k < |below|
        ensures below[k] != [] && below[k][0] < n - 1
      {
        BelowAreSimple(g, processed, tid, n - 1, below[k]);
      }
      OrderedConcat(below, Through(n - 1, walks));
    }
  }

  // ---------- The order of the entries ----------

  /** A simple walk goes on only to a type with a larger number. */
  predicate StepUp(g: Graph, processed: seq<Tid>, tid: Tid, w: seq<nat>, i: nat) {
    IsSimple(g, processed, tid, w + [i]) ==> End(g, tid, w) < End(g, tid, w + [i])
  }

  /** What is recorded beyond an edge comes before what is recorded for a later edge of the same type. */
  predicate InTurn(
    g: Graph, names: map<Tid, string>, processed: seq<Tid>, path: seq<Part>, tid: Tid, w: seq<nat>, i: nat, x: seq<nat>, j: nat)
  {
    i < j && IsSimple(g, processed, tid, w + [i] + x) && IsSimple(g, processed, tid, w + [j]) ==>
      ItemLess(Entry(g, names, path, tid, w + [i] + x), Entry(g, names, path, tid, w + [j]))
  }

  ghost predicate Climbs(g: Graph, names: map<Tid, string>, processed: seq<Tid>, path: seq<Part>, tid: Tid) {
    && (forall w: seq<nat>, i: nat :: StepUp(g, processed, tid, w, i))
    && forall w: seq<nat>, i: nat, x: seq<nat>, j: nat :: InTurn(g, names, processed, path, tid, w, i, x, j)
  }

  /** Of two walks, the later one either continues the earlier one or leaves it by a later edge. */
  lemma {:induction false} Parting(u: seq<nat>, v: seq<nat>) returns (n: nat)
    requires WalkLess(u, v)
    ensures n <= |u| && n < |v| && u[..n] == v[..n] && (n < |u| ==> u[n] < v[n])
  {
    if u == [] || u[0] < v[0] {
      n := 0;
    } else {
      var k := Parting(u[1..], v[1..]);
      n := k + 1;
      assert u[..n] == [u[0]] + u[1..][..k] && v[..n] == [v[0]] + v[1..][..k];
    }
  }

  /** Going on, the numbers only grow. */
  lemma {:induction false} Climb(g: Graph, processed: seq<Tid>, tid: Tid, w: seq<nat>, y: seq<nat>)
    requires forall w: seq<nat>, i: nat :: StepUp(g, processed, tid, w, i)
    requires IsSimple(g, processed, tid, w + y)
    ensures if y == [] then End(g, tid, w + y) == End(g, tid, w) else End(g, tid, w) < End(g, tid, w + y)
    decreases |y|
  {
    if y == [] {
      assert w + y == w;
    } else {
      var front, last := y[..|y| - 1], y[|y| - 1];
      assert w + y == (w + front) + [last];
      SimpleFront(g, processed, tid, w + front, [last]);
      Climb(g, processed, tid, w, front);
      assert StepUp(g, processed, tid, w + front, last);
    }
  }

  /** Under these conditions an earlier walk has the smaller entry. */
  lemma EarlierIsLess(g: Graph, names: map<Tid, string>, processed: seq<Tid>, path: seq<Part>, tid: Tid, u: seq<nat>, v: seq<nat>)
    requires Climbs(g, names, processed, path, tid) && WalkLess(u, v)
    requires IsSimple(g, processed, tid, u) && IsSimple(g, processed, tid, v)
    ensures ItemLess(Entry(g, names, path, tid, u), Entry(g, names, path, tid, v))
  {
    var n := Parting(u, v);
    var w := v[..n];
    if n == |u| {
      assert u == w && v == u + v[n..];
      Climb(g, processed, tid, u, v[n..]);
    } else {
      var i, x, j, y := u[n], u[n + 1..], v[n], v[n + 1..];
      assert u == w + [i] + x && v == (w + [j]) + y;
      LaterEdgeIsLess(g, names, processed, path, tid, w, i, x, j, y);
    }
  }

  lemma LaterEdgeIsLess(
    g: Graph, names: map<Tid, string>, processed: seq<Tid>, path: seq<Part>, tid: Tid,
    w: seq<nat>, i: nat, x: seq<nat>, j: nat, y: seq<nat>)
    requires Climbs(g, names, processed, path, tid) && i < j
    requires IsSimple(g, processed, tid, w + [i] + x) && IsSimple(g, processed, tid, (w + [j]) + y)
    ensures ItemLess(Entry(g, names, path, tid, w + [i] + x), Entry(g, names, path, tid, (w + [j]) + y))
  {
    SimpleFront(g, processed, tid, w + [j], y);
    assert InTurn(g, names, processed, path, tid, w, i, x, j);
    Climb(g, processed, tid, w + [j], y);
    if y == [] {
      assert (w + [j]) + y == w + [j];
    }
  }

  /** In a sorted output an earlier walk has the smaller entry. */
  lemma SortedIsLess(g: Graph, names: map<Tid, string>, processed: seq<Tid>, path: seq<Part>, tid: Tid, u: seq<nat>, v: seq<nat>)
    requires Closed(g) && tid in g && StrictlySorted(Gathered(g, names, processed, path, tid)) && WalkLess(u, v)
    requires IsSimple(g, processed, tid, u) && IsSimple(g, processed, tid, v)
    ensures ItemLess(Entry(g, names, path, tid, u), Entry(g, names, path, tid, v))
  {
    var k := WalkIndex(g, processed, tid, u);
    var l := WalkIndex(g, processed, tid, v);
    GatheredAt(g, names, processed, path, tid, k);
    GatheredAt(g, names, processed, path, tid, l);
    WalksInOrder(g, processed, tid);
    WalkOrder(u, v);
  }

  lemma {:induction false} AfterCommon(w: seq<nat>, u: seq<nat>, v: seq<nat>)
    requires WalkLess(u, v)
    ensures WalkLess(w + u, w + v)
  {
    if w == [] {
      assert w + u == u && w + v == v;
    } else {
      AfterCommon(w[1..], u, v);
      assert (w + u)[1..] == w[1..] + u && (w + v)[1..] == w[1..] + v;
    }
  }

  /**
   * The output is strictly sorted, as Uniquefy would have left it, exactly if simple
   * walks only go to types with larger numbers and the edges of every type are in turn.
   */
  lemma SortedIff(g: Graph, names: map<Tid, string>, processed: seq<Tid>, path: seq<Part>, tid: Tid)
    requires Closed(g) && tid in g
    ensures StrictlySorted(Gathered(g, names, processed, path, tid)) <==> Climbs(g, names, processed, path, tid)
  {
    var out, walks := Gathered(g, names, processed, path, tid), Walks(g, processed, tid);
    EntriesLength(g, names, path, tid, walks);
    if Climbs(g, names, processed, path, tid) {
      WalksInOrder(g, processed, tid);
      forall k, l | 0 <= k < l < |out|
        ensures ItemLess(out[k], out[l])
      {
        GatheredAt(g, names, processed, path, tid, k);
        GatheredAt(g, names, processed, path, tid, l);
        EarlierIsLess(g, names, processed, path, tid, walks[k], walks[l]);
      }
    }
    if StrictlySorted(out) {
      SortedClimbs(g, names, processed, path, tid);
    }
  }

  lemma SortedClimbs(g: Graph, names: map<Tid, string>, processed: seq<Tid>, path: seq<Part>, tid: Tid)
    requires Closed(g) && tid in g && StrictlySorted(Gathered(g, names, processed, path, tid))
    ensures Climbs(g, names, processed, path, tid)
  {
    forall w: seq<nat>, i: nat
      ensures StepUp(g, processed, tid, w, i)
    {
      if IsSimple(g, processed, tid, w + [i]) {
        SimpleFront(g, processed, tid, w, [i]);
        AfterCommon(w, [], [i]);
        assert w + [] == w;
        SortedIsLess(g, names, processed, path, tid, w, w + [i]);
        DifferentEnds(g, processed, tid, w, i);
      }
    }
    forall w: seq<nat>, i: nat, x: seq<nat>, j: nat
      ensures InTurn(g, names, processed, path, tid, w, i, x, j)
    {
      if i < j && IsSimple(g, processed, tid, w + [i] + x) && IsSimple(g, processed, tid, w + [j]) {
        AfterCommon(w, [i] + x, [j]);
        assert w + [i] + x == w + ([i] + x);
        SortedIsLess(g, names, processed, path, tid, w + [i] + x, w + [j]);
      }
    }
  }

  lemma DifferentEnds(g: Graph, processed: seq<Tid>, tid: Tid, w: seq<nat>, i: nat)
    requires Closed(g) && IsSimple(g, processed, tid, w + [i]) && IsSimple(g, processed, tid, w)
    ensures End(g, tid, w) != End(g, tid, w + [i])
  {
    EndKnown(g, tid, w);
    EdgeChosen(g, tid, w, i);
    VisitedSnoc(g, tid, w, i);
    var v, v1 := Visited(g, tid, w), Visited(g, tid, w + [i]);
    assert v1[|v| - 1] == v[|v| - 1] && |v| - 1 == |w|;
  }

  lemma {:induction false} EdgeChosen(g: Graph, tid: Tid, w: seq<nat>, i: nat)
    requires IsWalk(g, tid, w + [i]) && IsWalk(g, tid, w) && End(g, tid, w) in g
    ensures i < |g[End(g, tid, w)]|
    decreases |w|
  {
    if w == [] {
      assert w + [i] == [i];
    } else {
      EndCons(g, tid, w);
      assert (w + [i])[1..] == w[1..] + [i];
      EdgeChosen(g, g[tid][w[0]].target, w[1..], i);
    }
  }

  // ---------- A registry whose output is out of order ----------

  /** Type 2 has a pointer to type 1, which was registered before it. */
  const DOWN := Registry([1, 2], map[1 := "A", 2 := "B"], map[2 := [Attribute("p", Pointer(1))]], {}, [], 0)

  lemma DownEdges()
    ensures GraphOf(DOWN) == map[1 := [], 2 := [Edge(Name("p"), 1)]]
  {
    var a := [Attribute("p", Pointer(1))];
    assert DOWN.registered[1..] == [2] && [2][1..] == [] && a[1..] == [];
    assert AttributesOf(DOWN, 2) == a && AttributesOf(DOWN, 1) == [];
    assert AttributeEdges(DOWN, a) == [Edge(Name("p"), 1)] + AttributeEdges(DOWN, []);
    assert DerivedEdges(DOWN, 1, [2]) == [] == DerivedEdges(DOWN, 2, [2]);
    assert Edges(DOWN, 2) == [Edge(Name("p"), 1)];
    assert Edges(DOWN, 1) == [];
  }

  lemma DownWalks(g: Graph)
    requires g == map[1 := [], 2 := [Edge(Name("p"), 1)]]
    ensures Closed(g) && Walks(g, [], 2) == [[], [0]]
  {
    assert [] + [2] == [2];
    assert Walks(g, [2], 1) == [[]] + WalksBelow(g, [2, 1], 1, 0) == [[]];
    ThroughEmpty(0);
    assert WalksBelow(g, [2], 2, 1) == WalksBelow(g, [2], 2, 0) + [[0]] == [[0]];
    assert Walks(g, [], 2) == [[]] + WalksBelow(g, [2], 2, 1);
  }

  lemma DownRecorded()
    ensures Closed(GraphOf(DOWN))
    ensures Gathered(GraphOf(DOWN), DOWN.names, [], [], 2) == [(2, ""), (1, "/p")]
    ensures !StrictlySorted(Gathered(GraphOf(DOWN), DOWN.names, [], [], 2))
  {
    DownEdges();
    DownWalks(GraphOf(DOWN));
    OneEdgeEntries(GraphOf(DOWN), DOWN.names, 2);
    assert "/" + PartString(DOWN.names, Name("p")) == "/p";
    OutOfOrder((2, ""), (1, "/p"));
  }

  lemma OutOfOrder(x: Item, y: Item)
    requires y.0 < x.0
    ensures !StrictlySorted([x, y])
  {
    assert !ItemLess([x, y][0], [x, y][1]);
  }
}
