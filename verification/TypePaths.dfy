/**
 * The configuration paths of the introspection program: from a type, through pointer
 * attributes, object containers, derived types and aggregations, to every type that a
 * path without repeated types reaches.
 */
module TypePaths {
  import opened Sequences
  import opened UniqueItems

  /** Types are numbers, as their identifiers are. */
  type Tid = nat

  type Pair = (Tid, string)

  datatype Checker = Pointer(pointee: Tid) | Container(item: Tid) | Other

  datatype Attribute = Attribute(name: string, checker: Checker)

  /** The registered types, in order, with their names, and how they hang together. */
  datatype Registry = Registry(
    registered: seq<Tid>,
    names: map<Tid, string>,
    attributes: map<Tid, seq<Attribute>>,
    derived: set<(Tid, Tid)>,
    aggregates: seq<(Tid, Tid)>,
    objectTid: Tid
  )

  /** An element of a path: an attribute, an element of a container, or a type. */
  datatype Part = Name(name: string) | Element(name: string) | Type(tid: Tid)

  datatype Edge = Edge(part: Part, target: Tid)

  function AttributesOf(r: Registry, tid: Tid): seq<Attribute> {
    if tid in r.attributes then r.attributes[tid] else []
  }

  /** Pointers to the root type of all objects are not followed. */
  function AttributeEdges(r: Registry, attributes: seq<Attribute>): seq<Edge> {
    if attributes == [] then []
    else
      var rest := AttributeEdges(r, attributes[1..]);
      match attributes[0].checker
      case Pointer(pointee) => if pointee == r.objectTid then rest else [Edge(Name(attributes[0].name), pointee)] + rest
      case Container(item) => [Edge(Element(attributes[0].name), item)] + rest
      case Other => rest
  }

  function DerivedEdges(r: Registry, tid: Tid, types: seq<Tid>): seq<Edge> {
    if types == [] then []
    else
      var rest := DerivedEdges(r, tid, types[1..]);
      if (types[0], tid) in r.derived then [Edge(Type(types[0]), types[0])] + rest else rest
  }

  function AggregateEdges(tid: Tid, aggregates: seq<(Tid, Tid)>): seq<Edge> {
    if aggregates == [] then []
    else
      var rest := AggregateEdges(tid, aggregates[1..]);
      if aggregates[0].1 == tid then [Edge(Type(aggregates[0].0), aggregates[0].0)] + rest
      else if aggregates[0].0 == tid then [Edge(Type(aggregates[0].1), aggregates[0].1)] + rest
      else rest
  }

  function Edges(r: Registry, tid: Tid): seq<Edge> {
    AttributeEdges(r, AttributesOf(r, tid)) + DerivedEdges(r, tid, r.registered) + AggregateEdges(tid, r.aggregates)
  }

  function NameOf(names: map<Tid, string>, tid: Tid): string {
    if tid in names then names[tid] else ""
  }

  function PartString(names: map<Tid, string>, part: Part): string {
    match part
    case Name(name) => name
    case Element(name) => name + "/[i]"
    case Type(tid) => "$" + NameOf(names, tid)
  }

  function PathString(names: map<Tid, string>, path: seq<Part>): string {
    if path == [] then "" else PathString(names, path[..|path| - 1]) + "/" + PartString(names, path[|path| - 1])
  }

  // ---------- What the edges and the path strings are, element by element ----------

  /** Each attribute gives its edge, in order: a pointer unless it leads to the root type, a container always, anything else none. */
  lemma {:induction false} AttributeEdgesFrom(r: Registry, a: seq<Attribute>, x: Attribute, b: seq<Attribute>)
    ensures AttributeEdges(r, a + [x] + b) == AttributeEdges(r, a) + AttributeEdges(r, [x]) + AttributeEdges(r, b)
    ensures AttributeEdges(r, []) == []
    ensures AttributeEdges(r, [x]) ==
      match x.checker
      case Pointer(t) => if t == r.objectTid then [] else [Edge(Name(x.name), t)]
      case Container(t) => [Edge(Element(x.name), t)]
      case Other => []
  {
    assert [x][1..] == [];
    if a == [] {
      assert a + [x] + b == [x] + b && ([x] + b)[1..] == b;
    } else {
      AttributeEdgesFrom(r, a[1..], x, b);
      assert (a + [x] + b)[1..] == a[1..] + [x] + b;
    }
  }

  /** Each registered type that is derived gives an edge, in the order of registration. */
  lemma {:induction false} DerivedEdgesFrom(r: Registry, tid: Tid, a: seq<Tid>, x: Tid, b: seq<Tid>)
    ensures DerivedEdges(r, tid, a + [x] + b) == DerivedEdges(r, tid, a) + DerivedEdges(r, tid, [x]) + DerivedEdges(r, tid, b)
    ensures DerivedEdges(r, tid, []) == []
    ensures DerivedEdges(r, tid, [x]) == if (x, tid) in r.derived then [Edge(Type(x), x)] else []
  {
    assert [x][1..] == [];
    if a == [] {
      assert a + [x] + b == [x] + b && ([x] + b)[1..] == b;
    } else {
      DerivedEdgesFrom(r, tid, a[1..], x, b);
      assert (a + [x] + b)[1..] == a[1..] + [x] + b;
    }
  }

  /** Each aggregation of the type, on either side, gives an edge to the other side, in order. */
  lemma {:induction false} AggregateEdgesFrom(tid: Tid, a: seq<(Tid, Tid)>, x: (Tid, Tid), b: seq<(Tid, Tid)>)
    ensures AggregateEdges(tid, a + [x] + b) == AggregateEdges(tid, a) + AggregateEdges(tid, [x]) + AggregateEdges(tid, b)
    ensures AggregateEdges(tid, []) == []
    ensures AggregateEdges(tid, [x]) ==
      if x.0 != tid && x.1 != tid then []
      else var other := if x.1 == tid then x.0 else x.1; [Edge(Type(other), other)]
  {
    assert [x][1..] == [];
    if a == [] {
      assert a + [x] + b == [x] + b && ([x] + b)[1..] == b;
    } else {
      AggregateEdgesFrom(tid, a[1..], x, b);
      assert (a + [x] + b)[1..] == a[1..] + [x] + b;
    }
  }

  /** A path is read from left to right: each element behind a slash, a container with its index, a type with a dollar sign. */
  lemma PathStringFrom(names: map<Tid, string>, path: seq<Part>, x: Part)
    ensures PathString(names, []) == ""
    ensures var s := PathString(names, path + [x]);
      && (x.Name? ==> s == PathString(names, path) + "/" + x.name)
      && (x.Element? ==> s == PathString(names, path) + "/" + (x.name + "/[i]"))
      && (x.Type? && x.tid in names ==> s == PathString(names, path) + "/" + ("$" + names[x.tid]))
  {
    assert (path + [x])[..|path|] == path;
  }

  /** The edges of every registered type. */
  type Graph = map<Tid, seq<Edge>>

  function GraphOf(r: Registry): Graph {
    map tid | tid in r.registered :: Edges(r, tid)
  }

  predicate HasEdgesOf(g: Graph, r: Registry, tid: Tid) {
    tid in g ==> g[tid] == Edges(r, tid)
  }

  ghost predicate Describes(g: Graph, r: Registry) {
    forall tid :: HasEdgesOf(g, r, tid)
  }

  /** Everything a type refers to is itself registered. */
  predicate Closed(g: Graph) {
    forall tid, i :: tid in g && 0 <= i < |g[tid]| ==> g[tid][i].target in g
  }

  // ---------- Walks ----------

  /** A walk is the choice of an edge at each type on the way. */
  predicate IsWalk(g: Graph, tid: Tid, w: seq<nat>)
    decreases |w|
  {
    tid in g && (w == [] || (w[0] < |g[tid]| && IsWalk(g, g[tid][w[0]].target, w[1..])))
  }

  /** The types on the way, as far as the chosen edges exist. */
  function Visited(g: Graph, tid: Tid, w: seq<nat>): (r: seq<Tid>)
    ensures r != [] && r[0] == tid && (IsWalk(g, tid, w) ==> |r| == |w| + 1)
    decreases |w|
  {
    if tid !in g || w == [] || w[0] >= |g[tid]| then [tid] else [tid] + Visited(g, g[tid][w[0]].target, w[1..])
  }

  function Parts(g: Graph, tid: Tid, w: seq<nat>): seq<Part>
    decreases |w|
  {
    if tid !in g || w == [] || w[0] >= |g[tid]| then []
    else [g[tid][w[0]].part] + Parts(g, g[tid][w[0]].target, w[1..])
  }

  function End(g: Graph, tid: Tid, w: seq<nat>): Tid {
    Visited(g, tid, w)[|Visited(g, tid, w)| - 1]
  }

  /** No type is visited twice, and none that is being processed already. */
  predicate IsSimple(g: Graph, processed: seq<Tid>, tid: Tid, w: seq<nat>) {
    && IsWalk(g, tid, w)
    && (forall i, j :: 0 <= i < j <= |w| ==> Visited(g, tid, w)[i] != Visited(g, tid, w)[j])
    && (forall i :: 0 <= i <= |w| ==> Visited(g, tid, w)[i] !in processed)
  }

  function Free(g: Graph, processed: seq<Tid>): set<Tid> {
    (set t | t in g) - (set t | t in processed)
  }

  lemma FreeShrinks(g: Graph, processed: seq<Tid>, tid: Tid)
    requires tid in g && tid !in processed
    ensures |Free(g, processed + [tid])| < |Free(g, processed)|
  {
    var a, b := Free(g, processed), Free(g, processed + [tid]);
    assert a == b + {tid};
    assert |b + {tid}| == |b| + 1 by {
      assert tid !in b;
    }
  }

  function Through(i: nat, walks: seq<seq<nat>>): seq<seq<nat>> {
    if walks == [] then [] else Through(i, walks[..|walks| - 1]) + [[i] + walks[|walks| - 1]]
  }

  /** The walks in the order in which they are found. */
  function Walks(g: Graph, processed: seq<Tid>, tid: Tid): seq<seq<nat>>
    requires Closed(g) && tid in g
    decreases |Free(g, processed)|, 0
  {
    if tid in processed then []
    else
      FreeShrinks(g, processed, tid);
      [[]] + WalksBelow(g, processed + [tid], tid, |g[tid]|)
  }

  /** The walks that start with one of the first `n` edges. */
  function WalksBelow(g: Graph, processed: seq<Tid>, tid: Tid, n: nat): seq<seq<nat>>
    requires Closed(g) && tid in g && n <= |g[tid]|
    decreases |Free(g, processed)|, n
  {
    if n == 0 then []
    else WalksBelow(g, processed, tid, n - 1) + Through(n - 1, Walks(g, processed, g[tid][n - 1].target))
  }

  // ---------- The walks are exactly the simple ones ----------

  lemma SimpleEmpty(g: Graph, processed: seq<Tid>, tid: Tid)
    ensures IsSimple(g, processed, tid, []) <==> tid in g && tid !in processed
  {
    assert Visited(g, tid, [])[0] == tid;
  }

  lemma SimpleCons(g: Graph, processed: seq<Tid>, tid: Tid, w: seq<nat>)
    requires tid in g && w != [] && w[0] < |g[tid]|
    ensures IsSimple(g, processed, tid, w)
            <==> tid !in processed && IsSimple(g, processed + [tid], g[tid][w[0]].target, w[1..])
  {
    var next := g[tid][w[0]].target;
    if IsWalk(g, tid, w) {
      var v, v1 := Visited(g, tid, w), Visited(g, next, w[1..]);
      assert v == [tid] + v1;
      if IsSimple(g, processed, tid, w) {
        forall i | 0 <= i <= |w[1..]|
          ensures v1[i] !in processed + [tid]
        {
          assert v1[i] == v[i + 1] && v[0] != v[i + 1];
        }
        forall i, j | 0 <= i < j <= |w[1..]|
          ensures v1[i] != v1[j]
        {
          assert v[i + 1] != v[j + 1];
        }
      }
      if tid !in processed && IsSimple(g, processed + [tid], next, w[1..]) {
        forall i | 0 <= i <= |w|
          ensures v[i] !in processed
        {
          assert i > 0 ==> v[i] == v1[i - 1];
        }
        forall i, j | 0 <= i < j <= |w|
          ensures v[i] != v[j]
        {
          assert v[j] == v1[j - 1] && v1[j - 1] !in processed + [tid];
          assert i > 0 ==> v[i] == v1[i - 1];
        }
      }
    }
  }

  /** Every simple walk is found, and nothing else. */
  lemma {:induction false} WalksAreSimple(g: Graph, processed: seq<Tid>, tid: Tid, w: seq<nat>)
    requires Closed(g) && tid in g
    ensures w in Walks(g, processed, tid) <==> IsSimple(g, processed, tid, w)
    decreases |Free(g, processed)|, 0
  {
    if tid in processed {
      assert IsWalk(g, tid, w) ==> Visited(g, tid, w)[0] == tid;
    } else {
      FreeShrinks(g, processed, tid);
      BelowAreSimple(g, processed + [tid], tid, |g[tid]|, w);
      if w == [] {
        SimpleEmpty(g, processed, tid);
        assert Walks(g, processed, tid)[0] == [];
      } else if w[0] < |g[tid]| {
        SimpleCons(g, processed, tid, w);
      }
    }
  }

  lemma {:induction false} BelowAreSimple(g: Graph, processed: seq<Tid>, tid: Tid, n: nat, w: seq<nat>)
    requires Closed(g) && tid in g && n <= |g[tid]|
    ensures w in WalksBelow(g, processed, tid, n)
            <==> w != [] && w[0] < n && IsSimple(g, processed, g[tid][w[0]].target, w[1..])
    decreases |Free(g, processed)|, n
  {
    if n > 0 {
      BelowAreSimple(g, processed, tid, n - 1, w);
      var next := g[tid][n - 1].target;
      ThroughHas(n - 1, Walks(g, processed, next), w);
      if w != [] {
        WalksAreSimple(g, processed, next, w[1..]);
      }
    }
  }

  lemma {:induction false} ThroughHas(i: nat, walks: seq<seq<nat>>, w: seq<nat>)
    ensures w in Through(i, walks) <==> w != [] && w[0] == i && w[1..] in walks
  {
    if walks != [] {
      var n := |walks| - 1;
      ThroughHas(i, walks[..n], w);
      assert walks == walks[..n] + [walks[n]];
      assert w == [i] + walks[n] <==> w != [] && w[0] == i && w[1..] == walks[n];
    }
  }

  lemma {:induction false} ThroughDistinct(i: nat, walks: seq<seq<nat>>)
    requires Distinct(walks)
    ensures Distinct(Through(i, walks))
  {
    if walks != [] {
      var n := |walks| - 1;
      ThroughDistinct(i, walks[..n]);
      ThroughHas(i, walks[..n], [i] + walks[n]);
      DistinctConcat(Through(i, walks[..n]), [[i] + walks[n]]);
    }
  }

  /** Every walk is found once. */
  lemma {:induction false} WalksDistinct(g: Graph, processed: seq<Tid>, tid: Tid)
    requires Closed(g) && tid in g
    ensures Distinct(Walks(g, processed, tid))
    decreases |Free(g, processed)|, 0
  {
    if tid !in processed {
      FreeShrinks(g, processed, tid);
      BelowDistinct(g, processed + [tid], tid, |g[tid]|);
      var below := WalksBelow(g, processed + [tid], tid, |g[tid]|);
      forall j | 0 <= j < |below|
        ensures below[j] != []
      {
        BelowAreSimple(g, processed + [tid], tid, |g[tid]|, below[j]);
      }
      assert Distinct<seq<nat>>([[]]);
      DistinctConcat([[]], below);
    }
  }

  lemma {:induction false} BelowDistinct(g: Graph, processed: seq<Tid>, tid: Tid, n: nat)
    requires Closed(g) && tid in g && n <= |g[tid]|
    ensures Distinct(WalksBelow(g, processed, tid, n))
    decreases |Free(g, processed)|, n
  {
    if n > 0 {
      BelowDistinct(g, processed, tid, n - 1);
      var walks := Walks(g, processed, g[tid][n - 1].target);
      WalksDistinct(g, processed, g[tid][n - 1].target);
      ThroughDistinct(n - 1, walks);
      var through := Through(n - 1, walks);
      forall j | 0 <= j < |through|
        ensures through[j] !in WalksBelow(g, processed, tid, n - 1)
      {
        ThroughHas(n - 1, walks, through[j]);
        BelowAreSimple(g, processed, tid, n - 1, through[j]);
      }
      DistinctConcat(WalksBelow(g, processed, tid, n - 1), through);
    }
  }

  // ---------- What is recorded ----------

  /** What is recorded for a walk: its last type and its path, extending the current one. */
  function Entry(g: Graph, names: map<Tid, string>, path: seq<Part>, tid: Tid, w: seq<nat>): Pair {
    (End(g, tid, w), PathString(names, path + Parts(g, tid, w)))
  }

  function Entries(g: Graph, names: map<Tid, string>, path: seq<Part>, tid: Tid, walks: seq<seq<nat>>): seq<Pair> {
    if walks == [] then []
    else Entries(g, names, path, tid, walks[..|walks| - 1]) + [Entry(g, names, path, tid, walks[|walks| - 1])]
  }

  lemma {:induction false} EntriesConcat(g: Graph, names: map<Tid, string>, path: seq<Part>, tid: Tid, a: seq<seq<nat>>, b: seq<seq<nat>>)
    ensures Entries(g, names, path, tid, a + b) == Entries(g, names, path, tid, a) + Entries(g, names, path, tid, b)
  {
    if b == [] {
      assert a + b == a;
    } else {
      var n := |b| - 1;
      EntriesConcat(g, names, path, tid, a, b[..n]);
      assert (a + b)[..|a + b| - 1] == a + b[..n] && (a + b)[|a + b| - 1] == b[n];
      SeqAssoc(Entries(g, names, path, tid, a), Entries(g, names, path, tid, b[..n]), [Entry(g, names, path, tid, b[n])]);
    }
  }

  lemma EntryThrough(g: Graph, names: map<Tid, string>, path: seq<Part>, tid: Tid, i: nat, w: seq<nat>)
    requires tid in g && i < |g[tid]|
    ensures Entry(g, names, path, tid, [i] + w) == Entry(g, names, path + [g[tid][i].part], g[tid][i].target, w)
  {
    var e := g[tid][i];
    assert ([i] + w)[1..] == w;
    assert path + ([e.part] + Parts(g, e.target, w)) == (path + [e.part]) + Parts(g, e.target, w);
  }

  /** The entries of the walks through an edge extend the path by its part. */
  lemma {:induction false} EntriesThrough(g: Graph, names: map<Tid, string>, path: seq<Part>, tid: Tid, i: nat, walks: seq<seq<nat>>)
    requires tid in g && i < |g[tid]|
    ensures Entries(g, names, path, tid, Through(i, walks)) == Entries(g, names, path + [g[tid][i].part], g[tid][i].target, walks)
  {
    if walks != [] {
      var n := |walks| - 1;
      EntriesThrough(g, names, path, tid, i, walks[..n]);
      EntryThrough(g, names, path, tid, i, walks[n]);
      assert Through(i, walks)[..|Through(i, walks)| - 1] == Through(i, walks[..n]);
    }
  }

  lemma EntriesNext(g: Graph, names: map<Tid, string>, path: seq<Part>, tid: Tid, i: nat, below: seq<seq<nat>>, walks: seq<seq<nat>>)
    requires tid in g && i < |g[tid]|
    ensures Entries(g, names, path, tid, below + Through(i, walks))
            == Entries(g, names, path, tid, below) + Entries(g, names, path + [g[tid][i].part], g[tid][i].target, walks)
  {
    EntriesConcat(g, names, path, tid, below, Through(i, walks));
    EntriesThrough(g, names, path, tid, i, walks);
  }

  lemma EntriesFirst(g: Graph, names: map<Tid, string>, path: seq<Part>, tid: Tid)
    ensures Entries(g, names, path, tid, [[]]) == [(tid, PathString(names, path))]
  {
    assert path + [] == path;
    assert Entry(g, names, path, tid, []) == (tid, PathString(names, path));
    assert Entries(g, names, path, tid, [[]]) == [] + [Entry(g, names, path, tid, [])];
  }

  /** What a call records: the entries of the simple walks from its argument, in the order of the walks. */
  function Gathered(g: Graph, names: map<Tid, string>, processed: seq<Tid>, path: seq<Part>, tid: Tid): seq<Pair>
    requires Closed(g) && tid in g
  {
    Entries(g, names, path, tid, Walks(g, processed, tid))
  }

  /** What it has recorded after itself and its first `k` edges. */
  function Partly(g: Graph, names: map<Tid, string>, marked: seq<Tid>, path: seq<Part>, tid: Tid, k: nat): seq<Pair>
    requires Closed(g) && tid in g && k <= |g[tid]|
  {
    Entries(g, names, path, tid, [[]] + WalksBelow(g, marked, tid, k))
  }

  lemma PartlyFirst(g: Graph, names: map<Tid, string>, marked: seq<Tid>, path: seq<Part>, tid: Tid)
    requires Closed(g) && tid in g
    ensures Partly(g, names, marked, path, tid, 0) == [(tid, PathString(names, path))]
  {
    assert WalksBelow(g, marked, tid, 0) == [];
    assert [[]] + WalksBelow(g, marked, tid, 0) == [[]];
    EntriesFirst(g, names, path, tid);
  }

  lemma PartlyLast(g: Graph, names: map<Tid, string>, processed: seq<Tid>, path: seq<Part>, tid: Tid)
    requires Closed(g) && tid in g && tid !in processed
    ensures Partly(g, names, processed + [tid], path, tid, |g[tid]|) == Gathered(g, names, processed, path, tid)
  {
  }

  lemma PartlyNext(g: Graph, names: map<Tid, string>, marked: seq<Tid>, path: seq<Part>, tid: Tid, k: nat)
    requires Closed(g) && tid in g && k < |g[tid]|
    ensures Partly(g, names, marked, path, tid, k + 1)
            == Partly(g, names, marked, path, tid, k) + Gathered(g, names, marked, path + [g[tid][k].part], g[tid][k].target)
  {
    var below, walks := WalksBelow(g, marked, tid, k), Walks(g, marked, g[tid][k].target);
    SeqAssoc([[]], below, Through(k, walks));
    EntriesNext(g, names, path, tid, k, [[]] + below, walks);
  }

  // ---------- The recursion over the shared path, marks and output ----------

  lemma EdgeAhead(edges: seq<Edge>, k: nat, e: Edge, rest: seq<Edge>)
    requires k <= |edges| && edges[k..] == [e] + rest
    ensures k < |edges| && edges[k] == e && edges[k + 1..] == rest
  {
    assert edges[k] == edges[k..][0] && edges[k + 1..] == edges[k..][1..];
  }

  /** The edges from position `start` on begin with the given ones. */
  predicate EdgesFrom(edges: seq<Edge>, start: nat, part: seq<Edge>) {
    && start + |part| <= |edges|
    && forall i :: 0 <= i < |part| ==> edges[start + i] == part[i]
  }

  lemma EdgeRanges(a: seq<Edge>, d: seq<Edge>, x: seq<Edge>)
    ensures EdgesFrom(a + d + x, 0, a) && EdgesFrom(a + d + x, |a|, d) && EdgesFrom(a + d + x, |a| + |d|, x)
  {
  }

  lemma GraphRanges(g: Graph, r: Registry, tid: Tid)
    requires Describes(g, r) && tid in g
    ensures var a, d, x := AttributeEdges(r, AttributesOf(r, tid)), DerivedEdges(r, tid, r.registered), AggregateEdges(tid, r.aggregates);
      && |g[tid]| == |a| + |d| + |x|
      && EdgesFrom(g[tid], 0, a) && EdgesFrom(g[tid], |a|, d) && EdgesFrom(g[tid], |a| + |d|, x)
  {
    var a, d, x := AttributeEdges(r, AttributesOf(r, tid)), DerivedEdges(r, tid, r.registered), AggregateEdges(tid, r.aggregates);
    assert HasEdgesOf(g, r, tid);
    assert g[tid] == a + d + x;
    EdgeRanges(a, d, x);
  }

  /** The output after each edge of a type: every edge adds what its target gathers. */
  predicate AddsTarget(g: Graph, names: map<Tid, string>, stages: seq<seq<Pair>>, marked: seq<Tid>, path: seq<Part>, tid: Tid, k: int)
    requires Closed(g) && tid in g && |stages| == |g[tid]| + 1
  {
    0 <= k < |g[tid]| ==> stages[k + 1] == stages[k] + Gathered(g, names, marked, path + [g[tid][k].part], g[tid][k].target)
  }

  ghost predicate AreStages(g: Graph, names: map<Tid, string>, stages: seq<seq<Pair>>, marked: seq<Tid>, path: seq<Part>, tid: Tid) {
    && Closed(g) && tid in g && |stages| == |g[tid]| + 1
    && forall k :: AddsTarget(g, names, stages, marked, path, tid, k)
  }

  lemma NextStage(g: Graph, names: map<Tid, string>, stages: seq<seq<Pair>>, before: seq<Pair>, marked: seq<Tid>, path: seq<Part>, tid: Tid, k: nat)
    requires Closed(g) && tid in g && |stages| == |g[tid]| + 1 && k < |g[tid]|
    requires stages[k] == before + Partly(g, names, marked, path, tid, k)
    requires stages[k + 1] == before + Partly(g, names, marked, path, tid, k + 1)
    ensures AddsTarget(g, names, stages, marked, path, tid, k)
  {
    PartlyNext(g, names, marked, path, tid, k);
    SeqAssoc(before, Partly(g, names, marked, path, tid, k),
             Gathered(g, names, marked, path + [g[tid][k].part], g[tid][k].target));
  }

  /** The outputs that start from a given one. */
  ghost predicate StartFrom(g: Graph, names: map<Tid, string>, stages: seq<seq<Pair>>, before: seq<Pair>, marked: seq<Tid>, path: seq<Part>, tid: Tid, n: nat)
    requires Closed(g) && tid in g
  {
    && n <= |g[tid]| && |stages| == n + 1
    && forall k :: 0 <= k <= n ==> stages[k] == before + Partly(g, names, marked, path, tid, k)
  }

  lemma ListStages(g: Graph, names: map<Tid, string>, before: seq<Pair>, marked: seq<Tid>, path: seq<Part>, tid: Tid)
    returns (stages: seq<seq<Pair>>)
    requires Closed(g) && tid in g
    ensures StartFrom(g, names, stages, before, marked, path, tid, |g[tid]|)
  {
    stages := seq(|g[tid]| + 1, k requires 0 <= k <= |g[tid]| => before + Partly(g, names, marked, path, tid, k));
  }

  lemma MakeStages(g: Graph, names: map<Tid, string>, before: seq<Pair>, processed: seq<Tid>, path: seq<Part>, tid: Tid)
    returns (stages: seq<seq<Pair>>)
    requires Closed(g) && tid in g && tid !in processed
    ensures AreStages(g, names, stages, processed + [tid], path, tid)
    ensures stages[0] == before + [(tid, PathString(names, path))]
    ensures stages[|g[tid]|] == before + Gathered(g, names, processed, path, tid)
  {
    stages := ListStages(g, names, before, processed + [tid], path, tid);
    forall k
      ensures AddsTarget(g, names, stages, processed + [tid], path, tid, k)
    {
      if 0 <= k < |g[tid]| {
        NextStage(g, names, stages, before, processed + [tid], path, tid, k);
      }
    }
    PartlyFirst(g, names, processed + [tid], path, tid);
    PartlyLast(g, names, processed, path, tid);
  }

  class StaticInformation {
    const registry: Registry
    ghost const g: Graph
    var output: seq<Pair>
    var currentPath: seq<Part>
    var alreadyProcessed: seq<Tid>

    ghost predicate Valid() {
      Describes(g, registry) && Closed(g)
    }

    constructor (registry: Registry)
      requires Closed(GraphOf(registry))
      ensures Valid() && g == GraphOf(registry) && this.registry == registry && output == [] && currentPath == [] && alreadyProcessed == []
    {
      this.registry := registry;
      g := GraphOf(registry);
      output := [];
      currentPath := [];
      alreadyProcessed := [];
    }

    method GetCurrentPath() returns (s: string)
      ensures s == PathString(registry.names, currentPath)
    {
      s := "";
      for i := 0 to |currentPath|
        invariant s == PathString(registry.names, currentPath[..i])
      {
        assert currentPath[..i + 1][..i] == currentPath[..i];
        s := s + "/" + PartString(registry.names, currentPath[i]);
      }
      assert currentPath[..|currentPath|] == currentPath;
    }

    method RecordOutput(tid: Tid)
      modifies this`output
      ensures output == old(output) + [(tid, PathString(registry.names, currentPath))]
    {
      var s := GetCurrentPath();
      output := output + [(tid, s)];
    }

    method HasAlreadyBeenProcessed(tid: Tid) returns (found: bool)
      ensures found == (tid in alreadyProcessed)
    {
      for i := 0 to |alreadyProcessed|
        invariant tid !in alreadyProcessed[..i]
      {
        if alreadyProcessed[i] == tid {
          return true;
        }
      }
      return false;
    }

    /** Follows edge `k` of a type: extends the path, marks the type and restores both. */
    method Follow(tid: Tid, part: Part, target: Tid, ghost stages: seq<seq<Pair>>, ghost k: nat)
      requires Valid() && tid in g && tid !in alreadyProcessed
      requires k < |g[tid]| && g[tid][k] == Edge(part, target)
      requires AreStages(g, registry.names, stages, alreadyProcessed + [tid], currentPath, tid) && output == stages[k]
      modifies this
      ensures currentPath == old(currentPath) && alreadyProcessed == old(alreadyProcessed)
      ensures output == stages[k + 1]
      decreases |Free(g, alreadyProcessed + [tid])|, 1
    {
      ghost var path0, processed0 := currentPath, alreadyProcessed;
      assert AddsTarget(g, registry.names, stages, processed0 + [tid], path0, tid, k);
      currentPath := currentPath + [part];
      alreadyProcessed := alreadyProcessed + [tid];
      DoGather(target);
      alreadyProcessed := alreadyProcessed[..|alreadyProcessed| - 1];
      currentPath := currentPath[..|currentPath| - 1];
      assert currentPath == path0 && alreadyProcessed == processed0;
    }

    method FollowAttributes(tid: Tid, ghost stages: seq<seq<Pair>>)
      requires Valid() && tid in g && tid !in alreadyProcessed
      requires AreStages(g, registry.names, stages, alreadyProcessed + [tid], currentPath, tid) && output == stages[0]
      requires EdgesFrom(g[tid], 0, AttributeEdges(registry, AttributesOf(registry, tid)))
      modifies this
      ensures currentPath == old(currentPath) && alreadyProcessed == old(alreadyProcessed)
      ensures output == stages[|AttributeEdges(registry, AttributesOf(registry, tid))|]
      decreases |Free(g, alreadyProcessed + [tid])|, 2
    {
      var attributes := AttributesOf(registry, tid);
      ghost var edges, k, path0 := AttributeEdges(registry, attributes), 0, currentPath;
      assert attributes[0..] == attributes;
      for i := 0 to |attributes|
        invariant currentPath == path0 && alreadyProcessed == old(alreadyProcessed)
        invariant k <= |edges| && edges[k..] == AttributeEdges(registry, attributes[i..])
        invariant output == stages[k]
      {
        assert attributes[i..][0] == attributes[i] && attributes[i..][1..] == attributes[i + 1..];
        var info := attributes[i];
        if info.checker.Pointer? {
          if info.checker.pointee == registry.objectTid {
            continue;
          }
          EdgeAhead(edges, k, Edge(Name(info.name), info.checker.pointee), AttributeEdges(registry, attributes[i + 1..]));
          Follow(tid, Name(info.name), info.checker.pointee, stages, k);
          k := k + 1;
          continue;
        }
        if info.checker.Container? {
          EdgeAhead(edges, k, Edge(Element(info.name), info.checker.item), AttributeEdges(registry, attributes[i + 1..]));
          Follow(tid, Element(info.name), info.checker.item, stages, k);
          k := k + 1;
          continue;
        }
      }
      assert k == |edges|;
    }

    method FollowDerived(tid: Tid, ghost stages: seq<seq<Pair>>, ghost start: nat)
      requires Valid() && tid in g && tid !in alreadyProcessed
      requires EdgesFrom(g[tid], start, DerivedEdges(registry, tid, registry.registered))
      requires AreStages(g, registry.names, stages, alreadyProcessed + [tid], currentPath, tid) && output == stages[start]
      modifies this
      ensures currentPath == old(currentPath) && alreadyProcessed == old(alreadyProcessed)
      ensures output == stages[start + |DerivedEdges(registry, tid, registry.registered)|]
      decreases |Free(g, alreadyProcessed + [tid])|, 2
    {
      var types := registry.registered;
      ghost var edges, k, path0 := DerivedEdges(registry, tid, types), 0, currentPath;
      assert types[0..] == types;
      for j := 0 to |types|
        invariant currentPath == path0 && alreadyProcessed == old(alreadyProcessed)
        invariant k <= |edges| && edges[k..] == DerivedEdges(registry, tid, types[j..])
        invariant output == stages[start + k]
      {
        assert types[j..][0] == types[j] && types[j..][1..] == types[j + 1..];
        var child := types[j];
        if (child, tid) in registry.derived {
          EdgeAhead(edges, k, Edge(Type(child), child), DerivedEdges(registry, tid, types[j + 1..]));
          Follow(tid, Type(child), child, stages, start + k);
          k := k + 1;
        }
      }
      assert k == |edges|;
    }

    method FollowAggregates(tid: Tid, ghost stages: seq<seq<Pair>>, ghost start: nat)
      requires Valid() && tid in g && tid !in alreadyProcessed
      requires EdgesFrom(g[tid], start, AggregateEdges(tid, registry.aggregates))
      requires AreStages(g, registry.names, stages, alreadyProcessed + [tid], currentPath, tid) && output == stages[start]
      modifies this
      ensures currentPath == old(currentPath) && alreadyProcessed == old(alreadyProcessed)
      ensures output == stages[start + |AggregateEdges(tid, registry.aggregates)|]
      decreases |Free(g, alreadyProcessed + [tid])|, 2
    {
      var aggregates := registry.aggregates;
      ghost var edges, k, path0 := AggregateEdges(tid, aggregates), 0, currentPath;
      assert aggregates[0..] == aggregates;
      for m := 0 to |aggregates|
        invariant currentPath == path0 && alreadyProcessed == old(alreadyProcessed)
        invariant k <= |edges| && edges[k..] == AggregateEdges(tid, aggregates[m..])
        invariant output == stages[start + k]
      {
        assert aggregates[m..][0] == aggregates[m] && aggregates[m..][1..] == aggregates[m + 1..];
        var item := aggregates[m];
        if item.0 == tid || item.1 == tid {
          var other := tid;
          if item.0 == tid {
            other := item.1;
          }
          if item.1 == tid {
            other := item.0;
          }
          EdgeAhead(edges, k, Edge(Type(other), other), AggregateEdges(tid, aggregates[m + 1..]));
          Follow(tid, Type(other), other, stages, start + k);
          k := k + 1;
        }
      }
      assert k == |edges|;
    }

    method FollowEdges(tid: Tid, ghost stages: seq<seq<Pair>>)
      requires Valid() && tid in g && tid !in alreadyProcessed
      requires AreStages(g, registry.names, stages, alreadyProcessed + [tid], currentPath, tid) && output == stages[0]
      modifies this
      ensures currentPath == old(currentPath) && alreadyProcessed == old(alreadyProcessed)
      ensures output == stages[|g[tid]|]
      decreases |Free(g, alreadyProcessed + [tid])|, 3
    {
      GraphRanges(g, registry, tid);
      ghost var afterAttributes := |AttributeEdges(registry, AttributesOf(registry, tid))|;
      FollowAttributes(tid, stages);
      FollowDerived(tid, stages, afterAttributes);
      FollowAggregates(tid, stages, afterAttributes + |DerivedEdges(registry, tid, registry.registered)|);
    }

    /** Records exactly the simple walks from a type, and leaves path and marks as they were. */
    method DoGather(tid: Tid)
      requires Valid() && tid in g
      modifies this
      ensures currentPath == old(currentPath) && alreadyProcessed == old(alreadyProcessed)
      ensures output == old(output) + Gathered(g, registry.names, alreadyProcessed, currentPath, tid)
      decreases |Free(g, alreadyProcessed)|, 0
    {
      var processed := HasAlreadyBeenProcessed(tid);
      if processed {
        return;
      }
      ghost var stages := MakeStages(g, registry.names, output, alreadyProcessed, currentPath, tid);
      FreeShrinks(g, alreadyProcessed, tid);
      RecordOutput(tid);
      FollowEdges(tid, stages);
    }

    /** Uniquefy gets a copy of the output, which is thrown away: it matters exactly if the output is not as it should be. */
    method Gather(tid: Tid) returns (ghost copy: seq<Pair>)
      requires Valid() && tid in g
      modifies this
      ensures currentPath == old(currentPath) && alreadyProcessed == old(alreadyProcessed)
      ensures output == old(output) + Gathered(g, registry.names, alreadyProcessed, currentPath, tid)
      ensures IsUniquefied(copy, output) && (copy == output <==> StrictlySorted(output))
    {
      DoGather(tid);
      var t := Uniquefy(output);
      copy := t;
      UniquefiedIff(copy, output);
    }

    method Get(tid: Tid) returns (paths: seq<string>)
      ensures paths == PathsTo(output, tid)
    {
      paths := [];
      for i := 0 to |output|
        invariant paths == PathsTo(output[..i], tid)
      {
        assert output[..i + 1][..i] == output[..i];
        if output[i].0 == tid {
          paths := paths + [output[i].1];
        }
      }
      assert output[..|output|] == output;
    }
  }

  // ---------- What can be read off the output ----------

  function PathsTo(output: seq<Pair>, tid: Tid): seq<string> {
    if output == [] then []
    else
      var front := PathsTo(output[..|output| - 1], tid);
      var last := output[|output| - 1];
      if last.0 == tid then front + [last.1] else front
  }

  /** The paths of a type are picked one by one, in the order of the output. */
  lemma {:induction false} PathsToFrom(a: seq<Pair>, x: Pair, b: seq<Pair>, tid: Tid)
    ensures PathsTo([], tid) == []
    ensures PathsTo(a + [x] + b, tid) == PathsTo(a, tid) + (if x.0 == tid then [x.1] else []) + PathsTo(b, tid)
  {
    if b == [] {
      assert a + [x] + b == a + [x] && (a + [x])[..|a|] == a;
    } else {
      var n := |b| - 1;
      PathsToFrom(a, x, b[..n], tid);
      assert (a + [x] + b)[..|a| + 1 + n] == a + [x] + b[..n];
    }
  }

  lemma {:induction false} PathsToHas(output: seq<Pair>, tid: Tid, p: string)
    ensures p in PathsTo(output, tid) <==> (tid, p) in output
  {
    if output != [] {
      var n := |output| - 1;
      PathsToHas(output[..n], tid, p);
      assert output == output[..n] + [output[n]];
    }
  }

  lemma {:induction false} EntriesLength(g: Graph, names: map<Tid, string>, path: seq<Part>, tid: Tid, walks: seq<seq<nat>>)
    ensures |Entries(g, names, path, tid, walks)| == |walks|
  {
    if walks != [] {
      EntriesLength(g, names, path, tid, walks[..|walks| - 1]);
    }
  }

  /** One entry for each walk, in order. */
  predicate ListsWalks(es: seq<Pair>, g: Graph, names: map<Tid, string>, path: seq<Part>, tid: Tid, walks: seq<seq<nat>>) {
    && |es| == |walks|
    && forall k :: 0 <= k < |walks| ==> es[k] == Entry(g, names, path, tid, walks[k])
  }

  lemma ListsOneMore(es: seq<Pair>, g: Graph, names: map<Tid, string>, path: seq<Part>, tid: Tid, walks: seq<seq<nat>>)
    requires walks != [] && ListsWalks(es, g, names, path, tid, walks[..|walks| - 1])
    ensures ListsWalks(es + [Entry(g, names, path, tid, walks[|walks| - 1])], g, names, path, tid, walks)
  {
    var n := |walks| - 1;
    forall k | 0 <= k < n
      ensures es[k] == Entry(g, names, path, tid, walks[k])
    {
      assert walks[..n][k] == walks[k];
    }
  }

  lemma {:induction false} EntriesList(g: Graph, names: map<Tid, string>, path: seq<Part>, tid: Tid, walks: seq<seq<nat>>)
    ensures ListsWalks(Entries(g, names, path, tid, walks), g, names, path, tid, walks)
    decreases |walks|
  {
    if walks != [] {
      EntriesList(g, names, path, tid, walks[..|walks| - 1]);
      ListsOneMore(Entries(g, names, path, tid, walks[..|walks| - 1]), g, names, path, tid, walks);
    }
  }

  lemma EntryAt(g: Graph, names: map<Tid, string>, path: seq<Part>, tid: Tid, walks: seq<seq<nat>>, k: nat)
    requires k < |walks|
    ensures |Entries(g, names, path, tid, walks)| == |walks|
    ensures Entries(g, names, path, tid, walks)[k] == Entry(g, names, path, tid, walks[k])
  {
    EntriesList(g, names, path, tid, walks);
  }

  /** The paths found for a type are the paths of the simple walks that end there. */
  lemma PathsAreSimpleWalks(g: Graph, names: map<Tid, string>, tid: Tid, target: Tid, p: string)
    requires Closed(g) && tid in g
    ensures p in PathsTo(Gathered(g, names, [], [], tid), target)
            <==> exists w :: IsSimple(g, [], tid, w) && Entry(g, names, [], tid, w) == (target, p)
  {
    var walks := Walks(g, [], tid);
    var entries := Entries(g, names, [], tid, walks);
    PathsToHas(entries, target, p);
    EntriesLength(g, names, [], tid, walks);
    if (target, p) in entries {
      var k :| 0 <= k < |entries| && entries[k] == (target, p);
      EntryAt(g, names, [], tid, walks, k);
      WalksAreSimple(g, [], tid, walks[k]);
    }
    if w :| IsSimple(g, [], tid, w) && Entry(g, names, [], tid, w) == (target, p) {
      WalksAreSimple(g, [], tid, w);
      var k :| 0 <= k < |walks| && walks[k] == w;
      EntryAt(g, names, [], tid, walks, k);
    }
  }

  /** Walks that differ only in the choice between two equal edges are recorded under the same path. */
  lemma EqualEdgesRepeat(
    g: Graph, names: map<Tid, string>, processed: seq<Tid>, path: seq<Part>, tid: Tid, i: nat, j: nat, w: seq<nat>)
    requires tid in g && i < j < |g[tid]| && g[tid][i] == g[tid][j]
    ensures Entry(g, names, path, tid, [i] + w) == Entry(g, names, path, tid, [j] + w)
    ensures IsSimple(g, processed, tid, [i] + w) <==> IsSimple(g, processed, tid, [j] + w)
  {
    EntryThrough(g, names, path, tid, i, w);
    EntryThrough(g, names, path, tid, j, w);
    assert ([i] + w)[1..] == w && ([j] + w)[1..] == w;
    SimpleCons(g, processed, tid, [i] + w);
    SimpleCons(g, processed, tid, [j] + w);
  }

  lemma {:induction false} DerivedEdgeAt(r: Registry, tid: Tid, child: Tid, types: seq<Tid>) returns (i: nat)
    requires child in types && (child, tid) in r.derived
    ensures i < |DerivedEdges(r, tid, types)| && DerivedEdges(r, tid, types)[i] == Edge(Type(child), child)
  {
    if types[0] == child {
      i := 0;
    } else {
      var k := DerivedEdgeAt(r, tid, child, types[1..]);
      i := if (types[0], tid) in r.derived then k + 1 else k;
    }
  }

  lemma {:induction false} AggregateEdgeAt(tid: Tid, other: Tid, aggregates: seq<(Tid, Tid)>) returns (i: nat)
    requires ((tid, other) in aggregates || (other, tid) in aggregates) && other != tid
    ensures i < |AggregateEdges(tid, aggregates)| && AggregateEdges(tid, aggregates)[i] == Edge(Type(other), other)
  {
    if aggregates[0] == (tid, other) || aggregates[0] == (other, tid) {
      i := 0;
    } else {
      var k := AggregateEdgeAt(tid, other, aggregates[1..]);
      i := if aggregates[0].0 == tid || aggregates[0].1 == tid then k + 1 else k;
    }
  }

  /** A derived type that is also aggregated is reached by two equal edges. */
  lemma DerivedAndAggregated(r: Registry, tid: Tid, child: Tid) returns (i: nat, j: nat)
    requires child in r.registered && child != tid && (child, tid) in r.derived
    requires (tid, child) in r.aggregates || (child, tid) in r.aggregates
    ensures i < j < |Edges(r, tid)| && Edges(r, tid)[i] == Edges(r, tid)[j] == Edge(Type(child), child)
  {
    var a, d := AttributeEdges(r, AttributesOf(r, tid)), DerivedEdges(r, tid, r.registered);
    i := DerivedEdgeAt(r, tid, child, r.registered);
    j := AggregateEdgeAt(tid, child, r.aggregates);
    i, j := |a| + i, |a| + |d| + j;
  }
}
