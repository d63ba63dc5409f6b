/**
 * What Gather's output looks like without the effect that Uniquefy was meant to have:
 * when an entry is recorded twice, and when the entries are out of order.
 */
module TypeRepeats {
  import opened Sequences
  import opened UniqueItems
  import opened TypePaths

  // ---------- Different walks with the same path ----------

  predicate EqualParts(g: Graph, tid: Tid, i: nat, j: nat) {
    tid in g && i < |g[tid]| && j < |g[tid]| && g[tid][i].part == g[tid][j].part
  }

  /** At every type the part of the path tells which type it leads to. */
  ghost predicate PartsDecide(g: Graph) {
    forall tid: Tid, i: nat, j: nat :: EqualParts(g, tid, i, j) ==> g[tid][i] == g[tid][j]
  }

  /** A simple walk `w` reaches a type with two equal edges, `i` and `j`, both of which continue it. */
  predicate ForksEqually(g: Graph, processed: seq<Tid>, tid: Tid, w: seq<nat>, i: nat, j: nat) {
    && IsSimple(g, processed, tid, w + [i]) && IsSimple(g, processed, tid, w + [j])
    && var t := End(g, tid, w);
       t in g && i < j < |g[t]| && g[t][i] == g[t][j]
  }

  predicate SamePath(g: Graph, tid: Tid, w1: seq<nat>, w2: seq<nat>) {
    w1 != w2 && End(g, tid, w1) == End(g, tid, w2) && Parts(g, tid, w1) == Parts(g, tid, w2)
  }

  lemma EndCons(g: Graph, tid: Tid, w: seq<nat>)
    requires tid in g && w != [] && w[0] < |g[tid]|
    ensures End(g, tid, w) == End(g, g[tid][w[0]].target, w[1..])
  {
    var v1 := Visited(g, g[tid][w[0]].target, w[1..]);
    assert Visited(g, tid, w) == [tid] + v1;
  }

  lemma {:induction false} PartsLength(g: Graph, tid: Tid, w: seq<nat>)
    requires IsWalk(g, tid, w)
    ensures |Parts(g, tid, w)| == |w|
    decreases |w|
  {
    if w != [] {
      PartsLength(g, g[tid][w[0]].target, w[1..]);
    }
  }

  /** The beginning of a simple walk is simple. */
  lemma FirstSimple(g: Graph, processed: seq<Tid>, tid: Tid, w: seq<nat>)
    requires IsSimple(g, processed, tid, w) && w != []
    ensures tid in g && w[0] < |g[tid]| && IsSimple(g, processed, tid, [w[0]])
  {
    var next := g[tid][w[0]].target;
    SimpleCons(g, processed, tid, w);
    assert Visited(g, next, w[1..])[0] == next;
    SimpleEmpty(g, processed + [tid], next);
    SimpleCons(g, processed, tid, [w[0]]);
  }

  /** Where two walks with the same path part, there are two equal edges. */
  lemma {:induction false} PartingEdges(g: Graph, processed: seq<Tid>, tid: Tid, w1: seq<nat>, w2: seq<nat>)
    returns (w: seq<nat>, i: nat, j: nat)
    requires PartsDecide(g) && IsSimple(g, processed, tid, w1) && IsSimple(g, processed, tid, w2)
    requires w1 != w2 && Parts(g, tid, w1) == Parts(g, tid, w2)
    ensures ForksEqually(g, processed, tid, w, i, j)
    decreases |w1|
  {
    PartsLength(g, tid, w1);
    PartsLength(g, tid, w2);
    FirstSimple(g, processed, tid, w1);
    FirstSimple(g, processed, tid, w2);
    assert Parts(g, tid, w1) == [g[tid][w1[0]].part] + Parts(g, g[tid][w1[0]].target, w1[1..]);
    assert Parts(g, tid, w2) == [g[tid][w2[0]].part] + Parts(g, g[tid][w2[0]].target, w2[1..]);
    assert g[tid][w1[0]].part == Parts(g, tid, w1)[0] == Parts(g, tid, w2)[0] == g[tid][w2[0]].part;
    assert EqualParts(g, tid, w1[0], w2[0]);
    var next := g[tid][w1[0]].target;
    if w1[0] == w2[0] {
      SimpleCons(g, processed, tid, w1);
      SimpleCons(g, processed, tid, w2);
      assert w1 == [w1[0]] + w1[1..] && w2 == [w2[0]] + w2[1..];
      assert Parts(g, next, w1[1..]) == Parts(g, tid, w1)[1..];
      assert Parts(g, next, w2[1..]) == Parts(g, tid, w2)[1..];
      var v;
      v, i, j := PartingEdges(g, processed + [tid], next, w1[1..], w2[1..]);
      w := [w1[0]] + v;
      ForkCons(g, processed, tid, w1[0], v, i, j);
    } else {
      w, i, j := [], if w1[0] < w2[0] then w1[0] else w2[0], if w1[0] < w2[0] then w2[0] else w1[0];
      assert [] + [i] == [i] && [] + [j] == [j];
    }
  }

  lemma ForkCons(g: Graph, processed: seq<Tid>, tid: Tid, k: nat, v: seq<nat>, i: nat, j: nat)
    requires tid in g && k < |g[tid]| && tid !in processed
    requires ForksEqually(g, processed + [tid], g[tid][k].target, v, i, j)
    ensures ForksEqually(g, processed, tid, [k] + v, i, j)
  {
    assert [k] + v + [i] == [k] + (v + [i]) && [k] + v + [j] == [k] + (v + [j]);
    assert ([k] + (v + [i]))[1..] == v + [i] && ([k] + (v + [j]))[1..] == v + [j] && ([k] + v)[1..] == v;
    SimpleCons(g, processed, tid, [k] + (v + [i]));
    SimpleCons(g, processed, tid, [k] + (v + [j]));
    EndCons(g, tid, [k] + v);
  }

  /** Continuing by one of two equal edges or by the other leads to the same type by the same path. */
  lemma {:induction false} ForkSamePath(g: Graph, tid: Tid, w: seq<nat>, i: nat, j: nat)
    requires IsWalk(g, tid, w) && End(g, tid, w) in g && i < |g[End(g, tid, w)]| && j < |g[End(g, tid, w)]|
    requires g[End(g, tid, w)][i] == g[End(g, tid, w)][j]
    ensures End(g, tid, w + [i]) == End(g, tid, w + [j]) && Parts(g, tid, w + [i]) == Parts(g, tid, w + [j])
    decreases |w|
  {
    if w == [] {
      assert [] + [i] == [i] && [] + [j] == [j] && [i][1..] == [] == [j][1..];
      EndCons(g, tid, [i]);
      EndCons(g, tid, [j]);
    } else {
      var next := g[tid][w[0]].target;
      EndCons(g, tid, w);
      ForkSamePath(g, next, w[1..], i, j);
      assert (w + [i])[1..] == w[1..] + [i] && (w + [j])[1..] == w[1..] + [j];
      EndCons(g, tid, w + [i]);
      EndCons(g, tid, w + [j]);
    }
  }

  /** Two simple walks lead to the same type by the same path exactly if some simple walk comes to a type with two equal edges. */
  lemma SamePathIff(g: Graph, processed: seq<Tid>, tid: Tid)
    requires PartsDecide(g)
    ensures (exists w1, w2 :: IsSimple(g, processed, tid, w1) && IsSimple(g, processed, tid, w2) && SamePath(g, tid, w1, w2))
            <==> exists w: seq<nat>, i: nat, j: nat :: ForksEqually(g, processed, tid, w, i, j)
  {
    if w1, w2 :| IsSimple(g, processed, tid, w1) && IsSimple(g, processed, tid, w2) && SamePath(g, tid, w1, w2) {
      var w, i, j := PartingEdges(g, processed, tid, w1, w2);
    }
    if w: seq<nat>, i: nat, j: nat :| ForksEqually(g, processed, tid, w, i, j) {
      ForkedWalks(g, processed, tid, w, i, j);
    }
  }

  lemma ForkedWalks(g: Graph, processed: seq<Tid>, tid: Tid, w: seq<nat>, i: nat, j: nat)
    requires ForksEqually(g, processed, tid, w, i, j)
    ensures SamePath(g, tid, w + [i], w + [j])
  {
    WalkFront(g, tid, w, i);
    ForkSamePath(g, tid, w, i, j);
    assert (w + [i])[|w|] != (w + [j])[|w|];
  }

  lemma {:induction false} WalkFront(g: Graph, tid: Tid, w: seq<nat>, i: nat)
    requires IsWalk(g, tid, w + [i])
    ensures IsWalk(g, tid, w)
    decreases |w|
  {
    if w != [] {
      assert (w + [i])[1..] == w[1..] + [i];
      WalkFront(g, g[tid][w[0]].target, w[1..], i);
    }
  }

  // ---------- Different paths are different strings ----------

  predicate Slashless(s: string) {
    '/' !in s
  }

  /** A name without a slash that cannot be mistaken for a type or for the element of a container. */
  predicate PlainName(name: string) {
    Slashless(name) && name != "[i]" && (name == "" || name[0] != '$')
  }

  predicate PlainPart(names: map<Tid, string>, part: Part) {
    match part
    case Name(name) => PlainName(name)
    case Element(name) => PlainName(name)
    case Type(tid) => tid in names && Slashless(names[tid])
  }

  predicate PlainPath(names: map<Tid, string>, path: seq<Part>) {
    forall k :: 0 <= k < |path| ==> PlainPart(names, path[k])
  }

  predicate NamesDiffer(names: map<Tid, string>) {
    forall t, u :: t in names && u in names && names[t] == names[u] ==> t == u
  }

  /** What stands between the slashes. */
  function Segments(names: map<Tid, string>, path: seq<Part>): seq<string> {
    if path == [] then [] else Segments(names, path[..|path| - 1]) + PartSegments(names, path[|path| - 1])
  }

  function PartSegments(names: map<Tid, string>, part: Part): seq<string> {
    match part
    case Name(name) => [name]
    case Element(name) => [name, "[i]"]
    case Type(tid) => ["$" + NameOf(names, tid)]
  }

  function Join(segments: seq<string>): string {
    if segments == [] then "" else Join(segments[..|segments| - 1]) + "/" + segments[|segments| - 1]
  }

  lemma JoinSnoc(a: seq<string>, s: string)
    ensures Join(a + [s]) == Join(a) + "/" + s
  {
    assert (a + [s])[..|a|] == a;
  }

  lemma PartJoin(names: map<Tid, string>, before: seq<string>, part: Part)
    ensures Join(before + PartSegments(names, part)) == Join(before) + "/" + PartString(names, part)
  {
    match part
    case Name(name) => JoinSnoc(before, name);
    case Type(tid) => JoinSnoc(before, "$" + NameOf(names, tid));
    case Element(name) =>
      JoinSnoc(before, name);
      JoinSnoc(before + [name], "[i]");
      assert before + [name, "[i]"] == (before + [name]) + ["[i]"];
      StringAssoc(Join(before) + "/", name);
  }

  lemma StringAssoc(a: string, name: string)
    ensures a + name + "/" + "[i]" == a + (name + "/[i]")
  {
  }

  lemma {:induction false} PathIsJoin(names: map<Tid, string>, path: seq<Part>)
    ensures PathString(names, path) == Join(Segments(names, path))
  {
    if path != [] {
      PathIsJoin(names, path[..|path| - 1]);
      PartJoin(names, Segments(names, path[..|path| - 1]), path[|path| - 1]);
    }
  }

  lemma SlashAt(a: string, s: string)
    requires Slashless(s)
    ensures (a + "/" + s)[|a|] == '/' && forall k :: |a| < k < |a + "/" + s| ==> (a + "/" + s)[k] != '/'
  {
    forall k | |a| < k < |a + "/" + s|
      ensures (a + "/" + s)[k] != '/'
    {
      assert (a + "/" + s)[k] == s[k - |a| - 1];
    }
  }

  /** After the last slash of a joined list stands its last segment. */
  lemma LastSegment(a: string, s: string, b: string, t: string)
    requires Slashless(s) && Slashless(t) && a + "/" + s == b + "/" + t
    ensures a == b && s == t
  {
    SlashAt(a, s);
    SlashAt(b, t);
    var x := a + "/" + s;
    assert x[..|a|] == a && x[|a| + 1..] == s;
    assert x[..|b|] == b && x[|b| + 1..] == t;
  }

  predicate AllSlashless(segments: seq<string>) {
    forall k :: 0 <= k < |segments| ==> Slashless(segments[k])
  }

  lemma {:induction false} JoinInjective(a: seq<string>, b: seq<string>)
    requires AllSlashless(a) && AllSlashless(b) && Join(a) == Join(b)
    ensures a == b
  {
    if a != [] && b != [] {
      var a1, b1 := a[..|a| - 1], b[..|b| - 1];
      LastSegment(Join(a1), a[|a| - 1], Join(b1), b[|b| - 1]);
      JoinInjective(a1, b1);
      assert a == a1 + [a[|a| - 1]] && b == b1 + [b[|b| - 1]];
    } else {
      assert a != [] ==> |Join(a)| > 0;
      assert b != [] ==> |Join(b)| > 0;
    }
  }

  lemma PlainFront(names: map<Tid, string>, a: seq<Part>) returns (front: seq<Part>, last: Part)
    requires PlainPath(names, a) && a != []
    ensures a == front + [last] && PlainPath(names, front) && PlainPart(names, last)
    ensures Segments(names, a) == Segments(names, front) + PartSegments(names, last)
  {
    front, last := a[..|a| - 1], a[|a| - 1];
  }

  lemma PartSlashless(names: map<Tid, string>, part: Part)
    requires PlainPart(names, part)
    ensures AllSlashless(PartSegments(names, part)) && PartSegments(names, part) != []
  {
  }

  lemma SlashlessConcat(a: seq<string>, b: seq<string>)
    requires AllSlashless(a) && AllSlashless(b)
    ensures AllSlashless(a + b)
  {
  }

  lemma {:induction false} SegmentsSlashless(names: map<Tid, string>, path: seq<Part>)
    requires PlainPath(names, path)
    ensures AllSlashless(Segments(names, path))
    ensures path != [] ==> Segments(names, path) != []
    decreases |path|
  {
    if path != [] {
      var front, last := PlainFront(names, path);
      SegmentsSlashless(names, front);
      PartSlashless(names, last);
      SlashlessConcat(Segments(names, front), PartSegments(names, last));
    }
  }

  /** The last segment and the one before it tell the part. */
  lemma LastPart(names: map<Tid, string>, s: seq<string>, x: Part, t: seq<string>, y: Part)
    requires NamesDiffer(names) && PlainPart(names, x) && PlainPart(names, y)
    requires s + PartSegments(names, x) == t + PartSegments(names, y)
    ensures s == t && x == y
  {
    var xs, ys := PartSegments(names, x), PartSegments(names, y);
    var all := s + xs;
    assert xs[|xs| - 1] == all[|all| - 1] == ys[|ys| - 1];
    PartLength(names, x);
    PartLength(names, y);
    assert s == all[..|s|] && t == all[..|t|];
    assert xs == all[|s|..] && ys == all[|t|..];
    SegmentsTell(names, x, y);
  }

  lemma PartLength(names: map<Tid, string>, x: Part)
    requires PlainPart(names, x)
    ensures var xs := PartSegments(names, x);
      |xs| == (if xs[|xs| - 1] == "[i]" then 2 else 1)
  {
    if x.Type? {
      assert ("$" + NameOf(names, x.tid))[0] == '$';
    }
  }

  lemma SegmentsTell(names: map<Tid, string>, x: Part, y: Part)
    requires NamesDiffer(names) && PlainPart(names, x) && PlainPart(names, y)
    requires PartSegments(names, x) == PartSegments(names, y)
    ensures x == y
  {
    var first := PartSegments(names, x)[0];
    assert first == PartSegments(names, y)[0];
    if x.Type? || y.Type? {
      assert first[0] == '$';
      assert x.Type? && y.Type?;
      assert names[x.tid] == first[1..] == names[y.tid];
    }
  }

  /** Read from the end, the segments of a plain path give back its parts. */
  lemma {:induction false} SegmentsInjective(names: map<Tid, string>, a: seq<Part>, b: seq<Part>)
    requires NamesDiffer(names) && PlainPath(names, a) && PlainPath(names, b) && Segments(names, a) == Segments(names, b)
    ensures a == b
    decreases |a|
  {
    SegmentsSlashless(names, a);
    SegmentsSlashless(names, b);
    if a != [] && b != [] {
      var a1, x := PlainFront(names, a);
      var b1, y := PlainFront(names, b);
      LastPart(names, Segments(names, a1), x, Segments(names, b1), y);
      SegmentsInjective(names, a1, b1);
    }
  }

  lemma PathStringInjective(names: map<Tid, string>, a: seq<Part>, b: seq<Part>)
    requires NamesDiffer(names) && PlainPath(names, a) && PlainPath(names, b) && PathString(names, a) == PathString(names, b)
    ensures a == b
  {
    PathIsJoin(names, a);
    PathIsJoin(names, b);
    SegmentsSlashless(names, a);
    SegmentsSlashless(names, b);
    JoinInjective(Segments(names, a), Segments(names, b));
    SegmentsInjective(names, a, b);
  }

  // ---------- Repeated entries ----------

  predicate PlainEdge(g: Graph, names: map<Tid, string>, tid: Tid, i: nat) {
    tid in g && i < |g[tid]| ==> PlainPart(names, g[tid][i].part)
  }

  ghost predicate PlainGraph(g: Graph, names: map<Tid, string>) {
    NamesDiffer(names) && forall tid: Tid, i: nat :: PlainEdge(g, names, tid, i)
  }

  lemma {:induction false} PlainParts(g: Graph, names: map<Tid, string>, tid: Tid, w: seq<nat>)
    requires PlainGraph(g, names)
    ensures PlainPath(names, Parts(g, tid, w))
    decreases |w|
  {
    if tid in g && w != [] && w[0] < |g[tid]| {
      assert PlainEdge(g, names, tid, w[0]);
      PlainParts(g, names, g[tid][w[0]].target, w[1..]);
    }
  }

  /** Walks that are recorded alike have the same parts. */
  lemma EqualEntries(g: Graph, names: map<Tid, string>, path: seq<Part>, tid: Tid, w1: seq<nat>, w2: seq<nat>)
    requires PlainGraph(g, names) && PlainPath(names, path)
    requires Entry(g, names, path, tid, w1) == Entry(g, names, path, tid, w2)
    ensures Parts(g, tid, w1) == Parts(g, tid, w2)
  {
    var p1, p2 := Parts(g, tid, w1), Parts(g, tid, w2);
    PlainParts(g, names, tid, w1);
    PlainParts(g, names, tid, w2);
    PathStringInjective(names, path + p1, path + p2);
    assert p1 == (path + p1)[|path|..] && p2 == (path + p2)[|path|..];
  }

  lemma GatheredAt(g: Graph, names: map<Tid, string>, processed: seq<Tid>, path: seq<Part>, tid: Tid, k: nat)
    requires Closed(g) && tid in g && k < |Walks(g, processed, tid)|
    ensures |Gathered(g, names, processed, path, tid)| == |Walks(g, processed, tid)|
    ensures Gathered(g, names, processed, path, tid)[k] == Entry(g, names, path, tid, Walks(g, processed, tid)[k])
    ensures IsSimple(g, processed, tid, Walks(g, processed, tid)[k])
  {
    EntryAt(g, names, path, tid, Walks(g, processed, tid), k);
    WalksAreSimple(g, processed, tid, Walks(g, processed, tid)[k]);
  }

  lemma WalkIndex(g: Graph, processed: seq<Tid>, tid: Tid, w: seq<nat>) returns (k: nat)
    requires Closed(g) && tid in g && IsSimple(g, processed, tid, w)
    ensures k < |Walks(g, processed, tid)| && Walks(g, processed, tid)[k] == w
  {
    WalksAreSimple(g, processed, tid, w);
    k :| 0 <= k < |Walks(g, processed, tid)| && Walks(g, processed, tid)[k] == w;
  }

  /** Two equal edges at the end of a simple walk put an entry into the output twice. */
  lemma ForkRepeats(g: Graph, names: map<Tid, string>, processed: seq<Tid>, path: seq<Part>, tid: Tid, w: seq<nat>, i: nat, j: nat)
    requires Closed(g) && tid in g && ForksEqually(g, processed, tid, w, i, j)
    ensures !Distinct(Gathered(g, names, processed, path, tid))
  {
    ForkedWalks(g, processed, tid, w, i, j);
    var k := WalkIndex(g, processed, tid, w + [i]);
    var l := WalkIndex(g, processed, tid, w + [j]);
    GatheredAt(g, names, processed, path, tid, k);
    GatheredAt(g, names, processed, path, tid, l);
  }

  /**
   * The output repeats an entry exactly if some simple walk comes to a type from which
   * two equal edges lead on to a type that is neither on the walk nor being processed.
   */
  lemma RepeatsIff(g: Graph, names: map<Tid, string>, processed: seq<Tid>, path: seq<Part>, tid: Tid)
    requires Closed(g) && tid in g && PartsDecide(g) && PlainGraph(g, names) && PlainPath(names, path)
    ensures !Distinct(Gathered(g, names, processed, path, tid))
            <==> exists w: seq<nat>, i: nat, j: nat :: ForksEqually(g, processed, tid, w, i, j)
  {
    var out, walks := Gathered(g, names, processed, path, tid), Walks(g, processed, tid);
    EntriesLength(g, names, path, tid, walks);
    if !Distinct(out) {
      var k, l :| 0 <= k < l < |out| && out[k] == out[l];
      GatheredAt(g, names, processed, path, tid, k);
      GatheredAt(g, names, processed, path, tid, l);
      WalksDistinct(g, processed, tid);
      EqualEntries(g, names, path, tid, walks[k], walks[l]);
      var w, i, j := PartingEdges(g, processed, tid, walks[k], walks[l]);
    }
    if w: seq<nat>, i: nat, j: nat :| ForksEqually(g, processed, tid, w, i, j) {
      ForkRepeats(g, names, processed, path, tid, w, i, j);
    }
  }

  // ---------- Repetitions in terms of the registry ----------

  /** No two attributes of a type have the same name. */
  predicate AttributesDiffer(r: Registry, tid: Tid) {
    DifferentNames(AttributesOf(r, tid))
  }

  predicate PlainAttributes(r: Registry, tid: Tid) {
    forall k :: 0 <= k < |AttributesOf(r, tid)| ==> PlainName(AttributesOf(r, tid)[k].name)
  }

  /**
   * The registry is in order: types and attributes have names of their own, without
   * slashes, and everything that is referred to is registered, once.
   */
  ghost predicate WellFormed(r: Registry) {
    && Distinct(r.registered) && Closed(GraphOf(r))
    && NamesDiffer(r.names) && (forall tid :: tid in r.registered ==> tid in r.names && Slashless(r.names[tid]))
    && (forall tid :: tid in r.registered ==> AttributesDiffer(r, tid) && PlainAttributes(r, tid))
  }

  function AggregateCount(tid: Tid, other: Tid, aggregates: seq<(Tid, Tid)>): nat {
    if aggregates == [] then 0
    else (if aggregates[0] == (tid, other) || aggregates[0] == (other, tid) then 1 else 0) + AggregateCount(tid, other, aggregates[1..])
  }

  /** How often a type is linked to another as derived or aggregated. */
  function Links(r: Registry, tid: Tid, other: Tid): nat {
    (if other in r.registered && (other, tid) in r.derived then 1 else 0) + AggregateCount(tid, other, r.aggregates)
  }

  /** A simple walk comes to a type that is linked twice to one that is not on the way. */
  predicate MeetsTwice(r: Registry, processed: seq<Tid>, tid: Tid, w: seq<nat>, other: Tid) {
    var g := GraphOf(r);
    && IsSimple(g, processed, tid, w) && other !in processed && other !in Visited(g, tid, w)
    && Links(r, End(g, tid, w), other) >= 2
  }

  function PartName(part: Part): string {
    match part
    case Name(name) => name
    case Element(name) => name
    case Type(_) => ""
  }

  predicate NamedBy(attributes: seq<Attribute>, part: Part) {
    !part.Type? && exists n :: 0 <= n < |attributes| && attributes[n].name == PartName(part)
  }

  lemma NamedMore(attributes: seq<Attribute>, part: Part)
    requires attributes != [] && NamedBy(attributes[1..], part)
    ensures NamedBy(attributes, part)
  {
    var n :| 0 <= n < |attributes[1..]| && attributes[1..][n].name == PartName(part);
    assert attributes[n + 1].name == PartName(part);
  }

  /** Either the first attribute has an edge, or the edges are those of the others. */
  lemma FirstAttribute(r: Registry, attributes: seq<Attribute>)
    requires attributes != []
    ensures var a, b := AttributeEdges(r, attributes), AttributeEdges(r, attributes[1..]);
      a == b || (a != [] && a == [a[0]] + b && !a[0].part.Type? && PartName(a[0].part) == attributes[0].name)
  {
  }

  lemma {:induction false} AttributeNamed(r: Registry, attributes: seq<Attribute>, k: nat)
    requires k < |AttributeEdges(r, attributes)|
    ensures NamedBy(attributes, AttributeEdges(r, attributes)[k].part)
  {
    if attributes != [] {
      FirstAttribute(r, attributes);
      var a, b := AttributeEdges(r, attributes), AttributeEdges(r, attributes[1..]);
      if a != b && k == 0 {
        assert attributes[0].name == PartName(a[0].part);
      } else {
        var l := if a == b then k else k - 1;
        assert a[k] == b[l];
        AttributeNamed(r, attributes[1..], l);
        NamedMore(attributes, a[k].part);
      }
    }
  }

  predicate DifferentNames(attributes: seq<Attribute>) {
    forall i, j :: 0 <= i < j < |attributes| ==> attributes[i].name != attributes[j].name
  }

  /** The edges of attributes with different names have different parts. */
  lemma {:induction false} AttributeParts(r: Registry, attributes: seq<Attribute>, i: nat, j: nat)
    requires DifferentNames(attributes) && i < j < |AttributeEdges(r, attributes)|
    ensures AttributeEdges(r, attributes)[i].part != AttributeEdges(r, attributes)[j].part
  {
    if attributes != [] {
      FirstAttribute(r, attributes);
      var rest := attributes[1..];
      assert DifferentNames(rest);
      var a, b := AttributeEdges(r, attributes), AttributeEdges(r, rest);
      if a == b {
        AttributeParts(r, rest, i, j);
      } else if i > 0 {
        AttributeParts(r, rest, i - 1, j - 1);
      } else {
        AttributeNamed(r, rest, j - 1);
        var n :| 0 <= n < |rest| && rest[n].name == PartName(b[j - 1].part);
        assert attributes[n + 1].name == rest[n].name != attributes[0].name;
      }
    }
  }

  lemma {:induction false} DerivedParts(r: Registry, tid: Tid, types: seq<Tid>)
    ensures forall k :: 0 <= k < |DerivedEdges(r, tid, types)| ==> IsTypeEdge(DerivedEdges(r, tid, types)[k])
  {
    if types != [] {
      DerivedParts(r, tid, types[1..]);
    }
  }

  lemma {:induction false} AggregateParts(tid: Tid, aggregates: seq<(Tid, Tid)>)
    ensures forall k :: 0 <= k < |AggregateEdges(tid, aggregates)| ==> IsTypeEdge(AggregateEdges(tid, aggregates)[k])
  {
    if aggregates != [] {
      AggregateParts(tid, aggregates[1..]);
    }
  }

  predicate IsTypeEdge(e: Edge) {
    e.part == Type(e.target)
  }

  lemma {:induction false} DerivedCount(r: Registry, tid: Tid, other: Tid, types: seq<Tid>)
    requires Distinct(types)
    ensures multiset(DerivedEdges(r, tid, types))[Edge(Type(other), other)]
            == if other in types && (other, tid) in r.derived then 1 else 0
  {
    if types != [] {
      var rest := types[1..];
      DerivedCount(r, tid, other, rest);
      assert types == [types[0]] + rest;
      assert types[0] !in rest;
    }
  }

  lemma {:induction false} AggregateCountIs(tid: Tid, other: Tid, aggregates: seq<(Tid, Tid)>)
    requires other != tid
    ensures multiset(AggregateEdges(tid, aggregates))[Edge(Type(other), other)] == AggregateCount(tid, other, aggregates)
  {
    if aggregates != [] {
      AggregateCountIs(tid, other, aggregates[1..]);
    }
  }

  /** The number of edges from a type to another as a type is the number of links. */
  lemma EdgeCount(r: Registry, tid: Tid, other: Tid)
    requires Distinct(r.registered) && other != tid && AttributesDiffer(r, tid)
    ensures multiset(Edges(r, tid))[Edge(Type(other), other)] == Links(r, tid, other)
  {
    var a := AttributeEdges(r, AttributesOf(r, tid));
    if k: nat :| k < |a| && a[k] == Edge(Type(other), other) {
      AttributeNamed(r, AttributesOf(r, tid), k);
    }
    assert Edge(Type(other), other) !in multiset(a);
    DerivedCount(r, tid, other, r.registered);
    AggregateCountIs(tid, other, r.aggregates);
  }

  /** Edges with equal parts are equal, and unless they are one edge they are links. */
  lemma EqualPartsLink(r: Registry, tid: Tid, i: nat, j: nat)
    requires AttributesDiffer(r, tid)
    requires i < j < |Edges(r, tid)| && Edges(r, tid)[i].part == Edges(r, tid)[j].part
    ensures Edges(r, tid)[i] == Edges(r, tid)[j] && IsTypeEdge(Edges(r, tid)[i])
  {
    var a := AttributeEdges(r, AttributesOf(r, tid));
    LinkEdges(r, tid, i);
    LinkEdges(r, tid, j);
    if j < |a| {
      AttributeParts(r, AttributesOf(r, tid), i, j);
    }
  }

  /** The edges behind those of the attributes, and only those, are named after their targets. */
  lemma LinkEdges(r: Registry, tid: Tid, i: nat)
    requires i < |Edges(r, tid)|
    ensures var a, e := AttributeEdges(r, AttributesOf(r, tid)), Edges(r, tid)[i];
      if i < |a| then e == a[i] && NamedBy(AttributesOf(r, tid), e.part) else IsTypeEdge(e)
  {
    var a, d := AttributeEdges(r, AttributesOf(r, tid)), DerivedEdges(r, tid, r.registered);
    if i < |a| {
      AttributeNamed(r, AttributesOf(r, tid), i);
    } else if i < |a| + |d| {
      DerivedParts(r, tid, r.registered);
      assert Edges(r, tid)[i] == d[i - |a|];
    } else {
      AggregateParts(tid, r.aggregates);
      assert Edges(r, tid)[i] == AggregateEdges(tid, r.aggregates)[i - |a| - |d|];
    }
  }

  lemma RegistryParts(r: Registry)
    requires WellFormed(r)
    ensures PartsDecide(GraphOf(r)) && PlainGraph(GraphOf(r), r.names)
  {
    var g := GraphOf(r);
    forall tid: Tid, i: nat, j: nat | EqualParts(g, tid, i, j)
      ensures g[tid][i] == g[tid][j]
    {
      if i < j {
        EqualPartsLink(r, tid, i, j);
      } else if j < i {
        EqualPartsLink(r, tid, j, i);
      }
    }
    forall tid: Tid, i: nat
      ensures PlainEdge(g, r.names, tid, i)
    {
      if tid in g && i < |g[tid]| {
        EdgePlain(r, tid, i);
      }
    }
  }

  lemma EdgePlain(r: Registry, tid: Tid, i: nat)
    requires WellFormed(r) && tid in r.registered && i < |Edges(r, tid)|
    ensures PlainPart(r.names, Edges(r, tid)[i].part)
  {
    LinkEdges(r, tid, i);
    var part := Edges(r, tid)[i].part;
    if part.Type? {
      assert GraphOf(r)[tid][i].target in GraphOf(r);
    } else {
      assert PlainAttributes(r, tid);
      var n :| 0 <= n < |AttributesOf(r, tid)| && AttributesOf(r, tid)[n].name == PartName(part);
      assert PlainName(AttributesOf(r, tid)[n].name);
    }
  }

  lemma {:induction false} VisitedSnoc(g: Graph, tid: Tid, w: seq<nat>, i: nat)
    requires IsWalk(g, tid, w) && End(g, tid, w) in g && i < |g[End(g, tid, w)]|
    ensures Visited(g, tid, w + [i]) == Visited(g, tid, w) + [g[End(g, tid, w)][i].target]
    ensures IsWalk(g, tid, w + [i]) <==> g[End(g, tid, w)][i].target in g
    decreases |w|
  {
    if w == [] {
      assert [] + [i] == [i] && [i][1..] == [];
      var next := g[tid][i].target;
      assert Visited(g, next, []) == [next];
    } else {
      var next := g[tid][w[0]].target;
      EndCons(g, tid, w);
      VisitedSnoc(g, next, w[1..], i);
      assert (w + [i])[1..] == w[1..] + [i];
    }
  }

  lemma {:induction false} EndKnown(g: Graph, tid: Tid, w: seq<nat>)
    requires IsWalk(g, tid, w)
    ensures End(g, tid, w) in g
    decreases |w|
  {
    if w != [] {
      EndCons(g, tid, w);
      EndKnown(g, g[tid][w[0]].target, w[1..]);
    }
  }

  /** A simple walk goes on by an edge to a type that is not on it and not being processed. */
  lemma SimpleSnoc(g: Graph, processed: seq<Tid>, tid: Tid, w: seq<nat>, i: nat)
    requires Closed(g) && IsSimple(g, processed, tid, w)
    ensures End(g, tid, w) in g
    ensures i < |g[End(g, tid, w)]| ==>
      var target := g[End(g, tid, w)][i].target;
      (IsSimple(g, processed, tid, w + [i]) <==> target !in processed && target !in Visited(g, tid, w))
  {
    EndKnown(g, tid, w);
    if i < |g[End(g, tid, w)]| {
      VisitedSnoc(g, tid, w, i);
      var v, target := Visited(g, tid, w), g[End(g, tid, w)][i].target;
      assert target in g;
      SnocSimple(v, target, processed);
    }
  }

  predicate Fresh(v: seq<Tid>, processed: seq<Tid>) {
    (forall i, j :: 0 <= i < j < |v| ==> v[i] != v[j]) && forall i :: 0 <= i < |v| ==> v[i] !in processed
  }

  lemma SnocSimple(v: seq<Tid>, target: Tid, processed: seq<Tid>)
    requires Fresh(v, processed)
    ensures Fresh(v + [target], processed) <==> target !in processed && target !in v
  {
    var u := v + [target];
    if target in v {
      var i :| 0 <= i < |v| && v[i] == target;
      assert u[i] == u[|v|];
    }
    assert u[|v|] == target;
  }

  lemma {:induction false} SimpleFront(g: Graph, processed: seq<Tid>, tid: Tid, w: seq<nat>, x: seq<nat>)
    requires IsSimple(g, processed, tid, w + x)
    ensures IsSimple(g, processed, tid, w)
    decreases |w|
  {
    if w == [] {
      assert Visited(g, tid, w + x)[0] == tid;
      SimpleEmpty(g, processed, tid);
    } else {
      assert (w + x)[1..] == w[1..] + x;
      SimpleCons(g, processed, tid, w + x);
      SimpleFront(g, processed + [tid], g[tid][w[0]].target, w[1..], x);
      SimpleCons(g, processed, tid, w);
    }
  }

  /** Equal edges that go on from a simple walk are links, and there are two of them. */
  lemma ForkMeets(r: Registry, processed: seq<Tid>, tid: Tid, w: seq<nat>, i: nat, j: nat)
    requires WellFormed(r) && ForksEqually(GraphOf(r), processed, tid, w, i, j)
    ensures MeetsTwice(r, processed, tid, w, GraphOf(r)[End(GraphOf(r), tid, w)][i].target)
  {
    var g := GraphOf(r);
    var t := End(g, tid, w);
    var other := g[t][i].target;
    SimpleFront(g, processed, tid, w, [i]);
    SimpleSnoc(g, processed, tid, w, i);
    assert t in Visited(g, tid, w);
    EqualPartsLink(r, t, i, j);
    EdgeCount(r, t, other);
    CountsTwice(Edges(r, t), i, j);
  }

  lemma MeetForks(r: Registry, processed: seq<Tid>, tid: Tid, w: seq<nat>, other: Tid) returns (i: nat, j: nat)
    requires WellFormed(r) && MeetsTwice(r, processed, tid, w, other)
    ensures ForksEqually(GraphOf(r), processed, tid, w, i, j)
  {
    var g := GraphOf(r);
    var t := End(g, tid, w);
    EndKnown(g, tid, w);
    assert t in Visited(g, tid, w);
    EdgeCount(r, t, other);
    i, j := TwiceAt(Edges(r, t), Edge(Type(other), other));
    SimpleSnoc(g, processed, tid, w, i);
    SimpleSnoc(g, processed, tid, w, j);
  }

  /**
   * Gather's output repeats an entry exactly if a simple walk comes to a type that is
   * linked more than once, by derivation and aggregation together, to a type that
   * is not on the way.
   */
  lemma RegistryRepeatsIff(r: Registry, processed: seq<Tid>, path: seq<Part>, tid: Tid)
    requires WellFormed(r) && tid in r.registered && PlainPath(r.names, path)
    ensures !Distinct(Gathered(GraphOf(r), r.names, processed, path, tid))
            <==> exists w: seq<nat>, other: Tid :: MeetsTwice(r, processed, tid, w, other)
  {
    var g := GraphOf(r);
    RegistryParts(r);
    RepeatsIff(g, r.names, processed, path, tid);
    if w: seq<nat>, i: nat, j: nat :| ForksEqually(g, processed, tid, w, i, j) {
      ForkMeets(r, processed, tid, w, i, j);
    }
    if w: seq<nat>, other: Tid :| MeetsTwice(r, processed, tid, w, other) {
      var i, j := MeetForks(r, processed, tid, w, other);
    }
  }

  /**
   * Above all, wherever a simple walk comes to a type with a derived type that is
   * also aggregated to it, the output repeats an entry, whatever the names are.
   */
  lemma DerivedAndAggregatedRepeats(
    r: Registry, names: map<Tid, string>, processed: seq<Tid>, path: seq<Part>, tid: Tid, w: seq<nat>, child: Tid)
    requires Closed(GraphOf(r)) && IsSimple(GraphOf(r), processed, tid, w)
    requires child in r.registered && child !in processed && child !in Visited(GraphOf(r), tid, w)
    requires var t := End(GraphOf(r), tid, w);
      (child, t) in r.derived && ((t, child) in r.aggregates || (child, t) in r.aggregates)
    ensures tid in r.registered && !Distinct(Gathered(GraphOf(r), names, processed, path, tid))
  {
    var g := GraphOf(r);
    var t := End(g, tid, w);
    EndKnown(g, tid, w);
    assert t in Visited(g, tid, w);
    var i, j := DerivedAndAggregated(r, t, child);
    SimpleSnoc(g, processed, tid, w, i);
    SimpleSnoc(g, processed, tid, w, j);
    ForkRepeats(g, names, processed, path, tid, w, i, j);
  }

  // ---------- A registry whose output repeats an entry ----------

  /** Type 2 is derived from type 1 and aggregated to it. */
  const TWICE := Registry([1, 2], map[1 := "A", 2 := "B"], map[], {(2, 1)}, [(1, 2)], 0)

  lemma TwiceEdges()
    ensures GraphOf(TWICE) == map[1 := [Edge(Type(2), 2), Edge(Type(2), 2)], 2 := [Edge(Type(1), 1)]]
  {
    assert TWICE.registered[1..] == [2] && TWICE.aggregates[1..] == [] && [2][1..] == [];
    assert DerivedEdges(TWICE, 1, [2]) == [Edge(Type(2), 2)];
    assert DerivedEdges(TWICE, 2, [2]) == [];
    assert Edges(TWICE, 1) == [Edge(Type(2), 2), Edge(Type(2), 2)];
    assert Edges(TWICE, 2) == [Edge(Type(1), 1)];
  }

  lemma ThroughEmpty(i: nat)
    ensures Through(i, [[]]) == [[i]]
  {
    var walks: seq<seq<nat>> := [[]];
    assert walks[..0] == [] && [i] + walks[0] == [i];
    assert Through(i, [[]]) == Through(i, []) + [[i] + []];
  }

  lemma TwiceWalks(g: Graph)
    requires g == map[1 := [Edge(Type(2), 2), Edge(Type(2), 2)], 2 := [Edge(Type(1), 1)]]
    ensures Closed(g) && Walks(g, [], 1) == [[], [0], [1]]
  {
    assert [1] + [2] == [1, 2] && [] + [1] == [1];
    assert Walks(g, [1, 2], 1) == [];
    assert WalksBelow(g, [1, 2], 2, 1) == WalksBelow(g, [1, 2], 2, 0) + Through(0, Walks(g, [1, 2], 1)) == [];
    assert Walks(g, [1], 2) == [[]] + WalksBelow(g, [1, 2], 2, 1) == [[]];
    ThroughEmpty(0);
    ThroughEmpty(1);
    assert WalksBelow(g, [1], 1, 1) == WalksBelow(g, [1], 1, 0) + [[0]] == [[0]];
    assert WalksBelow(g, [1], 1, 2) == WalksBelow(g, [1], 1, 1) + [[1]] == [[0], [1]];
    assert Walks(g, [], 1) == [[]] + WalksBelow(g, [1], 1, 2);
  }

  lemma OnePart(names: map<Tid, string>, part: Part)
    ensures PathString(names, []) == "" && PathString(names, [part]) == "/" + PartString(names, part)
  {
    assert [part][..0] == [];
    assert PathString(names, [part]) == PathString(names, []) + "/" + PartString(names, part);
  }

  /** A walk of one edge. */
  lemma OneEdge(g: Graph, names: map<Tid, string>, tid: Tid, i: nat)
    requires tid in g && i < |g[tid]|
    ensures Entry(g, names, [], tid, [i]) == (g[tid][i].target, "/" + PartString(names, g[tid][i].part))
    ensures Entry(g, names, [], tid, []) == (tid, "")
  {
    EndCons(g, tid, [i]);
    assert [i][1..] == [];
    assert Visited(g, g[tid][i].target, []) == [g[tid][i].target];
    assert Parts(g, tid, [i]) == [g[tid][i].part] + Parts(g, g[tid][i].target, []);
    assert [] + Parts(g, tid, [i]) == [g[tid][i].part];
    OnePart(names, g[tid][i].part);
  }

  lemma TwiceRecorded()
    ensures Closed(GraphOf(TWICE))
    ensures Gathered(GraphOf(TWICE), TWICE.names, [], [], 1) == [(1, ""), (2, "/$B"), (2, "/$B")]
  {
    TwiceEdges();
    TwiceWalks(GraphOf(TWICE));
    TwoEdgeEntries(GraphOf(TWICE), TWICE.names, 1);
    assert "/" + PartString(TWICE.names, Type(2)) == "/$B";
  }

  lemma EntriesSnoc(g: Graph, names: map<Tid, string>, tid: Tid, walks: seq<seq<nat>>, w: seq<nat>)
    ensures Entries(g, names, [], tid, walks + [w]) == Entries(g, names, [], tid, walks) + [Entry(g, names, [], tid, w)]
  {
    assert (walks + [w])[..|walks|] == walks;
  }

  function EdgeEntry(names: map<Tid, string>, e: Edge): Pair {
    (e.target, "/" + PartString(names, e.part))
  }

  lemma OneEdgeEntries(g: Graph, names: map<Tid, string>, tid: Tid)
    requires tid in g && |g[tid]| >= 1
    ensures Entries(g, names, [], tid, [[], [0]]) == [(tid, ""), EdgeEntry(names, g[tid][0])]
  {
    OneEdge(g, names, tid, 0);
    EntriesSnoc(g, names, tid, [[]], [0]);
    EntriesFirst(g, names, [], tid);
    assert [[]] + [[0]] == [[], [0]];
  }

  lemma TwoEdgeEntries(g: Graph, names: map<Tid, string>, tid: Tid)
    requires tid in g && |g[tid]| >= 2
    ensures Entries(g, names, [], tid, [[], [0], [1]]) == [(tid, ""), EdgeEntry(names, g[tid][0]), EdgeEntry(names, g[tid][1])]
  {
    OneEdgeEntries(g, names, tid);
    OneEdge(g, names, tid, 1);
    EntriesSnoc(g, names, tid, [[], [0]], [1]);
    assert [[], [0]] + [[1]] == [[], [0], [1]];
  }
}
