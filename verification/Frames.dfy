/** What travels on a link: data frames with their priority, and priority flow control frames. */
module Frames {

  datatype Option<+T> = None | Some(value: T)

  /** The eight traffic classes: the top three bits of the IPv4 TOS octet. */
  type Prio = p: nat | p < 8

  type Word = w: nat | w < 0x1_0000

  type Quanta = q: seq<Word> | |q| == 8 witness [0, 0, 0, 0, 0, 0, 0, 0]

  /**
   * A packet is identified by its uid. `egress` is the interface that the
   * receiving node's routing gives it, None for a packet that is delivered locally.
   */
  datatype Frame =
    | Data(uid: nat, prio: Prio, egress: Option<nat>)
    | Control(enabled: set<Prio>, quanta: Quanta)

  type DataFrame = f: Frame | f.Data? witness Data(0, 0, None)

  predicate IsClass(f: Frame, p: Prio) {
    f.Data? && f.prio == p
  }

  // ---------- Selecting frames from a queue ----------

  /** The frames that pass a test, in order. */
  function Keep(q: seq<Frame>, test: Frame -> bool): (r: seq<Frame>)
    ensures |r| <= |q|
    ensures forall i :: 0 <= i < |r| ==> test(r[i])
  {
    if q == [] then []
    else if test(q[0]) then [q[0]] + Keep(q[1..], test)
    else Keep(q[1..], test)
  }

  lemma {:induction false} KeepConcat(a: seq<Frame>, b: seq<Frame>, test: Frame -> bool)
    ensures Keep(a + b, test) == Keep(a, test) + Keep(b, test)
  {
    if a == [] {
      assert a + b == b;
    } else {
      var s := a + b;
      assert s[0] == a[0];
      assert s[1..] == a[1..] + b;
      KeepConcat(a[1..], b, test);
      assert [a[0]] + (Keep(a[1..], test) + Keep(b, test)) == ([a[0]] + Keep(a[1..], test)) + Keep(b, test);
    }
  }

  lemma {:induction false} KeepAll(q: seq<Frame>, test: Frame -> bool)
    requires forall f :: f in q ==> test(f)
    ensures Keep(q, test) == q
  {
    if q != [] {
      assert q[0] in q;
      assert forall f :: f in q[1..] ==> f in q;
      KeepAll(q[1..], test);
      assert q == [q[0]] + q[1..];
    }
  }

  lemma {:induction false} KeepNone(q: seq<Frame>, test: Frame -> bool)
    requires forall f :: f in q ==> !test(f)
    ensures Keep(q, test) == []
  {
    if q != [] {
      assert q[0] in q;
      assert forall f :: f in q[1..] ==> f in q;
      KeepNone(q[1..], test);
    }
  }

  /** Dropping frames that would fail the second test anyway makes no difference to it. */
  lemma {:induction false} KeepTwice(q: seq<Frame>, first: Frame -> bool, second: Frame -> bool)
    requires forall f :: second(f) ==> first(f)
    ensures Keep(Keep(q, first), second) == Keep(q, second)
  {
    if q != [] {
      KeepTwice(q[1..], first, second);
      if first(q[0]) {
        assert Keep(q, first)[1..] == Keep(q[1..], first);
      }
    }
  }

  /** A queue splits into what passes a test and what does not: nothing is lost and nothing appears. */
  lemma {:induction false} KeepSplits(q: seq<Frame>, test: Frame -> bool, opposite: Frame -> bool)
    requires forall f :: opposite(f) <==> !test(f)
    ensures |Keep(q, test)| + |Keep(q, opposite)| == |q|
    ensures multiset(Keep(q, test)) + multiset(Keep(q, opposite)) == multiset(q)
  {
    if q != [] {
      KeepSplits(q[1..], test, opposite);
      assert q == [q[0]] + q[1..];
    }
  }

  // ---------- Classes ----------

  function InClass(p: Prio): Frame -> bool {
    (f: Frame) => IsClass(f, p)
  }

  function NotInClass(p: Prio): Frame -> bool {
    (f: Frame) => !IsClass(f, p)
  }

  /** The data frames of class `p`, in order. */
  function OfClass(q: seq<Frame>, p: Prio): seq<DataFrame> {
    Keep(q, InClass(p))
  }

  /** Everything but the data frames of class `p`, in order. */
  function Without(q: seq<Frame>, p: Prio): seq<Frame> {
    Keep(q, NotInClass(p))
  }

  lemma OfClassConcat(a: seq<Frame>, b: seq<Frame>, p: Prio)
    ensures OfClass(a + b, p) == OfClass(a, p) + OfClass(b, p)
  {
    KeepConcat(a, b, InClass(p));
  }

  lemma OfClassSnoc(a: seq<Frame>, f: Frame, p: Prio)
    ensures OfClass(a + [f], p) == OfClass(a, p) + if IsClass(f, p) then [f] else []
  {
    KeepConcat(a, [f], InClass(p));
    assert Keep([f], InClass(p)) == if IsClass(f, p) then [f] + Keep([], InClass(p)) else Keep([], InClass(p));
  }

  lemma OfClassTail(q: seq<Frame>, p: Prio)
    requires q != []
    ensures OfClass(q, p) == OfClass([q[0]], p) + OfClass(q[1..], p)
  {
    assert q == [q[0]] + q[1..];
    OfClassConcat([q[0]], q[1..], p);
  }

  /** A sequence that holds one class only is its own projection, and empty for the others. */
  lemma OfClassPure(q: seq<Frame>, p: Prio, r: Prio)
    requires forall f :: f in q ==> IsClass(f, p)
    ensures OfClass(q, r) == if r == p then q else []
  {
    if r == p {
      KeepAll(q, InClass(r));
    } else {
      KeepNone(q, InClass(r));
    }
  }

  /** Setting one class aside leaves the order inside every other class as it was. */
  lemma OfClassWithout(q: seq<Frame>, p: Prio, r: Prio)
    ensures OfClass(Without(q, p), r) == if r == p then [] else OfClass(q, r)
  {
    if r == p {
      KeepNone(Without(q, p), InClass(r));
    } else {
      KeepTwice(q, NotInClass(p), InClass(r));
    }
  }

  lemma SplitCount(q: seq<Frame>, p: Prio)
    ensures |OfClass(q, p)| + |Without(q, p)| == |q|
    ensures multiset(Keep(q, InClass(p))) + multiset(Without(q, p)) == multiset(q)
  {
    KeepSplits(q, InClass(p), NotInClass(p));
  }

  // ---------- Control frames ----------

  function IsControl(): Frame -> bool {
    (f: Frame) => f.Control?
  }

  function Enables(p: Prio): Frame -> bool {
    (f: Frame) => f.Control? && p in f.enabled
  }

  /** The control frames of a queue, in order. */
  function Controls(q: seq<Frame>): (r: seq<Frame>) {
    Keep(q, IsControl())
  }

  /** The control frames that enable a class, in order. */
  function ControlsFor(q: seq<Frame>, p: Prio): (r: seq<Frame>) {
    Keep(q, Enables(p))
  }
}
