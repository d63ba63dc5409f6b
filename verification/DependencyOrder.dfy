/**
 * The order in which the language bindings load their libraries: in steps, each step
 * holding the libraries whose dependencies were all loaded in earlier steps.
 */
module DependencyOrder {
  import opened Sequences

  type Deps = map<string, seq<string>>

  /** The steps, or the endless recursion of a call that can load nothing more. */
  datatype Result = Steps(layers: seq<seq<string>>) | RecursionError

  predicate Known(deps: Deps, s: seq<string>) {
    forall i :: 0 <= i < |s| ==> s[i] in deps
  }

  predicate Ready(deps: Deps, current: seq<string>, name: string)
    requires name in deps
  {
    forall i :: 0 <= i < |deps[name]| ==> deps[name][i] in current
  }

  function Loadable(deps: Deps, pending: seq<string>, current: seq<string>): (r: seq<string>)
    requires Known(deps, pending)
    ensures forall x :: x in r <==> x in pending && Ready(deps, current, x)
  {
    if pending == [] then []
    else
      assert forall x :: x in pending <==> x == pending[0] || x in pending[1..];
      var rest := Loadable(deps, pending[1..], current);
      if Ready(deps, current, pending[0]) then [pending[0]] + rest else rest
  }

  function Without(pending: seq<string>, taken: seq<string>): (r: seq<string>)
    ensures forall x :: x in r <==> x in pending && x !in taken
    ensures |r| <= |pending| && (|r| == |pending| ==> r == pending)
  {
    if pending == [] then []
    else
      assert forall x :: x in pending <==> x == pending[0] || x in pending[1..];
      var rest := Without(pending[1..], taken);
      assert pending == [pending[0]] + pending[1..];
      if pending[0] in taken then rest else [pending[0]] + rest
  }

  /** What a call makes of the lists of pending and of loaded libraries. */
  function Order(deps: Deps, pending: seq<string>, current: seq<string>): Result
    requires Known(deps, pending)
    decreases |pending|
  {
    if pending == [] then Steps([])
    else
      var layer := Loadable(deps, pending, current);
      if layer == [] then RecursionError
      else
        assert layer[0] in layer;
        var rest := Without(pending, layer);
        assert forall i :: 0 <= i < |rest| ==> rest[i] in rest;
        var r := Order(deps, rest, current + layer);
        if r.RecursionError? then RecursionError else Steps([layer] + r.layers)
  }

  function Flatten(layers: seq<seq<string>>): seq<string> {
    if layers == [] then [] else layers[0] + Flatten(layers[1..])
  }

  lemma FlattenCons(layer: seq<string>, layers: seq<seq<string>>)
    ensures Flatten([layer] + layers) == layer + Flatten(layers)
  {
    assert ([layer] + layers)[1..] == layers;
  }

  /** A call that can load something goes on with what is left. */
  lemma OrderStep(deps: Deps, pending: seq<string>, current: seq<string>)
    requires Known(deps, pending) && Loadable(deps, pending, current) != []
    ensures var layer := Loadable(deps, pending, current); var rest := Without(pending, layer);
      && Known(deps, rest) && |rest| < |pending|
      && Order(deps, pending, current).Steps? == Order(deps, rest, current + layer).Steps?
      && (Order(deps, pending, current).Steps? ==>
            Order(deps, pending, current).layers == [layer] + Order(deps, rest, current + layer).layers)
  {
    var layer := Loadable(deps, pending, current);
    var rest := Without(pending, layer);
    assert layer[0] in layer;
    assert forall i :: 0 <= i < |rest| ==> rest[i] in rest;
  }

  // ---------- The recursive call over its shared lists ----------

  /** Removes the first occurrence. */
  function Remove(s: seq<string>, name: string): seq<string> {
    if s == [] then [] else if s[0] == name then s[1..] else [s[0]] + Remove(s[1..], name)
  }

  lemma DistinctTail(s: seq<string>)
    requires s != [] && Distinct(s)
    ensures Distinct(s[1..]) && s[0] !in s[1..]
  {
    var rest := s[1..];
    forall i | 0 <= i < |rest|
      ensures rest[i] != s[0]
    {
      assert rest[i] == s[i + 1];
    }
    forall i, j | 0 <= i < j < |rest|
      ensures rest[i] != rest[j]
    {
      assert rest[i] == s[i + 1] && rest[j] == s[j + 1];
    }
  }

  lemma {:induction false} WithoutNone(s: seq<string>)
    ensures Without(s, []) == s
  {
    if s != [] {
      WithoutNone(s[1..]);
      assert s == [s[0]] + s[1..];
    }
  }

  /** A call that can load nothing calls itself with the lists it had, without end. */
  lemma StuckStays(deps: Deps, pending: seq<string>, current: seq<string>)
    requires Known(deps, pending) && Loadable(deps, pending, current) == []
    ensures Without(pending, Loadable(deps, pending, current)) == pending
    ensures current + Loadable(deps, pending, current) == current
  {
    WithoutNone(pending);
  }

  lemma {:induction false} WithoutBoth(s: seq<string>, taken: seq<string>, name: string)
    requires name !in s
    ensures Without(s, taken + [name]) == Without(s, taken)
  {
    if s != [] {
      WithoutBoth(s[1..], taken, name);
    }
  }

  lemma {:induction false} WithoutSnoc(s: seq<string>, taken: seq<string>, name: string)
    requires Distinct(s) && name !in taken
    ensures Remove(Without(s, taken), name) == Without(s, taken + [name])
  {
    if s != [] {
      DistinctTail(s);
      assert ([s[0]] + Without(s[1..], taken))[1..] == Without(s[1..], taken);
      if s[0] == name {
        WithoutBoth(s[1..], taken, name);
      } else {
        WithoutSnoc(s[1..], taken, name);
      }
    }
  }

  lemma {:induction false} WithoutDistinct(s: seq<string>, taken: seq<string>)
    requires Distinct(s)
    ensures Distinct(Without(s, taken))
  {
    if s != [] {
      DistinctTail(s);
      WithoutDistinct(s[1..], taken);
      var rest := Without(s[1..], taken);
      forall i | 0 <= i < |rest|
        ensures rest[i] != s[0]
      {
        assert rest[i] in s[1..];
      }
    }
  }

  lemma {:induction false} LoadableDistinct(deps: Deps, pending: seq<string>, current: seq<string>)
    requires Known(deps, pending) && Distinct(pending)
    ensures Distinct(Loadable(deps, pending, current))
  {
    if pending != [] {
      DistinctTail(pending);
      LoadableDistinct(deps, pending[1..], current);
      var rest := Loadable(deps, pending[1..], current);
      forall i | 0 <= i < |rest|
        ensures rest[i] != pending[0]
      {
        assert rest[i] in pending[1..];
      }
    }
  }

  /** A call that returns has appended the steps, emptied the pending list and loaded everything on it. */
  predicate Carried(r: Result, returned: bool, steps0: seq<seq<string>>, current0: seq<string>,
                    pending: seq<string>, current: seq<string>, steps: seq<seq<string>>) {
    && returned == r.Steps?
    && (returned ==> steps == steps0 + r.layers && pending == [] && current == current0 + Flatten(r.layers))
  }

  lemma CarriedOn(r: Result, layer: seq<string>, rest: Result, returned: bool, steps0: seq<seq<string>>,
                  current0: seq<string>, pending: seq<string>, current: seq<string>, steps: seq<seq<string>>)
    requires r.Steps? == rest.Steps? && (r.Steps? ==> r.layers == [layer] + rest.layers)
    requires Carried(rest, returned, steps0 + [layer], current0 + layer, pending, current, steps)
    ensures Carried(r, returned, steps0, current0, pending, current, steps)
  {
    if returned {
      FlattenCons(layer, rest.layers);
      assert (steps0 + [layer]) + rest.layers == steps0 + ([layer] + rest.layers);
      assert (current0 + layer) + Flatten(rest.layers) == current0 + (layer + Flatten(rest.layers));
    }
  }

  class Sorter {
    const deps: Deps
    var pending: seq<string>
    var current: seq<string>
    var steps: seq<seq<string>>

    constructor (deps: Deps, keys: seq<string>)
      ensures this.deps == deps && pending == keys && current == [] && steps == []
    {
      this.deps := deps;
      pending := keys;
      current := [];
      steps := [];
    }

    method ModulesThatCanBeLoaded() returns (modules: seq<string>)
      requires Known(deps, pending)
      ensures modules == Loadable(deps, pending, current)
    {
      modules := [];
      for i := 0 to |pending|
        invariant modules + Loadable(deps, pending[i..], current) == Loadable(deps, pending, current)
      {
        ghost var before, after := modules, Loadable(deps, pending[i + 1..], current);
        assert pending[i..][0] == pending[i] && pending[i..][1..] == pending[i + 1..];
        var canBeLoaded := true;
        var needed := deps[pending[i]];
        for j := 0 to |needed|
          invariant canBeLoaded
          invariant forall k :: 0 <= k < j ==> needed[k] in current
        {
          if needed[j] !in current {
            canBeLoaded := false;
            break;
          }
        }
        assert canBeLoaded == Ready(deps, current, pending[i]);
        if !canBeLoaded {
          continue;
        }
        modules := modules + [pending[i]];
        assert before + ([pending[i]] + after) == modules + after;
      }
    }

    /** Moves the modules of a step from the pending to the loaded ones. */
    method Load(stepNumber: nat, modules: seq<string>)
      requires Distinct(pending) && Distinct(modules) && stepNumber == |steps|
      modifies this
      ensures steps == old(steps) + [modules]
      ensures pending == Without(old(pending), modules) && current == old(current) + modules
    {
      WithoutNone(pending);
      steps := steps + [[]];
      var i := 0;
      while i < |modules|
        invariant i <= |modules| && |steps| == stepNumber + 1
        invariant steps[..stepNumber] == old(steps) && steps[stepNumber] == modules[..i]
        invariant pending == Without(old(pending), modules[..i])
        invariant current == old(current) + modules[..i]
      {
        assert modules[..i + 1] == modules[..i] + [modules[i]];
        WithoutSnoc(old(pending), modules[..i], modules[i]);
        steps := steps[stepNumber := steps[stepNumber] + [modules[i]]];
        pending := Remove(pending, modules[i]);
        current := current + [modules[i]];
        i := i + 1;
      }
      assert modules[..i] == modules;
      assert steps == steps[..stepNumber] + [steps[stepNumber]];
    }

    /** Loads one step and calls itself for the next one. */
    method Continue(stepNumber: nat) returns (returned: bool)
      requires Known(deps, pending) && Distinct(pending) && stepNumber == |steps|
      modifies this
      ensures Carried(Order(deps, old(pending), old(current)), returned, old(steps), old(current), pending, current, steps)
      decreases |pending|
    {
      if |pending| == 0 {
        return true;
      }
      ghost var pending0, current0, steps0 := pending, current, steps;
      var modules := ModulesThatCanBeLoaded();
      LoadableDistinct(deps, pending, current);
      Load(stepNumber, modules);
      if modules == [] {
        // the next call would find the lists as this one did, and so would every later one
        return false;
      }
      OrderStep(deps, pending0, current0);
      WithoutDistinct(pending0, modules);
      ghost var rest := Order(deps, pending, current);
      returned := Continue(stepNumber + 1);
      assert Carried(rest, returned, steps0 + [modules], current0 + modules, pending, current, steps);
      CarriedOn(Order(deps, pending0, current0), modules, rest, returned, steps0, current0, pending, current, steps);
    }
  }

  /** All libraries in one list, step after step. */
  method SortToDependencies(deps: Deps, keys: seq<string>) returns (sorted: seq<string>, returned: bool)
    requires Known(deps, keys) && Distinct(keys)
    ensures returned == Order(deps, keys, []).Steps?
    ensures returned ==> sorted == Flatten(Order(deps, keys, []).layers)
  {
    sorted := [];
    var sorter := new Sorter(deps, keys);
    returned := sorter.Continue(0);
    if returned {
      assert sorter.steps == Order(deps, keys, []).layers;
      sorted := Concatenate(sorter.steps);
    }
  }

  method Concatenate(steps: seq<seq<string>>) returns (sorted: seq<string>)
    ensures sorted == Flatten(steps)
  {
    sorted := [];
    assert steps[0..] == steps;
    for i := 0 to |steps|
      invariant sorted + Flatten(steps[i..]) == Flatten(steps)
    {
      assert steps[i..] == [steps[i]] + steps[i + 1..];
      FlattenCons(steps[i], steps[i + 1..]);
      sorted := sorted + steps[i];
    }
  }

  // ---------- Every library after its dependencies ----------

  /** Every library of the list comes after its dependencies, some of which are loaded already. */
  predicate AfterDependencies(deps: Deps, loaded: seq<string>, list: seq<string>)
    requires Known(deps, list)
  {
    forall i, j :: 0 <= i < |list| && 0 <= j < |deps[list[i]]| ==> deps[list[i]][j] in loaded || deps[list[i]][j] in list[..i]
  }

  lemma LayerFirst(deps: Deps, loaded: seq<string>, layer: seq<string>, list: seq<string>)
    requires Known(deps, layer) && Known(deps, list)
    requires forall i :: 0 <= i < |layer| ==> Ready(deps, loaded, layer[i])
    requires AfterDependencies(deps, loaded + layer, list)
    ensures AfterDependencies(deps, loaded, layer + list)
  {
    var all := layer + list;
    forall i, j | 0 <= i < |all| && 0 <= j < |deps[all[i]]|
      ensures deps[all[i]][j] in loaded || deps[all[i]][j] in all[..i]
    {
      if i < |layer| {
        assert Ready(deps, loaded, layer[i]);
      } else {
        var k := i - |layer|;
        assert all[i] == list[k];
        assert all[..i] == layer + list[..k];
        assert deps[list[k]][j] in loaded + layer || deps[list[k]][j] in list[..k];
      }
    }
  }

  /** The list holds exactly the pending libraries, each once and after its dependencies. */
  lemma {:induction false} OrderIsSorted(deps: Deps, pending: seq<string>, current: seq<string>)
    requires Known(deps, pending) && Distinct(pending) && Order(deps, pending, current).Steps?
    ensures var list := Flatten(Order(deps, pending, current).layers);
      && Distinct(list) && (forall x :: x in list <==> x in pending)
      && Known(deps, list) && AfterDependencies(deps, current, list)
    decreases |pending|
  {
    if pending != [] {
      var layer := Loadable(deps, pending, current);
      var rest := Without(pending, layer);
      OrderStep(deps, pending, current);
      LoadableDistinct(deps, pending, current);
      WithoutDistinct(pending, layer);
      OrderIsSorted(deps, rest, current + layer);
      var layers := Order(deps, rest, current + layer).layers;
      var list := Flatten(layers);
      FlattenCons(layer, layers);
      assert forall i :: 0 <= i < |list| ==> list[i] in rest;
      DistinctConcat(layer, list);
      assert forall i :: 0 <= i < |layer| ==> layer[i] in layer;
      LayerFirst(deps, current, layer, list);
    }
  }

  // ---------- When the recursion ends ----------

  /** Every dependency is a library of the list itself. */
  predicate Closed(deps: Deps) {
    forall name :: name in deps ==> Known(deps, deps[name])
  }

  /** Each library of a chain depends on the next one. */
  predicate Chain(deps: Deps, c: seq<string>) {
    && Known(deps, c)
    && forall i :: 0 <= i < |c| - 1 ==> c[i + 1] in deps[c[i]]
  }

  ghost predicate Acyclic(deps: Deps) {
    forall c :: Chain(deps, c) && |c| >= 2 ==> c[0] != c[|c| - 1]
  }

  lemma ChainRest(deps: Deps, c: seq<string>)
    requires Chain(deps, c) && |c| > 1
    ensures Chain(deps, c[1..])
  {
    forall k | 0 <= k < |c[1..]| - 1
      ensures c[1..][k + 1] in deps[c[1..][k]]
    {
      assert c[k + 1 + 1] in deps[c[k + 1]];
    }
  }

  /** Along a chain the positions in a sorted list fall. */
  lemma {:induction false} ChainFalls(deps: Deps, list: seq<string>, c: seq<string>, k: nat)
    requires Known(deps, list) && AfterDependencies(deps, [], list) && Distinct(list)
    requires forall name :: name in deps ==> name in list
    requires Chain(deps, c) && |c| >= 2 && k < |list| && list[k] == c[0]
    ensures c[|c| - 1] in list[..k]
    decreases |c|
  {
    assert c[0 + 1] in deps[c[0]];
    var j :| 0 <= j < |deps[list[k]]| && deps[list[k]][j] == c[1];
    assert c[1] in list[..k];
    if |c| > 2 {
      var m :| 0 <= m < k && list[m] == c[1];
      ChainRest(deps, c);
      ChainFalls(deps, list, c[1..], m);
      assert c[|c| - 1] in list[..m];
    }
  }

  lemma SortedMeansAcyclic(deps: Deps, list: seq<string>)
    requires Known(deps, list) && AfterDependencies(deps, [], list) && Distinct(list)
    requires forall name :: name in deps ==> name in list
    ensures Closed(deps) && Acyclic(deps)
  {
    forall name | name in deps
      ensures Known(deps, deps[name])
    {
      var k :| 0 <= k < |list| && list[k] == name;
      forall j | 0 <= j < |deps[name]|
        ensures deps[name][j] in deps
      {
        assert deps[list[k]][j] in list[..k];
      }
    }
    forall c | Chain(deps, c) && |c| >= 2
      ensures c[0] != c[|c| - 1]
    {
      var k :| 0 <= k < |list| && list[k] == c[0];
      ChainFalls(deps, list, c, k);
    }
  }

  /** A chain of any length among libraries none of which can be loaded. */
  lemma {:induction false} StuckChain(deps: Deps, pending: seq<string>, current: seq<string>, name: string, n: nat) returns (c: seq<string>)
    requires Known(deps, pending) && Closed(deps) && Loadable(deps, pending, current) == []
    requires forall x :: x in deps ==> x in pending || x in current
    requires name in pending && n > 0
    ensures Chain(deps, c) && |c| == n && c[0] == name
    decreases n
  {
    assert name in deps;
    if n == 1 {
      c := [name];
    } else {
      assert !Ready(deps, current, name) by {
        assert name !in Loadable(deps, pending, current);
      }
      var i :| 0 <= i < |deps[name]| && deps[name][i] !in current;
      var rest := StuckChain(deps, pending, current, deps[name][i], n - 1);
      c := [name] + rest;
      forall k | 0 <= k < |c| - 1
        ensures c[k + 1] in deps[c[k]]
      {
        if k > 0 {
          assert rest[k - 1 + 1] in deps[rest[k - 1]];
        }
      }
    }
  }

  lemma {:induction false} DistinctFits(c: seq<string>, names: set<string>)
    requires Distinct(c) && forall i :: 0 <= i < |c| ==> c[i] in names
    ensures |c| <= |names|
  {
    if c != [] {
      DistinctTail(c);
      forall i | 0 <= i < |c[1..]|
        ensures c[1..][i] in names - {c[0]}
      {
        assert c[1..][i] == c[i + 1];
      }
      DistinctFits(c[1..], names - {c[0]});
    }
  }

  lemma LongChainsRepeat(deps: Deps, c: seq<string>)
    requires Chain(deps, c) && |c| > |deps.Keys|
    ensures !Acyclic(deps)
  {
    if Distinct(c) {
      DistinctFits(c, deps.Keys);
    } else {
      var i, j :| 0 <= i < j < |c| && c[i] == c[j];
      var cycle := c[i..j + 1];
      forall k | 0 <= k < |cycle| - 1
        ensures cycle[k + 1] in deps[cycle[k]]
      {
        assert c[i + k + 1] in deps[c[i + k]];
      }
      assert Chain(deps, cycle) && cycle[0] == cycle[|cycle| - 1];
    }
  }

  /** Without cycles and foreign dependencies the recursion never gets stuck. */
  lemma {:induction false} AcyclicEnds(deps: Deps, pending: seq<string>, current: seq<string>)
    requires Known(deps, pending) && Closed(deps) && Acyclic(deps)
    requires forall x :: x in deps ==> x in pending || x in current
    ensures Order(deps, pending, current).Steps?
    decreases |pending|
  {
    if pending != [] {
      var layer := Loadable(deps, pending, current);
      if layer == [] {
        var c := StuckChain(deps, pending, current, pending[0], |deps.Keys| + 1);
        LongChainsRepeat(deps, c);
      } else {
        var rest := Without(pending, layer);
        OrderStep(deps, pending, current);
        AcyclicEnds(deps, rest, current + layer);
      }
    }
  }

  /** The recursion ends exactly for a map without cycles that has all its dependencies as keys. */
  lemma EndsIff(deps: Deps, keys: seq<string>)
    requires Distinct(keys) && forall x :: x in keys <==> x in deps
    ensures Known(deps, keys)
    ensures Order(deps, keys, []).Steps? <==> Closed(deps) && Acyclic(deps)
  {
    assert forall i :: 0 <= i < |keys| ==> keys[i] in keys;
    if Closed(deps) && Acyclic(deps) {
      AcyclicEnds(deps, keys, []);
    }
    if Order(deps, keys, []).Steps? {
      OrderIsSorted(deps, keys, []);
      SortedMeansAcyclic(deps, Flatten(Order(deps, keys, []).layers));
    }
  }

  // ---------- The step of a library ----------

  ghost predicate HasChain(deps: Deps, name: string, n: nat) {
    exists c :: Chain(deps, c) && |c| == n && n > 0 && c[0] == name
  }

  lemma ChainCons(deps: Deps, name: string, d: string, n: nat)
    requires name in deps && d in deps[name] && HasChain(deps, d, n)
    ensures HasChain(deps, name, n + 1)
  {
    var c :| Chain(deps, c) && |c| == n && n > 0 && c[0] == d;
    var longer := [name] + c;
    forall k | 0 <= k < |longer| - 1
      ensures longer[k + 1] in deps[longer[k]]
    {
      if k > 0 {
        assert c[k - 1 + 1] in deps[c[k - 1]];
      }
    }
    assert Chain(deps, longer);
  }

  lemma ChainTail(deps: Deps, name: string, n: nat)
    requires HasChain(deps, name, n + 1) && n > 0
    ensures name in deps && exists i :: 0 <= i < |deps[name]| && HasChain(deps, deps[name][i], n)
  {
    var c :| Chain(deps, c) && |c| == n + 1 && c[0] == name;
    assert c[0 + 1] in deps[c[0]];
    var i :| 0 <= i < |deps[name]| && deps[name][i] == c[1];
    ChainRest(deps, c);
  }

  lemma ChainShorter(deps: Deps, name: string, n: nat)
    requires HasChain(deps, name, n + 1) && n > 0
    ensures HasChain(deps, name, n)
  {
    var c :| Chain(deps, c) && |c| == n + 1 && c[0] == name;
    assert Chain(deps, c[..n]);
  }

  /** After `n` steps exactly the libraries without a chain of `n + 1` have been loaded. */
  ghost predicate Stage(deps: Deps, current: seq<string>, n: nat) {
    forall name :: name in deps ==> (name in current <==> !HasChain(deps, name, n + 1))
  }

  lemma StageNext(deps: Deps, pending: seq<string>, current: seq<string>, n: nat)
    requires Known(deps, pending) && Closed(deps) && Stage(deps, current, n)
    requires forall x :: x in deps ==> x in pending || x in current
    ensures Stage(deps, current + Loadable(deps, pending, current), n + 1)
  {
    var layer := Loadable(deps, pending, current);
    forall name | name in deps
      ensures name in current + layer <==> !HasChain(deps, name, n + 2)
    {
      if HasChain(deps, name, n + 2) {
        ChainShorter(deps, name, n + 1);
        ChainTail(deps, name, n + 1);
        var i :| 0 <= i < |deps[name]| && HasChain(deps, deps[name][i], n + 1);
        assert Known(deps, deps[name]) && deps[name][i] in deps;
        assert !Ready(deps, current, name);
      } else if name !in current {
        forall i | 0 <= i < |deps[name]|
          ensures deps[name][i] in current
        {
          assert Known(deps, deps[name]) && deps[name][i] in deps;
          if HasChain(deps, deps[name][i], n + 1) {
            ChainCons(deps, name, deps[name][i], n + 1);
          }
        }
        assert name in layer;
      }
    }
  }

  /** The steps, each made of all that can be loaded then. */
  predicate Layered(deps: Deps, pending: seq<string>, current: seq<string>, layers: seq<seq<string>>)
    decreases layers
  {
    && Known(deps, pending)
    && (layers != [] ==>
          && layers[0] == Loadable(deps, pending, current)
          && Layered(deps, Without(pending, layers[0]), current + layers[0], layers[1..]))
  }

  lemma {:induction false} OrderIsLayered(deps: Deps, pending: seq<string>, current: seq<string>)
    requires Known(deps, pending) && Order(deps, pending, current).Steps?
    ensures Layered(deps, pending, current, Order(deps, pending, current).layers)
    decreases |pending|
  {
    if pending != [] {
      var layer := Loadable(deps, pending, current);
      OrderStep(deps, pending, current);
      OrderIsLayered(deps, Without(pending, layer), current + layer);
      assert Order(deps, pending, current).layers[1..] == Order(deps, Without(pending, layer), current + layer).layers;
    }
  }

  /** A library of step `k`, counted from `n`, has a chain of `n + k + 1` libraries but none of `n + k + 2`. */
  lemma {:induction false} LayerDepth(deps: Deps, pending: seq<string>, current: seq<string>, n: nat,
                                      layers: seq<seq<string>>, k: nat, name: string)
    requires Layered(deps, pending, current, layers) && Closed(deps) && Stage(deps, current, n)
    requires forall x :: x in deps ==> (x in pending <==> x !in current)
    requires k < |layers| && name in layers[k]
    ensures HasChain(deps, name, n + k + 1) && !HasChain(deps, name, n + k + 2)
    decreases k
  {
    StageNext(deps, pending, current, n);
    if k == 0 {
      assert name in pending && name in current + layers[0];
    } else {
      assert layers[1..][k - 1] == layers[k];
      LayerDepth(deps, Without(pending, layers[0]), current + layers[0], n + 1, layers[1..], k - 1, name);
    }
  }

  /** The step of a library is the length of its longest chain of dependencies. */
  lemma StepIsLongestChain(deps: Deps, keys: seq<string>, k: nat, name: string)
    requires Known(deps, keys) && Distinct(keys) && (forall x :: x in keys <==> x in deps) && Order(deps, keys, []).Steps?
    requires k < |Order(deps, keys, []).layers| && name in Order(deps, keys, []).layers[k]
    ensures HasChain(deps, name, k + 1)
    ensures forall c :: Chain(deps, c) && |c| > 0 && c[0] == name ==> |c| <= k + 1
  {
    EndsIff(deps, keys);
    StartStage(deps);
    OrderIsLayered(deps, keys, []);
    LayerDepth(deps, keys, [], 0, Order(deps, keys, []).layers, k, name);
    NoLongerChain(deps, name, k + 1);
  }

  lemma StartStage(deps: Deps)
    ensures Stage(deps, [], 0)
  {
    forall x | x in deps
      ensures HasChain(deps, x, 1)
    {
      assert Chain(deps, [x]);
    }
  }

  lemma ChainPrefix(deps: Deps, c: seq<string>, n: nat)
    requires Chain(deps, c) && 0 < n <= |c|
    ensures HasChain(deps, c[0], n)
  {
    assert Chain(deps, c[..n]);
  }

  lemma NoLongerChain(deps: Deps, name: string, n: nat)
    requires !HasChain(deps, name, n + 1)
    ensures forall c :: Chain(deps, c) && |c| > 0 && c[0] == name ==> |c| <= n
  {
    forall c | Chain(deps, c) && |c| > 0 && c[0] == name
      ensures |c| <= n
    {
      ChainPrefix(deps, c, if |c| <= n then |c| else n + 1);
    }
  }

  // ---------- The order inside a step ----------

  /** The elements of one list stand in the order in which they stand in the other. */
  predicate InOrderOf(part: seq<string>, whole: seq<string>) {
    forall i, j, a, b :: 0 <= i < j < |part| && 0 <= a < |whole| && 0 <= b < |whole| && whole[a] == part[i] && whole[b] == part[j] ==> a < b
  }

  lemma InOrderCons(x: string, part: seq<string>, whole: seq<string>)
    requires Distinct([x] + whole) && InOrderOf(part, whole) && forall y :: y in part ==> y in whole
    ensures InOrderOf([x] + part, [x] + whole) && InOrderOf(part, [x] + whole)
  {
    var w := [x] + whole;
    assert forall a :: 0 < a < |w| ==> w[a] == whole[a - 1];
    forall k | 0 <= k < |whole|
      ensures whole[k] != x
    {
      assert w[k + 1] == whole[k] && w[0] == x;
    }
    forall i, j, a, b | 0 <= i < j < |part| && 0 <= a < |w| && 0 <= b < |w| && w[a] == part[i] && w[b] == part[j]
      ensures a < b
    {
      assert part[i] in whole && part[j] in whole;
      assert whole[a - 1] == part[i] && whole[b - 1] == part[j];
    }
    forall i, j, a, b | 0 <= i < j < |[x] + part| && 0 <= a < |w| && 0 <= b < |w| && w[a] == ([x] + part)[i] && w[b] == ([x] + part)[j]
      ensures a < b
    {
      assert ([x] + part)[j] == part[j - 1] && part[j - 1] in whole;
      if i > 0 {
        assert ([x] + part)[i] == part[i - 1] && part[i - 1] in whole;
      }
    }
  }

  lemma {:induction false} LoadableInOrder(deps: Deps, pending: seq<string>, current: seq<string>)
    requires Known(deps, pending) && Distinct(pending)
    ensures InOrderOf(Loadable(deps, pending, current), pending)
  {
    if pending != [] {
      DistinctTail(pending);
      LoadableInOrder(deps, pending[1..], current);
      assert pending == [pending[0]] + pending[1..];
      InOrderCons(pending[0], Loadable(deps, pending[1..], current), pending[1..]);
    }
  }

  lemma {:induction false} WithoutInOrder(pending: seq<string>, taken: seq<string>)
    requires Distinct(pending)
    ensures InOrderOf(Without(pending, taken), pending)
  {
    if pending != [] {
      DistinctTail(pending);
      WithoutInOrder(pending[1..], taken);
      assert pending == [pending[0]] + pending[1..];
      InOrderCons(pending[0], Without(pending[1..], taken), pending[1..]);
    }
  }

  lemma InOrderTwice(part: seq<string>, middle: seq<string>, whole: seq<string>)
    requires InOrderOf(part, middle) && InOrderOf(middle, whole) && forall x :: x in part ==> x in middle
    ensures InOrderOf(part, whole)
  {
    forall i, j, a, b | 0 <= i < j < |part| && 0 <= a < |whole| && 0 <= b < |whole| && whole[a] == part[i] && whole[b] == part[j]
      ensures a < b
    {
      assert part[i] in middle && part[j] in middle;
      var x :| 0 <= x < |middle| && middle[x] == part[i];
      var y :| 0 <= y < |middle| && middle[y] == part[j];
      assert x < y;
    }
  }

  ghost predicate Stands(part: seq<string>, whole: seq<string>) {
    InOrderOf(part, whole) && forall x :: x in part ==> x in whole
  }

  lemma StandsBelow(part: seq<string>, pending: seq<string>, taken: seq<string>)
    requires Distinct(pending) && Stands(part, Without(pending, taken))
    ensures Stands(part, pending)
  {
    WithoutInOrder(pending, taken);
    InOrderTwice(part, Without(pending, taken), pending);
  }

  /** Inside a step the modules stand in the order of the pending list. */
  lemma {:induction false} StepsKeepOrder(deps: Deps, pending: seq<string>, current: seq<string>, k: nat)
    requires Known(deps, pending) && Distinct(pending)
    requires Order(deps, pending, current).Steps? && k < |Order(deps, pending, current).layers|
    ensures Stands(Order(deps, pending, current).layers[k], pending)
    decreases |pending|
  {
    if pending != [] {
      var layer := Loadable(deps, pending, current);
      OrderStep(deps, pending, current);
      if k == 0 {
        LoadableInOrder(deps, pending, current);
      } else {
        WithoutDistinct(pending, layer);
        var rest := Without(pending, layer);
        StepsKeepOrder(deps, rest, current + layer, k - 1);
        StandsBelow(Order(deps, rest, current + layer).layers[k - 1], pending, layer);
      }
    }
  }
}
