/** The scan of a sandbox result for callables: one walk of an arbitrary heap graph under a node allowance. */
module CallableScan {
  import opened Basics
  import opened Isolation

  const RESULT_MAX_DEPTH: nat := 32
  const RESULT_MAX_NODES: int := 100000

  predicate IsCallable(nodes: Nodes, v: Ref) {
    v in nodes && (nodes[v].Function? || nodes[v].Builtin?)
  }

  /** A walk from `v` over the values held ends at a callable. */
  ghost predicate CallableBelow(nodes: Nodes, v: Ref) {
    exists chain :: IsChain(nodes, v, chain) && IsCallable(nodes, chain[|chain| - 1])
  }

  /** What visiting one value spends: one, and one more for each element of a buffer. */
  function Spent(n: Node): nat {
    match n
    case Buffer(_, _, data) => 1 + |data|
    case _ => 1
  }

  /** What the whole walk below `v` spends, if it meets no callable and nothing nested too deep. A NULL spends
      nothing. */
  function Weigh(nodes: Nodes, v: Ref, depth: nat): Option<nat>
    requires depth <= RESULT_MAX_DEPTH + 1
    decreases RESULT_MAX_DEPTH + 1 - depth, 0
  {
    if v !in nodes then Some(0)
    else if IsCallable(nodes, v) || depth > RESULT_MAX_DEPTH then None
    else
      var below := WeighAll(nodes, nodes[v].Children(), depth + 1);
      if below.None? then None else Some(Spent(nodes[v]) + below.value)
  }

  function WeighAll(nodes: Nodes, vs: seq<Ref>, depth: nat): Option<nat>
    requires depth <= RESULT_MAX_DEPTH + 1
    decreases RESULT_MAX_DEPTH + 1 - depth, 1 + |vs|
  {
    if vs == [] then Some(0) else
    var front := WeighAll(nodes, vs[..|vs| - 1], depth);
    if front.None? then None else
    var last := Weigh(nodes, vs[|vs| - 1], depth);
    if last.None? then None else Some(front.value + last.value)
  }

  /** The walk below fits the allowance. */
  predicate Clears(w: Option<nat>, budget: int) {
    w.Some? && w.value < budget
  }

  lemma {:induction false} PrefixWeighs(nodes: Nodes, vs: seq<Ref>, depth: nat, i: nat)
    requires depth <= RESULT_MAX_DEPTH + 1 && i <= |vs| && WeighAll(nodes, vs, depth).Some?
    ensures WeighAll(nodes, vs[..i], depth).Some?
    ensures WeighAll(nodes, vs[..i], depth).value <= WeighAll(nodes, vs, depth).value
    decreases |vs|
  {
    if i == |vs| {
      assert vs[..i] == vs;
    } else {
      PrefixWeighs(nodes, vs[..|vs| - 1], depth, i);
      assert vs[..|vs| - 1][..i] == vs[..i];
    }
  }

  lemma OneMoreWeighs(nodes: Nodes, vs: seq<Ref>, depth: nat, i: nat)
    requires depth <= RESULT_MAX_DEPTH + 1 && i < |vs| && WeighAll(nodes, vs[..i], depth).Some?
    ensures
      var front, here, both := WeighAll(nodes, vs[..i], depth), Weigh(nodes, vs[i], depth),
        WeighAll(nodes, vs[..i + 1], depth);
      && (both.Some? <==> here.Some?)
      && (both.Some? ==> both.value == front.value + here.value)
      && (here.None? ==> WeighAll(nodes, vs, depth).None?)
  {
    assert vs[..i + 1][..i] == vs[..i];
    if WeighAll(nodes, vs, depth).Some? {
      PrefixWeighs(nodes, vs, depth, i + 1);
    }
  }

  lemma {:induction false} ChildCallable(nodes: Nodes, v: Ref, child: Ref)
    requires v in nodes && child in nodes[v].Children() && CallableBelow(nodes, child)
    ensures CallableBelow(nodes, v)
  {
    var chain :| IsChain(nodes, child, chain) && IsCallable(nodes, chain[|chain| - 1]);
    var longer := [v] + chain;
    assert longer[1..] == chain;
    assert IsChain(nodes, v, longer) && longer[|longer| - 1] == chain[|chain| - 1];
  }

  class Scan {
    var budget: int
    var unverified: bool

    constructor ()
      ensures budget == RESULT_MAX_NODES && !unverified
    {
      budget, unverified := RESULT_MAX_NODES, false;
    }

    /** Is there a callable below `v`, or can that not be told? */
    method HasCallable(nodes: Nodes, v: Ref, depth: nat) returns (hit: bool)
      requires depth <= RESULT_MAX_DEPTH + 1 && budget >= 1 && !unverified
      modifies this
      ensures !hit <==> Clears(Weigh(nodes, v, depth), old(budget))
      ensures !hit ==> budget == old(budget) - Weigh(nodes, v, depth).value && !unverified
      ensures hit && !unverified ==> CallableBelow(nodes, v)
      decreases RESULT_MAX_DEPTH + 1 - depth
    {
      WeighUnfolds(nodes, v, depth);
      ItselfCallable(nodes, v);
      hide IsChain, CallableBelow, Weigh, WeighAll;
      if v !in nodes { return false; }
      var node := nodes[v];
      if node.Function? || node.Builtin? { return true; }
      if depth > RESULT_MAX_DEPTH {
        unverified := true;
        return true;
      }
      budget := budget - 1;
      if budget <= 0 {
        unverified := true;
        return true;
      }
      if node.Buffer? {
        budget := budget - |node.data|;
        if budget <= 0 {
          unverified := true;
          return true;
        }
      }
      var vs := node.Children();
      ghost var left := budget;
      NothingWeighs(nodes, vs, depth + 1);
      hide Walked;
      for i := 0 to |vs|
        invariant budget >= 1 && !unverified
        invariant Walked(nodes, vs, depth + 1, i, left, budget)
      {
        WalkOneMore(nodes, vs, depth + 1, i, left, budget);
        assert vs[i] in nodes[v].Children();
        hit := HasCallable(nodes, vs[i], depth + 1);
        if hit {
          if CallableBelow(nodes, vs[i]) {
            ChildCallable(nodes, v, vs[i]);
          }
          return;
        }
      }
      WalkDone(nodes, vs, depth + 1, left, budget);
      return false;
    }
  }

  /** The first `i` of some values have been walked, and the allowance has gone from `left` to `now`. */
  predicate Walked(nodes: Nodes, vs: seq<Ref>, depth: nat, i: int, left: int, now: int)
    requires depth <= RESULT_MAX_DEPTH + 1
  {
    && 0 <= i <= |vs|
    && Clears(WeighAll(nodes, vs[..i], depth), left)
    && now == left - WeighAll(nodes, vs[..i], depth).value
  }

  lemma WalkOneMore(nodes: Nodes, vs: seq<Ref>, depth: nat, i: int, left: int, now: int)
    requires depth <= RESULT_MAX_DEPTH + 1 && Walked(nodes, vs, depth, i, left, now) && i < |vs|
    ensures Clears(Weigh(nodes, vs[i], depth), now) ==>
      Walked(nodes, vs, depth, i + 1, left, now - Weigh(nodes, vs[i], depth).value)
    ensures !Clears(Weigh(nodes, vs[i], depth), now) ==> !Clears(WeighAll(nodes, vs, depth), left)
  {
    hide Weigh, WeighAll;
    OneMoreWeighs(nodes, vs, depth, i);
    if WeighAll(nodes, vs, depth).Some? {
      PrefixWeighs(nodes, vs, depth, i + 1);
    }
  }

  lemma WalkDone(nodes: Nodes, vs: seq<Ref>, depth: nat, left: int, now: int)
    requires depth <= RESULT_MAX_DEPTH + 1 && Walked(nodes, vs, depth, |vs|, left, now)
    ensures Clears(WeighAll(nodes, vs, depth), left) && now == left - WeighAll(nodes, vs, depth).value
  {
    assert vs[..|vs|] == vs;
  }

  lemma NothingWeighs(nodes: Nodes, vs: seq<Ref>, depth: nat)
    requires depth <= RESULT_MAX_DEPTH + 1
    ensures forall left :: left >= 1 ==> Walked(nodes, vs, depth, 0, left, left)
  {
  }

  lemma ItselfCallable(nodes: Nodes, v: Ref)
    ensures IsCallable(nodes, v) ==> CallableBelow(nodes, v)
  {
    assert IsChain(nodes, v, [v]) && [v][0] == v;
  }

  lemma WeighUnfolds(nodes: Nodes, v: Ref, depth: nat)
    requires depth <= RESULT_MAX_DEPTH + 1
    ensures v !in nodes ==> Weigh(nodes, v, depth) == Some(0)
    ensures v in nodes && (IsCallable(nodes, v) || depth > RESULT_MAX_DEPTH) ==> Weigh(nodes, v, depth) == None
    ensures v in nodes && !IsCallable(nodes, v) && depth <= RESULT_MAX_DEPTH ==>
      var below := WeighAll(nodes, nodes[v].Children(), depth + 1);
      Weigh(nodes, v, depth) == if below.None? then None else Some(Spent(nodes[v]) + below.value)
  {
  }

  // ---- What a clear walk means ----

  /** The walk ends at a value that is no callable, within the depth bound, or at a NULL. */
  predicate Harmless(nodes: Nodes, chain: seq<Ref>, depth: nat)
    requires chain != []
  {
    var last := chain[|chain| - 1];
    last in nodes ==> !IsCallable(nodes, last) && depth + |chain| <= RESULT_MAX_DEPTH + 1
  }

  lemma {:induction false} WeighedChainHarmless(nodes: Nodes, v: Ref, depth: nat, chain: seq<Ref>)
    requires depth <= RESULT_MAX_DEPTH + 1 && Weigh(nodes, v, depth).Some? && IsChain(nodes, v, chain)
    ensures Harmless(nodes, chain, depth)
    decreases |chain|
  {
    hide WeighAll, Weigh;
    WeighUnfolds(nodes, v, depth);
    if |chain| > 1 {
      var vs := nodes[v].Children();
      var i :| 0 <= i < |vs| && vs[i] == chain[1];
      PrefixWeighs(nodes, vs, depth + 1, i);
      PrefixWeighs(nodes, vs, depth + 1, i + 1);
      OneMoreWeighs(nodes, vs, depth + 1, i);
      WeighedChainHarmless(nodes, chain[1], depth + 1, chain[1..]);
    }
  }

  lemma {:induction false} HarmfulChain(nodes: Nodes, v: Ref, depth: nat) returns (chain: seq<Ref>)
    requires depth <= RESULT_MAX_DEPTH + 1 && Weigh(nodes, v, depth).None?
    ensures IsChain(nodes, v, chain) && !Harmless(nodes, chain, depth)
    decreases RESULT_MAX_DEPTH + 1 - depth, 0
  {
    chain := [v];
    if !IsCallable(nodes, v) && depth <= RESULT_MAX_DEPTH {
      var i, rest := HarmfulChild(nodes, nodes[v].Children(), depth + 1);
      chain := [v] + rest;
      assert chain[1..] == rest;
    }
  }

  lemma {:induction false} HarmfulChild(nodes: Nodes, vs: seq<Ref>, depth: nat) returns (i: nat, chain: seq<Ref>)
    requires depth <= RESULT_MAX_DEPTH + 1 && WeighAll(nodes, vs, depth).None?
    ensures i < |vs| && IsChain(nodes, vs[i], chain) && !Harmless(nodes, chain, depth)
    decreases RESULT_MAX_DEPTH + 1 - depth, 1 + |vs|
  {
    if WeighAll(nodes, vs[..|vs| - 1], depth).None? {
      i, chain := HarmfulChild(nodes, vs[..|vs| - 1], depth);
    } else {
      i := |vs| - 1;
      chain := HarmfulChain(nodes, vs[i], depth);
    }
  }

  /** The walk below a value can be weighed exactly when no walk from it reaches a callable or goes too deep. */
  lemma WeighsIffEveryChainHarmless(nodes: Nodes, v: Ref, depth: nat)
    requires depth <= RESULT_MAX_DEPTH + 1
    ensures Weigh(nodes, v, depth).Some? <==> forall chain :: IsChain(nodes, v, chain) ==> Harmless(nodes, chain, depth)
  {
    if Weigh(nodes, v, depth).None? {
      var chain := HarmfulChain(nodes, v, depth);
    } else {
      forall chain | IsChain(nodes, v, chain) ensures Harmless(nodes, chain, depth) {
        WeighedChainHarmless(nodes, v, depth, chain);
      }
    }
  }

  /** For data, the scan spends exactly what isolating it would. */
  lemma {:induction false} WeightIsCost(nodes: Nodes, path: seq<Ref>, v: Ref, depth: nat)
    requires |path| <= MAX_DEPTH && depth <= RESULT_MAX_DEPTH + 1
    requires Unfold(nodes, path, v).Some? && Weigh(nodes, v, depth).Some?
    ensures Weigh(nodes, v, depth).value == Cost(Unfold(nodes, path, v).value)
    decreases RESULT_MAX_DEPTH + 1 - depth, 0
  {
    if nodes[v].IsContainer() {
      WeightsAreCosts(nodes, path + [v], nodes[v].Children(), depth + 1);
    }
  }

  lemma {:induction false} WeightsAreCosts(nodes: Nodes, path: seq<Ref>, vs: seq<Ref>, depth: nat)
    requires |path| <= MAX_DEPTH && depth <= RESULT_MAX_DEPTH + 1
    requires UnfoldAll(nodes, path, vs).Some? && WeighAll(nodes, vs, depth).Some?
    ensures WeighAll(nodes, vs, depth).value == CostAll(UnfoldAll(nodes, path, vs).value)
    decreases RESULT_MAX_DEPTH + 1 - depth, 1 + |vs|
  {
    if vs != [] {
      WeightsAreCosts(nodes, path, vs[..|vs| - 1], depth);
      WeightIsCost(nodes, path, vs[|vs| - 1], depth);
      var ts := UnfoldAll(nodes, path, vs).value;
      assert ts[..|ts| - 1] == UnfoldAll(nodes, path, vs[..|vs| - 1]).value;
    }
  }

  /** The walk ends at a function or a builtin, the two kinds of value that a call executes. */
  predicate EndsAtFunction(nodes: Nodes, chain: seq<Ref>)
    requires chain != []
  {
    var last := chain[|chain| - 1];
    last in nodes && (nodes[last].Function? || nodes[last].Builtin?)
  }

  /** The result crosses the boundary exactly when no walk from it reaches a callable, none goes deeper than the
      bound, and the walk spends less than the allowance; a refusal that blames a callable is right. */
  method ScanResult(nodes: Nodes, result: Ref) returns (hit: bool, unverified: bool)
    ensures !hit <==>
      && (forall chain :: IsChain(nodes, result, chain) ==> Harmless(nodes, chain, 0))
      && Clears(Weigh(nodes, result, 0), RESULT_MAX_NODES)
    ensures hit && !unverified ==> CallableBelow(nodes, result)
    ensures !hit ==> !unverified && !CallableBelow(nodes, result)
    ensures hit && !unverified ==> exists chain :: IsChain(nodes, result, chain) && EndsAtFunction(nodes, chain)
    ensures !hit ==> forall chain :: IsChain(nodes, result, chain) ==> !EndsAtFunction(nodes, chain)
  {
    hide Weigh;
    var scan := new Scan();
    hit := scan.HasCallable(nodes, result, 0);
    unverified := scan.unverified;
    WeighsIffEveryChainHarmless(nodes, result, 0);
    if CallableBelow(nodes, result) {
      ghost var chain :| IsChain(nodes, result, chain) && IsCallable(nodes, chain[|chain| - 1]);
      assert !Harmless(nodes, chain, 0);
    }
  }
}
