/** Copying sandbox constants off the host's heap: one walk that verifies, copies and charges an
    arbitrary heap graph, aliased or cyclic, under one allowance and one depth bound. */
module Isolation {
  import opened Basics
  import opened Constants

  const MAX_DEPTH: nat := 64
  const MAX_WORK: nat := 150000

  type Ref = nat

  /** A value on the heap. `asInt` is what C's cast to int makes of the number. */
  datatype Node =
    | Num(bits: Double, asInt: int)
    | Str(text: string)
    | Null
    | JsonRaw(text: string)
    | Buffer(rows: int, cols: int, data: seq<Double>)
    | List(items: seq<Ref>)
    | Dict(keys: seq<string>, vals: seq<Ref>)
    | Function
    | Builtin
    | TextBuilder
  {
    predicate IsContainer() {
      List? || Dict?
    }

    /** The values this node holds. */
    function Children(): seq<Ref> {
      match this
      case List(items) => items
      case Dict(_, vals) => vals
      case _ => []
    }
  }

  /** A reference that is not in the map is a NULL pointer. */
  type Nodes = map<Ref, Node>

  // ---- The unfolding of a heap graph ----

  /** The data a reference stands for, with all sharing unfolded. Scalars keep their identity:
      they are immutable and shared. */
  datatype Tree =
    | Scalar(ref: Ref)
    | Elements(rows: int, cols: int, data: seq<Double>)
    | Items(children: seq<Tree>)
    | Entries(keys: seq<string>, children: seq<Tree>)

  /** The unfolding of `v` below the containers on `path`, if it is finite data: no NULL, no
      callable or text builder, no container inside itself, none nested deeper than the bound. */
  function Unfold(nodes: Nodes, path: seq<Ref>, v: Ref): Option<Tree>
    requires |path| <= MAX_DEPTH
    decreases MAX_DEPTH - |path|, 0
  {
    if v !in nodes then None else
    match nodes[v]
    case Num(_, _) => Some(Scalar(v))
    case Str(_) => Some(Scalar(v))
    case Null => Some(Scalar(v))
    case JsonRaw(_) => Some(Scalar(v))
    case Buffer(rows, cols, data) => Some(Elements(rows, cols, data))
    case List(items) =>
      if |path| >= MAX_DEPTH || v in path then None else
      var children := UnfoldAll(nodes, path + [v], items);
      if children.None? then None else Some(Items(children.value))
    case Dict(keys, vals) =>
      if |path| >= MAX_DEPTH || v in path then None else
      var children := UnfoldAll(nodes, path + [v], vals);
      if children.None? then None else Some(Entries(keys, children.value))
    case _ => None
  }

  function UnfoldAll(nodes: Nodes, path: seq<Ref>, vs: seq<Ref>): (r: Option<seq<Tree>>)
    requires |path| <= MAX_DEPTH
    ensures r.Some? ==> |r.value| == |vs|
    decreases MAX_DEPTH - |path|, 1 + |vs|
  {
    if vs == [] then Some([]) else
    var front := UnfoldAll(nodes, path, vs[..|vs| - 1]);
    if front.None? then None else
    var last := Unfold(nodes, path, vs[|vs| - 1]);
    if last.None? then None else Some(front.value + [last.value])
  }

  /** What verifying and copying the data costs: one per value, and one per buffer element. */
  function Cost(t: Tree): (n: nat)
    ensures n >= 1
  {
    match t
    case Scalar(_) => 1
    case Elements(_, _, data) => 1 + |data|
    case Items(children) => 1 + CostAll(children)
    case Entries(_, children) => 1 + CostAll(children)
  }

  function CostAll(ts: seq<Tree>): nat {
    if ts == [] then 0 else CostAll(ts[..|ts| - 1]) + Cost(ts[|ts| - 1])
  }

  /** The data at `r` is the tree `t`, and everything in it that can be mutated sits at or above `lo`. */
  ghost predicate Holds(nodes: Nodes, lo: Ref, r: Ref, t: Tree)
    decreases t
  {
    && r in nodes
    && match t
       case Scalar(v) => r == v
       case Elements(rows, cols, data) => r >= lo && nodes[r] == Buffer(rows, cols, data)
       case Items(children) => r >= lo && nodes[r].List? && HoldsAll(nodes, lo, nodes[r].items, children)
       case Entries(keys, children) =>
         r >= lo && nodes[r].Dict? && nodes[r].keys == keys && HoldsAll(nodes, lo, nodes[r].vals, children)
  }

  ghost predicate HoldsAll(nodes: Nodes, lo: Ref, rs: seq<Ref>, ts: seq<Tree>)
    decreases ts
  {
    |rs| == |ts| && forall i :: 0 <= i < |ts| ==> Holds(nodes, lo, rs[i], ts[i])
  }

  /** Heap changes below `lo`, and new nodes, leave the data alone. */
  lemma {:induction false} HoldsStill(nodes: Nodes, nodes': Nodes, lo: Ref, lo': Ref, r: Ref, t: Tree)
    requires Holds(nodes, lo, r, t) && lo' <= lo
    requires forall q :: q in nodes ==> q in nodes' && (q >= lo ==> nodes'[q] == nodes[q])
    ensures Holds(nodes', lo', r, t)
    decreases t
  {
    match t {
      case Scalar(_) =>
      case Elements(_, _, _) =>
      case Items(children) => AllHoldStill(nodes, nodes', lo, lo', nodes[r].items, children);
      case Entries(_, children) => AllHoldStill(nodes, nodes', lo, lo', nodes[r].vals, children);
    }
  }

  lemma {:induction false} AllHoldStill(nodes: Nodes, nodes': Nodes, lo: Ref, lo': Ref, rs: seq<Ref>, ts: seq<Tree>)
    requires HoldsAll(nodes, lo, rs, ts) && lo' <= lo
    requires forall q :: q in nodes ==> q in nodes' && (q >= lo ==> nodes'[q] == nodes[q])
    ensures HoldsAll(nodes', lo', rs, ts)
    decreases ts
  {
    forall i | 0 <= i < |ts| ensures Holds(nodes', lo', rs[i], ts[i]) {
      HoldsStill(nodes, nodes', lo, lo', rs[i], ts[i]);
    }
  }

  /** Growing the heap at `lo` and above does not change what the old heap's values unfold to. */
  lemma {:induction false} UnfoldGrown(nodes: Nodes, nodes': Nodes, lo: Ref, path: seq<Ref>, v: Ref)
    requires |path| <= MAX_DEPTH && v < lo && Closed(nodes, lo) && SameBelow(nodes, nodes', lo)
    ensures Unfold(nodes', path, v) == Unfold(nodes, path, v)
    decreases MAX_DEPTH - |path|, 0
  {
    if v in nodes && nodes[v].IsContainer() && |path| < MAX_DEPTH && v !in path {
      UnfoldAllGrown(nodes, nodes', lo, path + [v], nodes[v].Children());
    }
  }

  lemma {:induction false} UnfoldAllGrown(nodes: Nodes, nodes': Nodes, lo: Ref, path: seq<Ref>, vs: seq<Ref>)
    requires |path| <= MAX_DEPTH && Closed(nodes, lo) && SameBelow(nodes, nodes', lo)
    requires forall i :: 0 <= i < |vs| ==> vs[i] < lo
    ensures UnfoldAll(nodes', path, vs) == UnfoldAll(nodes, path, vs)
    decreases MAX_DEPTH - |path|, 1 + |vs|
  {
    if vs != [] {
      UnfoldAllGrown(nodes, nodes', lo, path, vs[..|vs| - 1]);
      UnfoldGrown(nodes, nodes', lo, path, vs[|vs| - 1]);
    }
  }

  /** If all the values unfold, so do the first `i` of them, at no greater cost. */
  lemma {:induction false} PrefixUnfolds(nodes: Nodes, path: seq<Ref>, vs: seq<Ref>, i: nat)
    requires |path| <= MAX_DEPTH && i <= |vs| && UnfoldAll(nodes, path, vs).Some?
    ensures UnfoldAll(nodes, path, vs[..i]).Some?
    ensures CostAll(UnfoldAll(nodes, path, vs[..i]).value) <= CostAll(UnfoldAll(nodes, path, vs).value)
    decreases |vs|
  {
    if i == |vs| {
      assert vs[..i] == vs;
    } else {
      PrefixUnfolds(nodes, path, vs[..|vs| - 1], i);
      assert vs[..|vs| - 1][..i] == vs[..i];
    }
  }

  /** All values, and all their children, are references below `next`. */
  ghost predicate Closed(nodes: Nodes, next: Ref) {
    forall r :: r in nodes ==> r < next && NodeClosed(nodes[r], next)
  }

  /** The node's children are below `next`, and a dictionary has as many keys as values. */
  ghost predicate NodeClosed(node: Node, next: Ref) {
    && (node.Dict? ==> |node.keys| == |node.vals|)
    && forall i :: 0 <= i < |node.Children()| ==> node.Children()[i] < next
  }

  ghost predicate SameBelow(nodes: Nodes, nodes': Nodes, lo: Ref) {
    forall r :: r < lo ==> (r in nodes <==> r in nodes') && (r in nodes ==> nodes'[r] == nodes[r])
  }

  /** What isolating value `v` below `path` does, from heap `nodes` ending at `next` and `budget`
      units of work to heap `nodes'`: it succeeds exactly when the value unfolds to data the budget
      can pay for; the copy then holds that very data with everything mutable in it fresh, and the
      budget is down by exactly its cost. The heap only grows. */
  ghost predicate Isolates(nodes: Nodes, next: Ref, path: seq<Ref>, v: Ref, budget: nat,
                           r: Option<Ref>, nodes': Nodes, next': Ref, left: nat)
    requires |path| <= MAX_DEPTH
  {
    var t := Unfold(nodes, path, v);
    && Grows(nodes, next, nodes', next') && left <= budget
    && (r.Some? <==> t.Some? && Cost(t.value) <= budget)
    && (r.Some? ==> left == budget - Cost(t.value) && r.value < next' && Holds(nodes', next, r.value, t.value))
  }

  ghost predicate Grows(nodes: Nodes, next: Ref, nodes': Nodes, next': Ref) {
    Closed(nodes', next') && next <= next' && SameBelow(nodes, nodes', next)
  }

  /** The copy of a container after the copies of its first children have been appended. */
  function Copied(source: Node, copies: seq<Ref>): (node: Node)
    requires source.IsContainer()
    ensures node.Children() == copies
  {
    if source.List? then List(copies)
    else Dict(if |copies| <= |source.keys| then source.keys[..|copies|] else source.keys, copies)
  }

  /** Isolating a container's children in turn: the first ones are copied into `c`, and paid for. */
  ghost predicate Copying(nodes: Nodes, lo: Ref, path: seq<Ref>, source: Node, budget: nat,
                          c: Ref, copies: seq<Ref>, trees: seq<Tree>, now: Nodes, next: Ref, left: nat)
    requires |path| <= MAX_DEPTH && source.IsContainer()
  {
    var i := |copies|;
    && i <= |source.Children()| && Closed(nodes, lo) && NodeClosed(source, lo)
    && Grows(nodes, lo, now, next) && lo <= c < next
    && c in now && now[c] == Copied(source, copies)
    && UnfoldAll(nodes, path, source.Children()[..i]) == Some(trees)
    && CostAll(trees) <= budget && left == budget - CostAll(trees)
    && HoldsAll(now, c + 1, copies, trees)
  }

  lemma CopyingStarts(nodes: Nodes, lo: Ref, path: seq<Ref>, source: Node, budget: nat)
    requires |path| <= MAX_DEPTH && source.IsContainer() && Closed(nodes, lo) && NodeClosed(source, lo)
    ensures NodeClosed(Copied(source, []), lo) && NodeSize(Copied(source, [])) == 1
    ensures Copying(nodes, lo, path, source, budget, lo, [], [], nodes[lo := Copied(source, [])], lo + 1, budget)
  {
    assert source.Children()[..0] == [];
  }

  /** One more child isolated and appended. */
  lemma CopyOneMore(nodes: Nodes, lo: Ref, path: seq<Ref>, source: Node, budget: nat, c: Ref, copies: seq<Ref>,
                    trees: seq<Tree>, now: Nodes, next: Ref, left: nat, e: Ref, mid: Nodes, next': Ref, left': nat)
    requires |path| <= MAX_DEPTH && source.IsContainer() && |copies| < |source.Children()|
    requires Copying(nodes, lo, path, source, budget, c, copies, trees, now, next, left)
    requires Isolates(now, next, path, source.Children()[|copies|], left, Some(e), mid, next', left')
    ensures NodeClosed(Copied(source, copies + [e]), next') && c in mid
    ensures Unfold(nodes, path, source.Children()[|copies|]).Some?
    ensures var t := Unfold(nodes, path, source.Children()[|copies|]).value;
      Copying(nodes, lo, path, source, budget, c, copies + [e], trees + [t],
              mid[c := Copied(source, copies + [e])], next', left')
  {
    hide Holds, HoldsAll, Cost, CostAll, Unfold, UnfoldAll, Copied;
    var vs, i, node := source.Children(), |copies|, Copied(source, copies + [e]);
    UnfoldGrown(nodes, now, lo, path, vs[i]);
    UnfoldOneMore(nodes, path, vs, i, trees);
    NodeGrows(nodes, lo, now, next, mid, next', c, source, copies, e);
    CopyStep(now, mid, c, next, node, copies, trees, e, Unfold(nodes, path, vs[i]).value);
  }

  lemma NodeGrows(nodes: Nodes, lo: Ref, now: Nodes, next: Ref, mid: Nodes, next': Ref,
                  c: Ref, source: Node, copies: seq<Ref>, e: Ref)
    requires Grows(nodes, lo, now, next) && Grows(now, next, mid, next')
    requires lo <= c < next && c in now && source.IsContainer() && now[c] == Copied(source, copies)
    requires Closed(now, next) && NodeClosed(source, lo) && |copies| < |source.Children()| && e < next'
    ensures c in mid && NodeClosed(Copied(source, copies + [e]), next')
    ensures Grows(nodes, lo, mid[c := Copied(source, copies + [e])], next')
  {
    var node := Copied(source, copies + [e]);
    assert NodeClosed(now[c], next) && now[c].Children() == copies;
    GrowsThrough(nodes, lo, now, next, mid, next', c, node);
  }

  lemma GrowsThrough(nodes: Nodes, lo: Ref, now: Nodes, next: Ref, mid: Nodes, next': Ref, c: Ref, node: Node)
    requires Grows(nodes, lo, now, next) && Grows(now, next, mid, next')
    requires lo <= c < next' && NodeClosed(node, next')
    ensures Grows(nodes, lo, mid[c := node], next')
  {
  }

  lemma UnfoldOneMore(nodes: Nodes, path: seq<Ref>, vs: seq<Ref>, i: nat, trees: seq<Tree>)
    requires |path| <= MAX_DEPTH && i < |vs|
    requires UnfoldAll(nodes, path, vs[..i]) == Some(trees) && Unfold(nodes, path, vs[i]).Some?
    ensures var t := Unfold(nodes, path, vs[i]).value;
      && UnfoldAll(nodes, path, vs[..i + 1]) == Some(trees + [t])
      && CostAll(trees + [t]) == CostAll(trees) + Cost(t)
  {
    assert vs[..i + 1][..i] == vs[..i];
    var t := Unfold(nodes, path, vs[i]).value;
    assert (trees + [t])[..|trees|] == trees;
  }

  /** Appending one more copy to the container at `c` keeps what its copies hold. */
  lemma CopyStep(before: Nodes, mid: Nodes, c: Ref, next: Ref, node: Node, copies: seq<Ref>, trees: seq<Tree>, e: Ref,
                 t: Tree)
    requires Closed(before, next) && c < next && c in before && SameBelow(before, mid, next)
    requires HoldsAll(before, c + 1, copies, trees) && Holds(mid, next, e, t)
    ensures HoldsAll(mid[c := node], c + 1, copies + [e], trees + [t])
  {
    AllHoldStill(before, mid[c := node], c + 1, c + 1, copies, trees);
    HoldsStill(mid, mid[c := node], next, c + 1, e, t);
  }

  /** A value that does not unfold, or costs more than is left, condemns the values it is among. */
  lemma OneFailsAll(nodes: Nodes, path: seq<Ref>, vs: seq<Ref>, i: nat, trees: seq<Tree>, left: nat)
    requires |path| <= MAX_DEPTH && i < |vs| && UnfoldAll(nodes, path, vs[..i]) == Some(trees)
    requires var t := Unfold(nodes, path, vs[i]); t.None? || Cost(t.value) > left
    ensures var ts := UnfoldAll(nodes, path, vs); ts.None? || CostAll(ts.value) > CostAll(trees) + left
  {
    assert vs[..i + 1][..i] == vs[..i];
    hide Unfold, Cost, CostAll;
    if UnfoldAll(nodes, path, vs).Some? {
      PrefixUnfolds(nodes, path, vs, i + 1);
      UnfoldOneMore(nodes, path, vs, i, trees);
    }
  }

  /** A child that cannot be isolated condemns the container. */
  lemma CopyFails(nodes: Nodes, lo: Ref, path: seq<Ref>, source: Node, budget: nat, c: Ref, copies: seq<Ref>,
                  trees: seq<Tree>, now: Nodes, next: Ref, left: nat)
    requires |path| <= MAX_DEPTH && source.IsContainer() && |copies| < |source.Children()|
    requires Copying(nodes, lo, path, source, budget, c, copies, trees, now, next, left)
    requires var t := Unfold(now, path, source.Children()[|copies|]); t.None? || Cost(t.value) > left
    ensures var ts := UnfoldAll(nodes, path, source.Children()); ts.None? || CostAll(ts.value) > budget
  {
    hide Unfold, UnfoldAll, Cost, CostAll, HoldsAll, Copied, Closed;
    UnfoldGrown(nodes, now, lo, path, source.Children()[|copies|]);
    OneFailsAll(nodes, path, source.Children(), |copies|, trees, left);
  }

  /** A container on the path, or below a full path, does not isolate. */
  lemma NotEntered(nodes: Nodes, next: Ref, path: seq<Ref>, v: Ref, left: nat)
    requires Closed(nodes, next) && |path| <= MAX_DEPTH && v in nodes && nodes[v].IsContainer()
    requires |path| == MAX_DEPTH || v in path
    ensures Isolates(nodes, next, path, v, left + 1, None, nodes, next, left)
  {
  }

  /** What copying a container's children amounts to for the container. */
  lemma Entered(nodes: Nodes, next: Ref, path: seq<Ref>, v: Ref, budget: nat, r: Option<Ref>, nodes': Nodes,
                next': Ref, left: nat)
    requires |path| < MAX_DEPTH && v !in path && v in nodes && nodes[v].IsContainer()
    requires Closed(nodes, next) && Grows(nodes, next, nodes', next') && left <= budget
    requires var ts := UnfoldAll(nodes, path + [v], nodes[v].Children());
      && (r.Some? <==> ts.Some? && CostAll(ts.value) <= budget)
      && (r.Some? ==>
          && left == budget - CostAll(ts.value) && next <= r.value < next' && r.value in nodes'
          && nodes'[r.value] == Copied(nodes[v], nodes'[r.value].Children())
          && HoldsAll(nodes', next, nodes'[r.value].Children(), ts.value))
    ensures Isolates(nodes, next, path, v, budget + 1, r, nodes', next', left)
  {
    assert NodeClosed(nodes[v], next);
    hide UnfoldAll, CostAll, Closed, Grows;
    var t := Unfold(nodes, path, v);
    if r.Some? {
      hide Unfold;
      assert |nodes'[r.value].Children()| == |nodes[v].Children()|;
      assert Holds(nodes', next, r.value, t.value);
    }
  }

  // ---- What a copy is ----

  /** Down to `depth` containers below it, the value `v'` of one heap is a copy of the value `v` of another: the same
      scalar, not copied at all; a buffer of the same rows, columns and elements; a list of copies, in order; or a
      dictionary of copies under the same keys, in order. Buffers, lists and dictionaries of the copy sit at or above
      `lo`. */
  ghost predicate CopyOf(nodes: Nodes, nodes': Nodes, lo: Ref, v: Ref, v': Ref, depth: nat)
    decreases depth, 0
  {
    && v in nodes && v' in nodes'
    && match nodes[v]
       case Num(_, _) => v' == v && nodes'[v'] == nodes[v]
       case Str(_) => v' == v && nodes'[v'] == nodes[v]
       case Null => v' == v && nodes'[v'] == nodes[v]
       case JsonRaw(_) => v' == v && nodes'[v'] == nodes[v]
       case Buffer(rows, cols, data) =>
         v' >= lo && nodes'[v'].Buffer?
         && nodes'[v'].rows == rows && nodes'[v'].cols == cols && nodes'[v'].data == data
       case List(items) =>
         v' >= lo && nodes'[v'].List? && |nodes'[v'].items| == |items|
         && (depth > 0 ==> forall i :: 0 <= i < |items| ==>
             CopyOf(nodes, nodes', lo, items[i], nodes'[v'].items[i], depth - 1))
       case Dict(keys, vals) =>
         v' >= lo && nodes'[v'].Dict? && nodes'[v'].keys == keys && |nodes'[v'].vals| == |vals|
         && (depth > 0 ==> forall i :: 0 <= i < |vals| ==>
             CopyOf(nodes, nodes', lo, vals[i], nodes'[v'].vals[i], depth - 1))
       case _ => false
  }

  /** A copy all the way down. */
  ghost predicate IsCopy(nodes: Nodes, nodes': Nodes, lo: Ref, v: Ref, v': Ref) {
    forall depth: nat :: CopyOf(nodes, nodes', lo, v, v', depth)
  }

  lemma {:induction false} UnfoldedAt(nodes: Nodes, path: seq<Ref>, vs: seq<Ref>, i: nat)
    requires |path| <= MAX_DEPTH && i < |vs| && UnfoldAll(nodes, path, vs).Some?
    ensures Unfold(nodes, path, vs[i]) == Some(UnfoldAll(nodes, path, vs).value[i])
    decreases |vs|
  {
    if i < |vs| - 1 {
      UnfoldedAt(nodes, path, vs[..|vs| - 1], i);
    }
  }

  /** What holds the data that a value unfolds to is a copy of it. */
  lemma {:induction false} HoldsCopy(nodes: Nodes, path: seq<Ref>, v: Ref, t: Tree, nodes': Nodes, lo: Ref, v': Ref,
                                     depth: nat)
    requires |path| <= MAX_DEPTH && Unfold(nodes, path, v) == Some(t) && Holds(nodes', lo, v', t)
    requires SameBelow(nodes, nodes', lo) && v < lo && Closed(nodes, lo)
    ensures CopyOf(nodes, nodes', lo, v, v', depth)
    decreases depth
  {
    if nodes[v].IsContainer() && depth > 0 {
      var vs, children := nodes[v].Children(), UnfoldAll(nodes, path + [v], nodes[v].Children()).value;
      forall i | 0 <= i < |vs| ensures CopyOf(nodes, nodes', lo, vs[i], nodes'[v'].Children()[i], depth - 1) {
        UnfoldedAt(nodes, path + [v], vs, i);
        HoldsCopy(nodes, path + [v], vs[i], children[i], nodes', lo, nodes'[v'].Children()[i], depth - 1);
      }
    }
  }

  lemma IsolatedCopies(nodes: Nodes, next: Ref, path: seq<Ref>, v: Ref, budget: nat, r: Option<Ref>, nodes': Nodes,
                       next': Ref, left: nat)
    requires |path| <= MAX_DEPTH && Closed(nodes, next) && v < next
    ensures Isolates(nodes, next, path, v, budget, r, nodes', next', left) && r.Some? ==>
      IsCopy(nodes, nodes', next, v, r.value)
  {
    hide Unfold, Holds, Closed, CopyOf;
    if Isolates(nodes, next, path, v, budget, r, nodes', next', left) && r.Some? {
      forall depth: nat ensures CopyOf(nodes, nodes', next, v, r.value, depth) {
        HoldsCopy(nodes, path, v, Unfold(nodes, path, v).value, nodes', next, r.value, depth);
      }
    }
  }

  /** The same for a constant pool. */
  lemma AllIsolatedCopies(nodes: Nodes, next: Ref, path: seq<Ref>, vs: seq<Ref>, budget: nat, r: seq<Ref>,
                          nodes': Nodes, next': Ref, left: nat)
    requires |path| <= MAX_DEPTH && IsolatesAll(nodes, next, path, vs, budget, Some(r), nodes', next', left)
    requires forall i :: 0 <= i < |vs| ==> vs[i] < next
    ensures |r| == |vs| && forall i :: 0 <= i < |vs| ==> IsCopy(nodes, nodes', next, vs[i], r[i])
  {
    hide Unfold, UnfoldAll, Holds, Closed, CopyOf, CostAll;
    var ts := UnfoldAll(nodes, path, vs).value;
    forall i, depth: nat | 0 <= i < |vs| ensures CopyOf(nodes, nodes', next, vs[i], r[i], depth) {
      UnfoldedAt(nodes, path, vs, i);
      HoldsCopy(nodes, path, vs[i], ts[i], nodes', next, r[i], depth);
    }
  }

  // ---- What the allowance bounds ----

  /** The memory a node takes, but for names: one, and one for each element of a buffer. */
  function NodeSize(n: Node): nat {
    if n.Buffer? then 1 + |n.data| else 1
  }

  /** The memory that the nodes `lo..hi` take. */
  function Size(nodes: Nodes, lo: Ref, hi: Ref): nat
    decreases hi
  {
    if hi <= lo then 0 else Size(nodes, lo, hi - 1) + if hi - 1 in nodes then NodeSize(nodes[hi - 1]) else 0
  }

  lemma {:induction false} SizeAt(nodes: Nodes, lo: Ref, mid: Ref, hi: Ref)
    requires lo <= mid <= hi
    ensures Size(nodes, lo, hi) == Size(nodes, lo, mid) + Size(nodes, mid, hi)
    decreases hi
  {
    if mid < hi { SizeAt(nodes, lo, mid, hi - 1); }
  }

  lemma {:induction false} SizeOfSame(nodes: Nodes, nodes': Nodes, lo: Ref, hi: Ref)
    requires forall r :: lo <= r < hi ==> (r in nodes <==> r in nodes')
    requires forall r :: lo <= r < hi && r in nodes ==> NodeSize(nodes'[r]) == NodeSize(nodes[r])
    ensures Size(nodes', lo, hi) == Size(nodes, lo, hi)
    decreases hi
  {
    if lo < hi { SizeOfSame(nodes, nodes', lo, hi - 1); }
  }

  lemma SizeOfOne(nodes: Nodes, r: Ref)
    ensures Size(nodes, r, r) == 0
    ensures Size(nodes, r, r + 1) == if r in nodes then NodeSize(nodes[r]) else 0
  {
    assert Size(nodes, r, r) == 0;
  }

  /** Growing a heap behind `next` adds the size of what is behind it. */
  lemma SizeAdds(lo: Ref, now: Nodes, next: Ref, mid: Nodes, next': Ref)
    requires lo <= next <= next' && SameBelow(now, mid, next)
    ensures Size(mid, lo, next') == Size(now, lo, next) + Size(mid, next, next')
  {
    SizeAt(mid, lo, next, next');
    SizeOfSame(now, mid, lo, next);
  }

  /** Growing a heap behind `next`, and appending to the container at `c`, adds the sizes. */
  lemma SizeGrows(now: Nodes, next: Ref, mid: Nodes, next': Ref, lo: Ref, c: Ref, node: Node)
    requires lo <= next <= next' && SameBelow(now, mid, next)
    requires c in mid && mid[c].IsContainer() && node.IsContainer()
    ensures Size(mid[c := node], lo, next') == Size(now, lo, next) + Size(mid, next, next')
    ensures Size(mid, lo, next') == Size(now, lo, next) + Size(mid, next, next')
  {
    SizeAdds(lo, now, next, mid, next');
    SizeOfSame(mid, mid[c := node], lo, next');
  }

  // ---- The heap and the verification context ----

  class Heap {
    var nodes: Nodes
    var next: Ref

    ghost predicate Valid()
      reads this
    {
      Closed(nodes, next)
    }

    constructor (nodes: Nodes, next: Ref)
      requires Closed(nodes, next)
      ensures Valid() && this.nodes == nodes && this.next == next
    {
      this.nodes, this.next := nodes, next;
    }

    method Alloc(node: Node) returns (r: Ref)
      requires Valid() && NodeClosed(node, next)
      modifies this
      ensures Valid() && r == old(next) && next == r + 1 && nodes == old(nodes)[r := node]
    {
      r := next;
      nodes := nodes[r := node];
      next := next + 1;
    }

    /** Append to a container under construction. */
    method Put(r: Ref, node: Node)
      requires Valid() && r in nodes && NodeClosed(node, next)
      modifies this`nodes
      ensures Valid() && nodes == old(nodes)[r := node]
    {
      nodes := nodes[r := node];
    }
  }

  /** The one context of a sandbox descriptor build: what is left of the allowance, and the
      containers on the current recursion path. */
  class DescVerify {
    var work: nat
    var depth: nat
    const path: array<Ref>

    ghost predicate Valid()
      reads this
    {
      path.Length == MAX_DEPTH && depth <= MAX_DEPTH
    }

    ghost function Path(): (p: seq<Ref>)
      requires Valid()
      reads this, path
      ensures |p| == depth <= MAX_DEPTH
    {
      path[..depth]
    }

    constructor ()
      ensures Valid() && fresh(path) && Path() == [] && work == MAX_WORK
    {
      work, depth := MAX_WORK, 0;
      path := new Ref[MAX_DEPTH](_ => 0);
    }

    /** Spend `n` units; on exhaustion nothing is left to spend. */
    method Spend(n: nat) returns (ok: bool)
      modifies this`work
      ensures ok <==> n <= old(work)
      ensures work == if ok then old(work) - n else 0
    {
      if n > work {
        work := 0;
        return false;
      }
      work := work - n;
      return true;
    }

    /** Push a container, unless the path is full or holds it already. */
    method Enter(v: Ref) returns (ok: bool)
      requires Valid()
      modifies this`depth, path
      ensures Valid()
      ensures ok <==> old(depth) < MAX_DEPTH && v !in old(Path())
      ensures Path() == if ok then old(Path()) + [v] else old(Path())
    {
      if depth >= MAX_DEPTH { return false; }
      var i := 0;
      while i < depth
        invariant 0 <= i <= depth && depth == old(depth) && path[..] == old(path[..])
        invariant v !in path[..i]
      {
        if path[i] == v {
          assert v in Path();
          return false;
        }
        i := i + 1;
      }
      path[depth] := v;
      depth := depth + 1;
      return true;
    }

    method Leave()
      requires Valid() && depth > 0
      modifies this`depth
      ensures Valid() && Path() == old(Path())[..old(depth) - 1]
    {
      depth := depth - 1;
    }

    // ---- The walk ----

    /** Verify and isolate one value. The path is left as it was. */
    method IsolateConst(h: Heap, v: Ref) returns (r: Option<Ref>)
      requires Valid() && h.Valid() && v < h.next
      modifies this`work, this`depth, path, h
      ensures Valid() && Path() == old(Path())
      ensures Isolates(old(h.nodes), old(h.next), Path(), v, old(work), r, h.nodes, h.next, work)
      ensures r.Some? ==> IsCopy(old(h.nodes), h.nodes, old(h.next), v, r.value)
      ensures Size(h.nodes, old(h.next), h.next) <= old(work) - work
      decreases MAX_DEPTH - depth, 1
    {
      ghost var nodes, next, budget := h.nodes, h.next, work;
      hide Size;
      SizeOfOne(h.nodes, h.next);
      if v !in h.nodes { return None; }
      var ok := Spend(1);
      if !ok { return None; }
      match h.nodes[v] {
        case Num(_, _) => r := Some(v);
        case Str(_) => r := Some(v);
        case Null => r := Some(v);
        case JsonRaw(_) => r := Some(v);
        case Buffer(rows, cols, data) =>
          ok := Spend(|data|);
          if !ok { return None; }
          var c := h.Alloc(Buffer(rows, cols, data));
          SizeOfOne(h.nodes, c);
          r := Some(c);
        case List(_) => r := IsolateContainer(h, v);
        case Dict(_, _) => r := IsolateContainer(h, v);
        case _ => return None;
      }
      IsolatedCopies(nodes, next, Path(), v, budget, r, h.nodes, h.next, work);
    }

    /** The walk's two container arms, after the container itself has been paid for. */
    method IsolateContainer(h: Heap, v: Ref) returns (r: Option<Ref>)
      requires Valid() && h.Valid() && v in h.nodes && h.nodes[v].IsContainer()
      modifies this`work, this`depth, path, h
      ensures Valid() && Path() == old(Path())
      ensures Isolates(old(h.nodes), old(h.next), Path(), v, old(work) + 1, r, h.nodes, h.next, work)
      ensures Size(h.nodes, old(h.next), h.next) <= 1 + old(work) - work
      decreases MAX_DEPTH - depth, 0
    {
      ghost var nodes, next, path0, budget := h.nodes, h.next, Path(), work;
      hide Unfold, UnfoldAll, Cost, CostAll, Holds, HoldsAll, Grows, Isolates, Copied, Size;
      SizeOfOne(nodes, next);
      var ok := Enter(v);
      if !ok {
        NotEntered(nodes, next, path0, v, budget);
        return None;
      }
      r := CopyChildren(h, v);
      Leave();
      assert (path0 + [v])[..|path0|] == path0;
      Entered(nodes, next, path0, v, budget, r, h.nodes, h.next, work);
    }

    /** Copy the container at `v`, which has just been entered: a fresh container, to which a copy
        of each child is appended in turn. */
    method CopyChildren(h: Heap, v: Ref) returns (r: Option<Ref>)
      requires Valid() && h.Valid() && depth > 0
      requires v in h.nodes && h.nodes[v].IsContainer()
      modifies this`work, this`depth, path, h
      ensures Valid() && Path() == old(Path())
      ensures Grows(old(h.nodes), old(h.next), h.nodes, h.next) && work <= old(work)
      ensures Size(h.nodes, old(h.next), h.next) <= 1 + old(work) - work
      ensures var source := old(h.nodes)[v];
        var ts := UnfoldAll(old(h.nodes), Path(), source.Children());
        && (r.Some? <==> ts.Some? && CostAll(ts.value) <= old(work))
        && (r.Some? ==>
            && work == old(work) - CostAll(ts.value)
            && old(h.next) <= r.value < h.next && r.value in h.nodes
            && h.nodes[r.value] == Copied(source, h.nodes[r.value].Children())
            && HoldsAll(h.nodes, old(h.next), h.nodes[r.value].Children(), ts.value))
      decreases MAX_DEPTH - depth, 2
    {
      ghost var nodes, lo, path0, budget := h.nodes, h.next, Path(), work;
      hide Copying, Isolates, Grows, UnfoldAll, CostAll, HoldsAll, Copied, Size, Unfold, Cost;
      var source := h.nodes[v];
      var vs := source.Children();
      CopyingStarts(nodes, lo, path0, source, budget);
      var c := h.Alloc(Copied(source, []));
      var copies: seq<Ref> := [];
      ghost var trees: seq<Tree> := [];
      var i := 0;
      SizeOfOne(h.nodes, c);
      while i < |vs|
        invariant 0 <= i == |copies| <= |vs|
        invariant Valid() && h.Valid() && Path() == path0
        invariant Copying(nodes, lo, path0, source, budget, c, copies, trees, h.nodes, h.next, work)
        invariant lo <= h.next && Size(h.nodes, lo, h.next) <= 1 + budget - work
      {
        ghost var now, next, left := h.nodes, h.next, work;
        CopyingBelow(nodes, lo, path0, source, budget, c, copies, trees, now, next, left);
        var e := IsolateConst(h, vs[i]);
        IsolatesMeans(now, next, path0, vs[i], left, e, h.nodes, h.next, work);
        CopyingSize(nodes, lo, path0, source, budget, c, copies, trees, now, next, left, h.nodes, h.next);
        if e.None? {
          CopyFails(nodes, lo, path0, source, budget, c, copies, trees, now, next, left);
          CopyingMeans(nodes, lo, path0, source, budget, c, copies, trees, now, next, left, h.nodes, h.next);
          return None;
        }
        CopyOneMore(nodes, lo, path0, source, budget, c, copies, trees, now, next, left, e.value, h.nodes, h.next,
          work);
        copies := copies + [e.value];
        trees := trees + [Unfold(nodes, path0, vs[i]).value];
        h.Put(c, Copied(source, copies));
        i := i + 1;
      }
      CopyingDone(nodes, lo, path0, source, budget, c, copies, trees, h.nodes, h.next, work);
      return Some(c);
    }

    /** Isolate a constant pool, entry by entry, in order. */
    method IsolateAll(h: Heap, vs: seq<Ref>) returns (r: Option<seq<Ref>>)
      requires Valid() && h.Valid() && forall i :: 0 <= i < |vs| ==> vs[i] < h.next
      modifies this`work, this`depth, path, h
      ensures Valid() && Path() == old(Path())
      ensures IsolatesAll(old(h.nodes), old(h.next), Path(), vs, old(work), r, h.nodes, h.next, work)
      ensures r.Some? ==> |r.value| == |vs|
      ensures r.Some? ==> forall i :: 0 <= i < |vs| ==> IsCopy(old(h.nodes), h.nodes, old(h.next), vs[i], r.value[i])
      ensures Size(h.nodes, old(h.next), h.next) <= old(work) - work
      decreases MAX_DEPTH - depth, 2
    {
      ghost var nodes, lo, path0, budget := h.nodes, h.next, Path(), work;
      var copies: seq<Ref> := [];
      var i := 0;
      assert vs[..0] == [];
      assert IsolatesAll(nodes, lo, path0, vs[..0], budget, Some(copies), h.nodes, h.next, work);
      hide Isolates, IsolatesAll, Grows, UnfoldAll, CostAll, HoldsAll, IsCopy, Size;
      SizeOfOne(nodes, lo);
      while i < |vs|
        invariant 0 <= i <= |vs| && lo <= h.next
        invariant Valid() && h.Valid() && Path() == path0
        invariant IsolatesAll(nodes, lo, path0, vs[..i], budget, Some(copies), h.nodes, h.next, work)
        invariant Size(h.nodes, lo, h.next) <= budget - work
      {
        ghost var now, next, left := h.nodes, h.next, work;
        var e := IsolateConst(h, vs[i]);
        IsolateOneMore(nodes, lo, path0, vs, i, budget, copies, now, next, left, e, h.nodes, h.next, work);
        SizeAdds(lo, now, next, h.nodes, h.next);
        if e.None? { return None; }
        copies := copies + [e.value];
        i := i + 1;
      }
      assert vs[..i] == vs;
      AllIsolatedCopies(nodes, lo, path0, vs, budget, copies, h.nodes, h.next, work);
      return Some(copies);
    }
  }

  /** `Isolates`, for the values `vs` in turn. */
  ghost predicate IsolatesAll(nodes: Nodes, next: Ref, path: seq<Ref>, vs: seq<Ref>, budget: nat,
                              r: Option<seq<Ref>>, nodes': Nodes, next': Ref, left: nat)
    requires |path| <= MAX_DEPTH
  {
    var ts := UnfoldAll(nodes, path, vs);
    && Closed(nodes, next) && Grows(nodes, next, nodes', next') && left <= budget
    && (r.Some? <==> ts.Some? && CostAll(ts.value) <= budget)
    && (r.Some? ==> left == budget - CostAll(ts.value) && HoldsAll(nodes', next, r.value, ts.value))
  }

  lemma IsolateOneMore(nodes: Nodes, lo: Ref, path: seq<Ref>, vs: seq<Ref>, i: nat, budget: nat, copies: seq<Ref>,
                       now: Nodes, next: Ref, left: nat, e: Option<Ref>, mid: Nodes, next': Ref, left': nat)
    requires |path| <= MAX_DEPTH && i < |vs| && vs[i] < lo
    requires IsolatesAll(nodes, lo, path, vs[..i], budget, Some(copies), now, next, left)
    requires Isolates(now, next, path, vs[i], left, e, mid, next', left')
    ensures lo <= next <= next' && SameBelow(now, mid, next)
    ensures e.Some? ==> IsolatesAll(nodes, lo, path, vs[..i + 1], budget, Some(copies + [e.value]), mid, next', left')
    ensures e.None? ==> IsolatesAll(nodes, lo, path, vs, budget, None, mid, next', left')
  {
    hide Holds, HoldsAll, Cost, CostAll;
    var trees := UnfoldAll(nodes, path, vs[..i]).value;
    UnfoldGrown(nodes, now, lo, path, vs[i]);
    assert vs[..i + 1][..i] == vs[..i];
    if e.Some? {
      UnfoldOneMore(nodes, path, vs, i, trees);
      AllHoldOn(now, mid, lo, next, copies, trees, e.value, Unfold(nodes, path, vs[i]).value);
    } else if UnfoldAll(nodes, path, vs).Some? {
      PrefixUnfolds(nodes, path, vs, i + 1);
      UnfoldOneMore(nodes, path, vs, i, trees);
    }
  }

  lemma AllHoldOn(now: Nodes, mid: Nodes, lo: Ref, next: Ref, copies: seq<Ref>, trees: seq<Tree>, e: Ref, t: Tree)
    requires HoldsAll(now, lo, copies, trees) && Holds(mid, next, e, t) && lo <= next
    requires Closed(now, next) && SameBelow(now, mid, next)
    ensures HoldsAll(mid, lo, copies + [e], trees + [t])
  {
    AllHoldStill(now, mid, lo, lo, copies, trees);
    HoldsStill(mid, mid, next, lo, e, t);
  }

  lemma CopyingBelow(nodes: Nodes, lo: Ref, path: seq<Ref>, source: Node, budget: nat,
                     c: Ref, copies: seq<Ref>, trees: seq<Tree>, now: Nodes, next: Ref, left: nat)
    requires |path| <= MAX_DEPTH && source.IsContainer()
    requires Copying(nodes, lo, path, source, budget, c, copies, trees, now, next, left)
    ensures forall i :: 0 <= i < |source.Children()| ==> source.Children()[i] < next
    ensures left <= budget
  {
  }

  lemma IsolatesMeans(nodes: Nodes, next: Ref, path: seq<Ref>, v: Ref, budget: nat,
                      r: Option<Ref>, nodes': Nodes, next': Ref, left: nat)
    requires |path| <= MAX_DEPTH && Isolates(nodes, next, path, v, budget, r, nodes', next', left)
    ensures r.None? ==> var t := Unfold(nodes, path, v); t.None? || Cost(t.value) > budget
    ensures left <= budget && Grows(nodes, next, nodes', next')
  {
  }

  /** The memory a container's copy takes with its first children, when the heap has grown and it is put anew. */
  lemma CopyingSize(nodes: Nodes, lo: Ref, path: seq<Ref>, source: Node, budget: nat, c: Ref, copies: seq<Ref>,
                    trees: seq<Tree>, now: Nodes, next: Ref, left: nat, mid: Nodes, next': Ref)
    requires |path| <= MAX_DEPTH && source.IsContainer()
    requires Copying(nodes, lo, path, source, budget, c, copies, trees, now, next, left) && Grows(now, next, mid, next')
    ensures lo <= next <= next' && Size(mid, lo, next') == Size(now, lo, next) + Size(mid, next, next')
    ensures forall more :: Size(mid[c := Copied(source, more)], lo, next') == Size(mid, lo, next')
  {
    hide Size, UnfoldAll, CostAll, HoldsAll;
    forall more ensures Size(mid[c := Copied(source, more)], lo, next') == Size(mid, lo, next') {
      SizeGrows(now, next, mid, next', lo, c, Copied(source, more));
    }
    SizeGrows(now, next, mid, next', lo, c, Copied(source, []));
  }

  lemma CopyingMeans(nodes: Nodes, lo: Ref, path: seq<Ref>, source: Node, budget: nat, c: Ref, copies: seq<Ref>,
                     trees: seq<Tree>, now: Nodes, next: Ref, left: nat, nodes': Nodes, next': Ref)
    requires |path| <= MAX_DEPTH && source.IsContainer()
    requires Copying(nodes, lo, path, source, budget, c, copies, trees, now, next, left)
    requires Grows(now, next, nodes', next')
    ensures Grows(nodes, lo, nodes', next') && left <= budget
  {
  }

  lemma CopyingDone(nodes: Nodes, lo: Ref, path: seq<Ref>, source: Node, budget: nat,
                    c: Ref, copies: seq<Ref>, trees: seq<Tree>, now: Nodes, next: Ref, left: nat)
    requires |path| <= MAX_DEPTH && source.IsContainer() && |copies| == |source.Children()|
    requires Copying(nodes, lo, path, source, budget, c, copies, trees, now, next, left)
    ensures UnfoldAll(nodes, path, source.Children()) == Some(trees)
    ensures Grows(nodes, lo, now, next) && left == budget - CostAll(trees)
    ensures lo <= c < next && c in now && now[c] == Copied(source, copies) && now[c].Children() == copies
    ensures HoldsAll(now, lo, copies, trees)
  {
    assert source.Children()[..|copies|] == source.Children();
    AllHoldStill(now, now, c + 1, lo, copies, trees);
  }

  // ---- Which heap graphs unfold ----

  /** A walk down the graph from `v`, from container to child. */
  ghost predicate IsChain(nodes: Nodes, v: Ref, chain: seq<Ref>)
    decreases |chain|
  {
    && chain != [] && chain[0] == v
    && (|chain| == 1
        || (v in nodes && chain[1] in nodes[v].Children() && IsChain(nodes, chain[1], chain[1..])))
  }

  /** The walk ends at data, and if it ends at a container then one it has not passed, within the depth bound. */
  ghost predicate Admissible(nodes: Nodes, path: seq<Ref>, chain: seq<Ref>)
    requires chain != []
  {
    var last := chain[|chain| - 1];
    && last in nodes
    && !nodes[last].Function? && !nodes[last].Builtin? && !nodes[last].TextBuilder?
    && (nodes[last].IsContainer() ==>
        |path| + |chain| <= MAX_DEPTH && last !in path && last !in chain[..|chain| - 1])
  }

  lemma {:induction false} UnfoldedChainAdmissible(nodes: Nodes, path: seq<Ref>, v: Ref, chain: seq<Ref>)
    requires |path| <= MAX_DEPTH && Unfold(nodes, path, v).Some? && IsChain(nodes, v, chain)
    ensures Admissible(nodes, path, chain)
    decreases |chain|
  {
    if |chain| > 1 {
      var rest := chain[1..];
      var vs := nodes[v].Children();
      var i :| 0 <= i < |vs| && vs[i] == chain[1];
      ChildUnfolds(nodes, path + [v], vs, i);
      UnfoldedChainAdmissible(nodes, path + [v], chain[1], rest);
      assert chain[..|chain| - 1] == [v] + rest[..|rest| - 1];
    }
  }

  lemma {:induction false} ChildUnfolds(nodes: Nodes, path: seq<Ref>, vs: seq<Ref>, i: nat)
    requires |path| <= MAX_DEPTH && i < |vs| && UnfoldAll(nodes, path, vs).Some?
    ensures Unfold(nodes, path, vs[i]).Some?
    decreases |vs|
  {
    if i < |vs| - 1 {
      ChildUnfolds(nodes, path, vs[..|vs| - 1], i);
    }
  }

  /** A value that does not unfold has a walk that shows why. */
  lemma {:induction false} BadChain(nodes: Nodes, path: seq<Ref>, v: Ref) returns (chain: seq<Ref>)
    requires |path| <= MAX_DEPTH && Unfold(nodes, path, v).None?
    ensures IsChain(nodes, v, chain) && !Admissible(nodes, path, chain)
    decreases MAX_DEPTH - |path|, 0
  {
    chain := [v];
    if v in nodes && nodes[v].IsContainer() && |path| < MAX_DEPTH && v !in path {
      var i, rest := BadChild(nodes, path + [v], nodes[v].Children());
      chain := [v] + rest;
      assert chain[..|chain| - 1] == [v] + rest[..|rest| - 1];
      assert chain[1..] == rest;
    }
  }

  lemma {:induction false} BadChild(nodes: Nodes, path: seq<Ref>, vs: seq<Ref>) returns (i: nat, chain: seq<Ref>)
    requires |path| <= MAX_DEPTH && UnfoldAll(nodes, path, vs).None?
    ensures i < |vs| && IsChain(nodes, vs[i], chain) && !Admissible(nodes, path, chain)
    decreases MAX_DEPTH - |path|, 1 + |vs|
  {
    if UnfoldAll(nodes, path, vs[..|vs| - 1]).None? {
      i, chain := BadChild(nodes, path, vs[..|vs| - 1]);
    } else {
      i := |vs| - 1;
      chain := BadChain(nodes, path, vs[i]);
    }
  }

  /** A value unfolds exactly when every walk down from it is admissible: only data below it, no
      container inside itself or inside one on the path, none nested too deep. */
  lemma UnfoldsIffEveryChainAdmissible(nodes: Nodes, path: seq<Ref>, v: Ref)
    requires |path| <= MAX_DEPTH
    ensures Unfold(nodes, path, v).Some? <==>
      forall chain :: IsChain(nodes, v, chain) ==> Admissible(nodes, path, chain)
  {
    if Unfold(nodes, path, v).None? {
      var chain := BadChain(nodes, path, v);
    } else {
      forall chain | IsChain(nodes, v, chain) ensures Admissible(nodes, path, chain) {
        UnfoldedChainAdmissible(nodes, path, v, chain);
      }
    }
  }

  /** Below a value that unfolds, no container is its own ancestor and everything is data. */
  lemma UnfoldedIsAcyclicData(nodes: Nodes, path: seq<Ref>, v: Ref, chain: seq<Ref>)
    requires |path| <= MAX_DEPTH && Unfold(nodes, path, v).Some? && IsChain(nodes, v, chain)
    ensures var last := chain[|chain| - 1];
      && last in nodes
      && !nodes[last].Function? && !nodes[last].Builtin? && !nodes[last].TextBuilder?
      && (nodes[last].IsContainer() ==> last !in chain[..|chain| - 1] && |chain| <= MAX_DEPTH)
  {
    UnfoldedChainAdmissible(nodes, path, v, chain);
  }
}
