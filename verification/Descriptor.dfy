/** Building code units from untrusted descriptors: one allowance and one recursion bound for the
    whole nested build, every constant isolated, every unit verified. */
module Descriptor {
  import opened Basics
  import C = Constants
  import opened Isolation
  import opened Bytes
  import opened Opcodes
  import Bytecode
  import Verifier

  /** A built unit: its code, its private copies of the constants, and its nested units. */
  datatype Unit = Unit(code: seq<Byte>, constants: seq<Ref>, functions: seq<Unit>, paramCount: int, locals: seq<string>)

  /** What a descriptor describes: every constant unfolded, and what the verifier is to see of it. */
  datatype Plan = Plan(code: seq<Byte>, pool: seq<Tree>, constants: seq<C.Constant>, functions: seq<Plan>,
                       paramCount: int, locals: seq<string>)

  // ---- Reading a descriptor ----

  predicate IsList(nodes: Nodes, r: Ref) {
    r in nodes && nodes[r].List?
  }

  /** A code element: the low byte of a number's integer part, and 0 for anything else. */
  function ByteOf(nodes: Nodes, r: Ref): Byte {
    if r in nodes && nodes[r].Num? then nodes[r].asInt % 256 else 0
  }

  function CodeBytes(nodes: Nodes, rs: seq<Ref>): (code: seq<Byte>)
    ensures |code| == |rs|
  {
    seq(|rs|, i requires 0 <= i < |rs| => ByteOf(nodes, rs[i]))
  }

  function NameOf(nodes: Nodes, r: Ref): string {
    if r in nodes && nodes[r].Str? then nodes[r].text else ""
  }

  function Names(nodes: Nodes, rs: seq<Ref>): (names: seq<string>)
    ensures |names| == |rs|
  {
    seq(|rs|, i requires 0 <= i < |rs| => NameOf(nodes, rs[i]))
  }

  /** The parts of a descriptor, or nothing if it is no list of at least code and constants. */
  datatype Parts = Parts(code: seq<Ref>, constants: seq<Ref>, functions: seq<Ref>, paramCount: int, locals: seq<Ref>)

  function PartsOf(nodes: Nodes, desc: Ref, off: nat): Option<Parts> {
    if !IsList(nodes, desc) || |nodes[desc].items| < off + 2 then None else
    var d := nodes[desc].items[off..];
    if !IsList(nodes, d[0]) || !IsList(nodes, d[1]) then None else
    Some(Parts(
      nodes[d[0]].items,
      nodes[d[1]].items,
      if |d| >= 3 && IsList(nodes, d[2]) then nodes[d[2]].items else [],
      if |d| >= 4 && d[3] in nodes && nodes[d[3]].Num? then nodes[d[3]].asInt else 0,
      if |d| >= 6 && IsList(nodes, d[5]) then nodes[d[5]].items else []))
  }

  // ---- What a build has to do ----

  /** The pool entry as the verifier sees it. */
  function ConstantOf(nodes: Nodes, r: Ref): C.Constant {
    if r !in nodes then C.Other(0) else
    match nodes[r]
    case Str(text) => C.Str(text)
    case Num(bits, _) => C.Num(bits)
    case _ => C.Other(0)
  }

  function Constants(nodes: Nodes, rs: seq<Ref>): (cs: seq<C.Constant>)
    ensures |cs| == |rs|
  {
    seq(|rs|, i requires 0 <= i < |rs| => ConstantOf(nodes, rs[i]))
  }

  /** The unit as the verifier sees it. */
  function AsChunk(nodes: Nodes, u: Unit): Bytecode.Chunk {
    Bytecode.Chunk(u.code, Constants(nodes, u.constants), AsChunks(nodes, u.functions), false)
  }

  function AsChunks(nodes: Nodes, us: seq<Unit>): (cs: seq<Bytecode.Chunk>)
    ensures |cs| == |us|
    ensures forall i :: 0 <= i < |us| ==> cs[i] == AsChunk(nodes, us[i])
  {
    if us == [] then [] else AsChunks(nodes, us[..|us| - 1]) + [AsChunk(nodes, us[|us| - 1])]
  }

  function PlannedChunk(p: Plan): Bytecode.Chunk {
    Bytecode.Chunk(p.code, p.constants, PlannedChunks(p.functions), false)
  }

  function PlannedChunks(ps: seq<Plan>): (cs: seq<Bytecode.Chunk>)
    ensures |cs| == |ps|
  {
    if ps == [] then [] else PlannedChunks(ps[..|ps| - 1]) + [PlannedChunk(ps[|ps| - 1])]
  }

  /** The plan of the unit at `desc`, if it describes one: neither it nor a nested descriptor is its
      own ancestor or nested too deep, all its constants unfold, and the verifier accepts every unit. */
  ghost function PlanOf(nodes: Nodes, path: seq<Ref>, desc: Ref, off: nat): Option<Plan>
    requires |path| <= MAX_DEPTH
    decreases MAX_DEPTH - |path|, 0
  {
    if |path| >= MAX_DEPTH || desc in path then None else BodyPlan(nodes, path + [desc], desc, off)
  }

  ghost function BodyPlan(nodes: Nodes, path: seq<Ref>, desc: Ref, off: nat): Option<Plan>
    requires |path| <= MAX_DEPTH
    decreases MAX_DEPTH - |path|, 2, 0
  {
    var parts := PartsOf(nodes, desc, off);
    if parts.None? then None else
    var pool := UnfoldAll(nodes, path, parts.value.constants);
    if pool.None? then None else
    var functions := PlanAll(nodes, path, parts.value.functions);
    if functions.None? then None else
    var plan := PlanFrom(nodes, parts.value, pool.value, functions.value);
    if Verifier.Accepted(PlannedChunk(plan)) then Some(plan) else None
  }

  function PlanFrom(nodes: Nodes, parts: Parts, pool: seq<Tree>, functions: seq<Plan>): Plan {
    Plan(CodeBytes(nodes, parts.code), pool, Constants(nodes, parts.constants), functions, parts.paramCount,
         Names(nodes, parts.locals))
  }

  ghost function PlanAll(nodes: Nodes, path: seq<Ref>, descs: seq<Ref>): (r: Option<seq<Plan>>)
    requires |path| <= MAX_DEPTH
    ensures r.Some? ==> |r.value| == |descs|
    decreases MAX_DEPTH - |path|, 1, |descs|
  {
    if descs == [] then Some([]) else
    var front := PlanAll(nodes, path, descs[..|descs| - 1]);
    if front.None? then None else
    var last := PlanOf(nodes, path, descs[|descs| - 1], 0);
    if last.None? then None else Some(front.value + [last.value])
  }

  /** What the whole nested build costs: one per unit, one per code element, the cost of every
      constant, one per listed function, one per local name. */
  function PlanCost(p: Plan): nat {
    1 + |p.code| + CostAll(p.pool) + |p.functions| + PlanCostAll(p.functions) + |p.locals|
  }

  function PlanCostAll(ps: seq<Plan>): nat {
    if ps == [] then 0 else PlanCostAll(ps[..|ps| - 1]) + PlanCost(ps[|ps| - 1])
  }

  /** The built unit is what was planned, with all that can be mutated in its constants at or above `lo`. */
  ghost predicate Realizes(nodes: Nodes, lo: Ref, u: Unit, p: Plan)
    decreases p
  {
    && u.code == p.code && u.paramCount == p.paramCount && u.locals == p.locals
    && HoldsAll(nodes, lo, u.constants, p.pool)
    && Constants(nodes, u.constants) == p.constants
    && RealizesAll(nodes, lo, u.functions, p.functions)
  }

  ghost predicate RealizesAll(nodes: Nodes, lo: Ref, us: seq<Unit>, ps: seq<Plan>)
    decreases ps
  {
    |us| == |ps| && forall i :: 0 <= i < |ps| ==> Realizes(nodes, lo, us[i], ps[i])
  }

  // ---- Growing the heap changes no plan ----

  ghost predicate Below(rs: seq<Ref>, lo: Ref) {
    forall i :: 0 <= i < |rs| ==> rs[i] < lo
  }

  lemma ListBelow(nodes: Nodes, lo: Ref, r: Ref)
    requires Closed(nodes, lo) && IsList(nodes, r)
    ensures Below(nodes[r].items, lo)
  {
    assert NodeClosed(nodes[r], lo) && nodes[r].Children() == nodes[r].items;
  }

  lemma PartsGrown(nodes: Nodes, nodes': Nodes, lo: Ref, desc: Ref, off: nat)
    requires Closed(nodes, lo) && SameBelow(nodes, nodes', lo) && desc < lo
    ensures PartsOf(nodes', desc, off) == PartsOf(nodes, desc, off)
    ensures PartsOf(nodes, desc, off).Some? ==>
      var parts := PartsOf(nodes, desc, off).value;
      Below(parts.code, lo) && Below(parts.constants, lo) && Below(parts.functions, lo) && Below(parts.locals, lo)
  {
    if IsList(nodes, desc) && |nodes[desc].items| >= off + 2 {
      ListBelow(nodes, lo, desc);
      var d := nodes[desc].items[off..];
      forall i | 0 <= i < |d| && IsList(nodes, d[i]) ensures Below(nodes[d[i]].items, lo) {
        ListBelow(nodes, lo, d[i]);
      }
    }
  }

  lemma ReadingsGrown(nodes: Nodes, nodes': Nodes, lo: Ref, rs: seq<Ref>)
    requires SameBelow(nodes, nodes', lo) && Below(rs, lo)
    ensures CodeBytes(nodes', rs) == CodeBytes(nodes, rs)
    ensures Names(nodes', rs) == Names(nodes, rs)
    ensures Constants(nodes', rs) == Constants(nodes, rs)
  {
    forall i | 0 <= i < |rs|
      ensures ByteOf(nodes', rs[i]) == ByteOf(nodes, rs[i]) && NameOf(nodes', rs[i]) == NameOf(nodes, rs[i])
      ensures ConstantOf(nodes', rs[i]) == ConstantOf(nodes, rs[i])
    {
      assert rs[i] < lo;
    }
  }

  lemma {:induction false} PlanGrown(nodes: Nodes, nodes': Nodes, lo: Ref, path: seq<Ref>, desc: Ref, off: nat)
    requires |path| <= MAX_DEPTH && Closed(nodes, lo) && SameBelow(nodes, nodes', lo) && desc < lo
    ensures PlanOf(nodes', path, desc, off) == PlanOf(nodes, path, desc, off)
    decreases MAX_DEPTH - |path|, 0
  {
    if |path| < MAX_DEPTH && desc !in path {
      BodyGrown(nodes, nodes', lo, path + [desc], desc, off);
    }
  }

  lemma {:induction false} BodyGrown(nodes: Nodes, nodes': Nodes, lo: Ref, path: seq<Ref>, desc: Ref, off: nat)
    requires |path| <= MAX_DEPTH && Closed(nodes, lo) && SameBelow(nodes, nodes', lo) && desc < lo
    ensures BodyPlan(nodes', path, desc, off) == BodyPlan(nodes, path, desc, off)
    decreases MAX_DEPTH - |path|, 2, 0
  {
    PartsGrown(nodes, nodes', lo, desc, off);
    var parts := PartsOf(nodes, desc, off);
    if parts.Some? {
      UnfoldAllGrown(nodes, nodes', lo, path, parts.value.constants);
      PlanAllGrown(nodes, nodes', lo, path, parts.value.functions);
      ReadingsGrown(nodes, nodes', lo, parts.value.code);
      ReadingsGrown(nodes, nodes', lo, parts.value.constants);
      ReadingsGrown(nodes, nodes', lo, parts.value.locals);
    }
  }

  lemma {:induction false} PlanAllGrown(nodes: Nodes, nodes': Nodes, lo: Ref, path: seq<Ref>, descs: seq<Ref>)
    requires |path| <= MAX_DEPTH && Closed(nodes, lo) && SameBelow(nodes, nodes', lo) && Below(descs, lo)
    ensures PlanAll(nodes', path, descs) == PlanAll(nodes, path, descs)
    decreases MAX_DEPTH - |path|, 1, |descs|
  {
    if descs != [] {
      PlanAllGrown(nodes, nodes', lo, path, descs[..|descs| - 1]);
      PlanGrown(nodes, nodes', lo, path, descs[|descs| - 1], 0);
    }
  }

  lemma {:induction false} PlanPrefix(nodes: Nodes, path: seq<Ref>, descs: seq<Ref>, i: nat)
    requires |path| <= MAX_DEPTH && i <= |descs| && PlanAll(nodes, path, descs).Some?
    ensures PlanAll(nodes, path, descs[..i]).Some?
    ensures PlanCostAll(PlanAll(nodes, path, descs[..i]).value) <= PlanCostAll(PlanAll(nodes, path, descs).value)
    decreases |descs|
  {
    if i == |descs| {
      assert descs[..i] == descs;
    } else {
      PlanPrefix(nodes, path, descs[..|descs| - 1], i);
      assert descs[..|descs| - 1][..i] == descs[..i];
    }
  }

  // ---- Growing the heap changes no built unit ----

  lemma {:induction false} RealizesStill(nodes: Nodes, nodes': Nodes, lo: Ref, next: Ref, lo': Ref, u: Unit, p: Plan)
    requires Realizes(nodes, lo, u, p) && Closed(nodes, next) && SameBelow(nodes, nodes', next) && lo' <= lo
    ensures Realizes(nodes', lo', u, p)
    decreases p
  {
    AllHoldStill(nodes, nodes', lo, lo', u.constants, p.pool);
    forall i | 0 <= i < |u.constants| ensures u.constants[i] < next {
      assert Holds(nodes, lo, u.constants[i], p.pool[i]);
    }
    ReadingsGrown(nodes, nodes', next, u.constants);
    AllRealizeStill(nodes, nodes', lo, next, lo', u.functions, p.functions);
  }

  lemma {:induction false} AllRealizeStill(nodes: Nodes, nodes': Nodes, lo: Ref, next: Ref, lo': Ref, us: seq<Unit>,
                                           ps: seq<Plan>)
    requires RealizesAll(nodes, lo, us, ps) && Closed(nodes, next) && SameBelow(nodes, nodes', next) && lo' <= lo
    ensures RealizesAll(nodes', lo', us, ps)
    decreases ps
  {
    forall i | 0 <= i < |ps| ensures Realizes(nodes', lo', us[i], ps[i]) {
      RealizesStill(nodes, nodes', lo, next, lo', us[i], ps[i]);
    }
  }

  /** The verifier sees of the built unit exactly what was planned. */
  lemma {:induction false} SeenAsPlanned(nodes: Nodes, lo: Ref, u: Unit, p: Plan)
    requires Realizes(nodes, lo, u, p)
    ensures AsChunk(nodes, u) == PlannedChunk(p)
    decreases p
  {
    AllSeenAsPlanned(nodes, lo, u.functions, p.functions);
  }

  lemma {:induction false} AllSeenAsPlanned(nodes: Nodes, lo: Ref, us: seq<Unit>, ps: seq<Plan>)
    requires RealizesAll(nodes, lo, us, ps)
    ensures AsChunks(nodes, us) == PlannedChunks(ps)
    decreases ps
  {
    if ps != [] {
      AllSeenAsPlanned(nodes, lo, us[..|us| - 1], ps[..|ps| - 1]);
      SeenAsPlanned(nodes, lo, us[|us| - 1], ps[|ps| - 1]);
    }
  }

  /** A constant's copy looks to the verifier like the constant. */
  lemma CopiesLookAlike(nodes: Nodes, nodes': Nodes, lo: Ref, path: seq<Ref>, sources: seq<Ref>, copies: seq<Ref>)
    requires |path| <= MAX_DEPTH && Closed(nodes, lo) && SameBelow(nodes, nodes', lo) && Below(sources, lo)
    requires UnfoldAll(nodes, path, sources).Some? &&
      HoldsAll(nodes', lo, copies, UnfoldAll(nodes, path, sources).value)
    ensures Constants(nodes', copies) == Constants(nodes, sources)
  {
    var ts := UnfoldAll(nodes, path, sources).value;
    forall i | 0 <= i < |sources| ensures ConstantOf(nodes', copies[i]) == ConstantOf(nodes, sources[i]) {
      UnfoldedAt(nodes, path, sources, i);
      assert Holds(nodes', lo, copies[i], ts[i]);
    }
  }

  // ---- The build ----

  /** What building from `plan` does, from heap `nodes` ending at `next` and `budget` units of work:
      it succeeds exactly when there is a plan the budget can pay for; the unit then realizes it,
      with everything mutable in its constants fresh, and the budget is down by exactly its cost. */
  ghost predicate Builds(nodes: Nodes, next: Ref, plan: Option<Plan>, budget: nat,
                         r: Option<Unit>, nodes': Nodes, next': Ref, left: nat) {
    && Grows(nodes, next, nodes', next') && left <= budget
    && (r.Some? <==> plan.Some? && PlanCost(plan.value) <= budget)
    && (r.Some? ==> left == budget - PlanCost(plan.value) && Realizes(nodes', next, r.value, plan.value))
  }

  ghost predicate BuildsAll(nodes: Nodes, next: Ref, plans: Option<seq<Plan>>, budget: nat,
                            r: Option<seq<Unit>>, nodes': Nodes, next': Ref, left: nat) {
    && Closed(nodes, next) && Grows(nodes, next, nodes', next') && left <= budget
    && (r.Some? <==> plans.Some? && PlanCostAll(plans.value) <= budget)
    && (r.Some? ==> left == budget - PlanCostAll(plans.value) && RealizesAll(nodes', next, r.value, plans.value))
  }

  /** Build one unit of the descriptor graph. */
  method BuildUnit(ctx: DescVerify, h: Heap, desc: Ref, off: nat) returns (r: Option<Unit>)
    requires ctx.Valid() && h.Valid() && desc < h.next
    modifies ctx`work, ctx`depth, ctx.path, h
    ensures ctx.Valid() && ctx.Path() == old(ctx.Path())
    ensures Builds(old(h.nodes), old(h.next), PlanOf(old(h.nodes), ctx.Path(), desc, off), old(ctx.work),
                   r, h.nodes, h.next, ctx.work)
    ensures Size(h.nodes, old(h.next), h.next) <= old(ctx.work) - ctx.work
    decreases MAX_DEPTH - ctx.depth, 0
  {
    ghost var path0 := ctx.Path();
    SizeOfOne(h.nodes, h.next);
    var ok := ctx.Enter(desc);
    if !ok { return None; }
    r := BuildBody(ctx, h, desc, off);
    ctx.Leave();
    assert (path0 + [desc])[..|path0|] == path0;
  }

  /** Read, check and build the unit whose descriptor has just been entered. */
  method BuildBody(ctx: DescVerify, h: Heap, desc: Ref, off: nat) returns (r: Option<Unit>)
    requires ctx.Valid() && h.Valid() && desc < h.next && ctx.depth > 0
    modifies ctx`work, ctx`depth, ctx.path, h
    ensures ctx.Valid() && ctx.Path() == old(ctx.Path())
    ensures Builds(old(h.nodes), old(h.next), BodyPlan(old(h.nodes), ctx.Path(), desc, off), old(ctx.work),
                   r, h.nodes, h.next, ctx.work)
    ensures Size(h.nodes, old(h.next), h.next) <= old(ctx.work) - ctx.work
    decreases MAX_DEPTH - ctx.depth, 2
  {
    hide Unfold, UnfoldAll, PlanAll, PlanOf, Holds, HoldsAll, Realizes, RealizesAll, CostAll, PlanCostAll;
    hide PartsOf, CodeBytes, Constants, Names, AsChunk, PlannedChunk, Verifier.Accepted, Size, IsCopy;
    ghost var nodes, lo, path, budget := h.nodes, h.next, ctx.Path(), ctx.work;
    SizeOfOne(nodes, lo);
    var parts := PartsOf(h.nodes, desc, off);
    PartsGrown(nodes, nodes, lo, desc, off);
    if parts.None? { return None; }
    var p := parts.value;
    var ok := ctx.Spend(1 + |p.code|);
    if !ok { return None; }
    var code := CodeBytes(h.nodes, p.code);
    ghost var constants := Constants(h.nodes, p.constants);
    var locals := Names(h.nodes, p.locals);

    var pool := ctx.IsolateAll(h, p.constants);
    if pool.None? { return None; }
    ghost var ts := UnfoldAll(nodes, path, p.constants).value;
    CopiesLookAlike(nodes, h.nodes, lo, path, p.constants, pool.value);

    ok := ctx.Spend(|p.functions|);
    if !ok { return None; }
    PlanAllGrown(nodes, h.nodes, lo, path, p.functions);
    ghost var mid, next := h.nodes, h.next;
    var functions := BuildAll(ctx, h, p.functions);
    SizeAdds(lo, mid, next, h.nodes, h.next);
    if functions.None? { return None; }
    ghost var plans := PlanAll(nodes, path, p.functions).value;

    ok := ctx.Spend(|p.locals|);
    if !ok { return None; }
    var u := Unit(code, pool.value, functions.value, p.paramCount, locals);
    ghost var plan := PlanFrom(nodes, p, ts, plans);
    UnitRealizesPlan(nodes, lo, mid, next, h.nodes, h.next, u, plan);
    SeenAsPlanned(h.nodes, lo, u, plan);
    ok := Verifier.ChunkVerify(AsChunk(h.nodes, u));
    if !ok { return None; }
    return Some(u);
  }

  lemma UnitRealizesPlan(nodes: Nodes, lo: Ref, mid: Nodes, next: Ref, now: Nodes, next': Ref, u: Unit, p: Plan)
    requires Grows(nodes, lo, mid, next) && Grows(mid, next, now, next')
    requires u.code == p.code && u.paramCount == p.paramCount && u.locals == p.locals
    requires HoldsAll(mid, lo, u.constants, p.pool) && Constants(mid, u.constants) == p.constants
    requires RealizesAll(now, next, u.functions, p.functions)
    ensures Realizes(now, lo, u, p)
  {
    AllHoldStill(mid, now, lo, lo, u.constants, p.pool);
    forall i | 0 <= i < |u.constants| ensures u.constants[i] < next {
      assert Holds(mid, lo, u.constants[i], p.pool[i]);
    }
    ReadingsGrown(mid, now, next, u.constants);
    AllRealizeStill(now, now, next, next', lo, u.functions, p.functions);
  }

  /** Build nested units, in order, out of the same allowance. */
  method BuildAll(ctx: DescVerify, h: Heap, descs: seq<Ref>) returns (r: Option<seq<Unit>>)
    requires ctx.Valid() && h.Valid() && Below(descs, h.next)
    modifies ctx`work, ctx`depth, ctx.path, h
    ensures ctx.Valid() && ctx.Path() == old(ctx.Path())
    ensures BuildsAll(old(h.nodes), old(h.next), PlanAll(old(h.nodes), ctx.Path(), descs), old(ctx.work),
                      r, h.nodes, h.next, ctx.work)
    ensures Size(h.nodes, old(h.next), h.next) <= old(ctx.work) - ctx.work
    decreases MAX_DEPTH - ctx.depth, 1
  {
    ghost var nodes, lo, path, budget := h.nodes, h.next, ctx.Path(), ctx.work;
    var units: seq<Unit> := [];
    var i := 0;
    assert descs[..0] == [];
    assert BuildsAll(nodes, lo, PlanAll(nodes, path, descs[..0]), budget, Some(units), h.nodes, h.next, ctx.work);
    hide Builds, BuildsAll, Grows, PlanAll, PlanOf, Size;
    SizeOfOne(nodes, lo);
    while i < |descs|
      invariant 0 <= i <= |descs| && lo <= h.next
      invariant ctx.Valid() && h.Valid() && ctx.Path() == path
      invariant BuildsAll(nodes, lo, PlanAll(nodes, path, descs[..i]), budget, Some(units), h.nodes, h.next, ctx.work)
      invariant Size(h.nodes, lo, h.next) <= budget - ctx.work
    {
      ghost var now, next, left := h.nodes, h.next, ctx.work;
      var u := BuildUnit(ctx, h, descs[i], 0);
      BuildOneMore(nodes, lo, path, descs, i, budget, units, now, next, left, u, h.nodes, h.next, ctx.work);
      SizeAdds(lo, now, next, h.nodes, h.next);
      if u.None? { return None; }
      units := units + [u.value];
      i := i + 1;
    }
    assert descs[..i] == descs;
    return Some(units);
  }

  lemma BuildOneMore(nodes: Nodes, lo: Ref, path: seq<Ref>, descs: seq<Ref>, i: nat, budget: nat, units: seq<Unit>,
                     now: Nodes, next: Ref, left: nat, u: Option<Unit>, mid: Nodes, next': Ref, left': nat)
    requires |path| <= MAX_DEPTH && i < |descs| && descs[i] < lo
    requires BuildsAll(nodes, lo, PlanAll(nodes, path, descs[..i]), budget, Some(units), now, next, left)
    requires Builds(now, next, PlanOf(now, path, descs[i], 0), left, u, mid, next', left')
    ensures lo <= next <= next' && Closed(mid, next') && SameBelow(now, mid, next)
    ensures u.Some? ==>
      BuildsAll(nodes, lo, PlanAll(nodes, path, descs[..i + 1]), budget, Some(units + [u.value]), mid, next', left')
    ensures u.None? ==> BuildsAll(nodes, lo, PlanAll(nodes, path, descs), budget, None, mid, next', left')
  {
    hide PlanOf, PlanAll, Realizes, RealizesAll, PlanCost, PlanCostAll;
    var plans := PlanAll(nodes, path, descs[..i]).value;
    PlanGrown(nodes, now, lo, path, descs[i], 0);
    PlanOneMore(nodes, path, descs, i, plans);
    if u.Some? {
      AllRealizeOn(now, mid, lo, next, next', units, plans, u.value, PlanOf(nodes, path, descs[i], 0).value);
    } else if PlanAll(nodes, path, descs).Some? {
      PlanPrefix(nodes, path, descs, i + 1);
    }
  }

  lemma PlanOneMore(nodes: Nodes, path: seq<Ref>, descs: seq<Ref>, i: nat, plans: seq<Plan>)
    requires |path| <= MAX_DEPTH && i < |descs| && PlanAll(nodes, path, descs[..i]) == Some(plans)
    ensures var p := PlanOf(nodes, path, descs[i], 0);
      && PlanAll(nodes, path, descs[..i + 1]) == (if p.Some? then Some(plans + [p.value]) else None)
      && (p.Some? ==> PlanCostAll(plans + [p.value]) == PlanCostAll(plans) + PlanCost(p.value))
  {
    hide PlanOf, PlanCost;
    assert descs[..i + 1][..i] == descs[..i];
    var p := PlanOf(nodes, path, descs[i], 0);
    if p.Some? {
      assert (plans + [p.value])[..|plans|] == plans;
    }
  }

  lemma AllRealizeOn(now: Nodes, mid: Nodes, lo: Ref, next: Ref, next': Ref, units: seq<Unit>, plans: seq<Plan>,
                     u: Unit, p: Plan)
    requires RealizesAll(now, lo, units, plans) && Realizes(mid, next, u, p) && lo <= next
    requires Closed(now, next) && Closed(mid, next') && SameBelow(now, mid, next)
    ensures RealizesAll(mid, lo, units + [u], plans + [p])
  {
    hide Realizes;
    AllRealizeStill(now, mid, lo, next, lo, units, plans);
    RealizesStill(mid, mid, next, next', lo, u, p);
  }

  /** The verifier accepts the unit and every unit nested in it. */
  ghost predicate AllAccepted(c: Bytecode.Chunk)
    decreases c
  {
    Verifier.Accepted(c) && EachAccepted(c.functions)
  }

  ghost predicate EachAccepted(cs: seq<Bytecode.Chunk>)
    decreases cs
  {
    forall f :: 0 <= f < |cs| ==> AllAccepted(cs[f])
  }

  lemma OneMoreAccepted(cs: seq<Bytecode.Chunk>, c: Bytecode.Chunk)
    requires EachAccepted(cs) && AllAccepted(c)
    ensures EachAccepted(cs + [c])
  {
    hide Verifier.Accepted;
  }

  lemma {:induction false} PlannedUnitsAccepted(nodes: Nodes, path: seq<Ref>, desc: Ref, off: nat)
    requires |path| <= MAX_DEPTH && PlanOf(nodes, path, desc, off).Some?
    ensures AllAccepted(PlannedChunk(PlanOf(nodes, path, desc, off).value))
    decreases MAX_DEPTH - |path|, 0
  {
    hide Verifier.Accepted, EachAccepted;
    var plan := PlanOf(nodes, path, desc, off).value;
    var parts := PartsOf(nodes, desc, off).value;
    assert BodyPlan(nodes, path + [desc], desc, off) == Some(plan);
    NestedUnitsAccepted(nodes, path + [desc], parts.functions);
    assert PlannedChunk(plan).functions == PlannedChunks(plan.functions);
  }

  lemma {:induction false} NestedUnitsAccepted(nodes: Nodes, path: seq<Ref>, descs: seq<Ref>)
    requires |path| <= MAX_DEPTH && PlanAll(nodes, path, descs).Some?
    ensures EachAccepted(PlannedChunks(PlanAll(nodes, path, descs).value))
    decreases MAX_DEPTH - |path|, 1, |descs|
  {
    hide Verifier.Accepted, PlanOf;
    if descs != [] {
      NestedUnitsAccepted(nodes, path, descs[..|descs| - 1]);
      PlannedUnitsAccepted(nodes, path, descs[|descs| - 1], 0);
      var front := PlanAll(nodes, path, descs[..|descs| - 1]).value;
      var last := PlanOf(nodes, path, descs[|descs| - 1], 0).value;
      var plans := PlanAll(nodes, path, descs).value;
      assert plans == front + [last] && plans[..|plans| - 1] == front;
      OneMoreAccepted(PlannedChunks(front), PlannedChunk(last));
      assert PlannedChunks(plans) == PlannedChunks(front) + [PlannedChunk(last)];
    }
  }

  // ---- What a built unit has to do with its descriptor ----

  /** The items of the list that stands at place `k`, if one does. */
  function ListAt(nodes: Nodes, d: seq<Ref>, k: nat): seq<Ref> {
    if k < |d| && IsList(nodes, d[k]) then nodes[d[k]].items else []
  }

  /** Byte by byte, the code is the low byte of each number of a list, and 0 for what is no number. */
  ghost predicate MirrorsCode(nodes: Nodes, rs: seq<Ref>, code: seq<Byte>) {
    |code| == |rs| && forall i :: 0 <= i < |rs| ==>
      code[i] == if rs[i] in nodes && nodes[rs[i]].Num? then nodes[rs[i]].asInt % 256 else 0
  }

  ghost predicate MirrorsNames(nodes: Nodes, rs: seq<Ref>, names: seq<string>) {
    |names| == |rs| && forall i :: 0 <= i < |rs| ==>
      names[i] == if rs[i] in nodes && nodes[rs[i]].Str? then nodes[rs[i]].text else ""
  }

  /** The unit has the code, copies of the constants, the nested units, the parameter count and the local names of the
      descriptor at `desc`, which start at its place `off`. */
  ghost predicate Mirrors(nodes: Nodes, nodes': Nodes, lo: Ref, desc: Ref, off: nat, u: Unit)
    decreases u
  {
    && IsList(nodes, desc)
    && var d := nodes[desc].items;
    && |d| >= off + 2 && IsList(nodes, d[off]) && IsList(nodes, d[off + 1])
    && MirrorsCode(nodes, nodes[d[off]].items, u.code)
    && var pool := nodes[d[off + 1]].items;
    && |u.constants| == |pool|
    && (forall i :: 0 <= i < |pool| ==> IsCopy(nodes, nodes', lo, pool[i], u.constants[i]))
    && MirrorsAll(nodes, nodes', lo, ListAt(nodes, d, off + 2), u.functions)
    && u.paramCount == (if |d| > off + 3 && d[off + 3] in nodes && nodes[d[off + 3]].Num? then nodes[d[off + 3]].asInt
                        else 0)
    && MirrorsNames(nodes, ListAt(nodes, d, off + 5), u.locals)
  }

  ghost predicate MirrorsAll(nodes: Nodes, nodes': Nodes, lo: Ref, descs: seq<Ref>, us: seq<Unit>)
    decreases us
  {
    |us| == |descs| && forall i :: 0 <= i < |us| ==> Mirrors(nodes, nodes', lo, descs[i], 0, us[i])
  }

  lemma PartsMean(nodes: Nodes, desc: Ref, off: nat)
    requires PartsOf(nodes, desc, off).Some?
    ensures IsList(nodes, desc)
    ensures var d, p := nodes[desc].items, PartsOf(nodes, desc, off).value;
      && |d| >= off + 2 && IsList(nodes, d[off]) && IsList(nodes, d[off + 1])
      && p.code == nodes[d[off]].items && p.constants == nodes[d[off + 1]].items
      && p.functions == ListAt(nodes, d, off + 2) && p.locals == ListAt(nodes, d, off + 5)
      && p.paramCount == (if |d| > off + 3 && d[off + 3] in nodes && nodes[d[off + 3]].Num? then nodes[d[off + 3]].asInt
                          else 0)
  {
  }

  lemma {:induction false} PlannedAt(nodes: Nodes, path: seq<Ref>, descs: seq<Ref>, i: nat)
    requires |path| <= MAX_DEPTH && i < |descs| && PlanAll(nodes, path, descs).Some?
    ensures PlanOf(nodes, path, descs[i], 0) == Some(PlanAll(nodes, path, descs).value[i])
    decreases |descs|
  {
    hide PlanOf;
    if i < |descs| - 1 {
      PlannedAt(nodes, path, descs[..|descs| - 1], i);
    }
  }

  lemma ReadingsMirror(nodes: Nodes, rs: seq<Ref>)
    ensures MirrorsCode(nodes, rs, CodeBytes(nodes, rs)) && MirrorsNames(nodes, rs, Names(nodes, rs))
  {
  }

  /** What realizes the plan of a descriptor mirrors the descriptor. */
  lemma {:induction false} PlanMirrored(nodes: Nodes, path: seq<Ref>, desc: Ref, off: nat, nodes': Nodes, lo: Ref,
                                        u: Unit)
    requires |path| <= MAX_DEPTH && PlanOf(nodes, path, desc, off).Some?
    requires Realizes(nodes', lo, u, PlanOf(nodes, path, desc, off).value)
    requires SameBelow(nodes, nodes', lo) && Closed(nodes, lo) && desc < lo
    ensures Mirrors(nodes, nodes', lo, desc, off, u)
    decreases MAX_DEPTH - |path|
  {
    hide Unfold, UnfoldAll, PlanAll, Holds, IsCopy, PartsOf, Constants, CodeBytes, Names, MirrorsCode, MirrorsNames;
    hide Realizes, PlannedChunk, Verifier.Accepted, ListAt, Closed, SameBelow;
    var inner, p := path + [desc], PartsOf(nodes, desc, off).value;
    PartsMean(nodes, desc, off);
    SameAsItself(nodes, lo);
    PartsGrown(nodes, nodes, lo, desc, off);
    var plan := PlanOf(nodes, path, desc, off).value;
    RealizedParts(nodes', lo, u, plan);
    ReadingsMirror(nodes, p.code);
    ReadingsMirror(nodes, p.locals);
    CopiesOfPool(nodes, inner, p.constants, nodes', lo, u.constants);
    forall i | 0 <= i < |u.functions| ensures Mirrors(nodes, nodes', lo, p.functions[i], 0, u.functions[i]) {
      PlannedAt(nodes, inner, p.functions, i);
      PlanMirrored(nodes, inner, p.functions[i], 0, nodes', lo, u.functions[i]);
    }
  }

  lemma SameAsItself(nodes: Nodes, lo: Ref)
    ensures SameBelow(nodes, nodes, lo)
  {
  }

  lemma RealizedParts(nodes: Nodes, lo: Ref, u: Unit, p: Plan)
    requires Realizes(nodes, lo, u, p)
    ensures u.code == p.code && u.paramCount == p.paramCount && u.locals == p.locals
    ensures HoldsAll(nodes, lo, u.constants, p.pool)
    ensures |u.functions| == |p.functions|
    ensures forall i :: 0 <= i < |u.functions| ==> Realizes(nodes, lo, u.functions[i], p.functions[i])
  {
  }

  lemma CopiesOfPool(nodes: Nodes, path: seq<Ref>, vs: seq<Ref>, nodes': Nodes, lo: Ref, rs: seq<Ref>)
    requires |path| <= MAX_DEPTH && UnfoldAll(nodes, path, vs).Some?
    requires HoldsAll(nodes', lo, rs, UnfoldAll(nodes, path, vs).value)
    requires SameBelow(nodes, nodes', lo) && Closed(nodes, lo) && Below(vs, lo)
    ensures |rs| == |vs| && forall i :: 0 <= i < |vs| ==> IsCopy(nodes, nodes', lo, vs[i], rs[i])
  {
    hide Unfold, UnfoldAll, Holds, Closed, CopyOf, SameBelow;
    var ts := UnfoldAll(nodes, path, vs).value;
    forall i, depth: nat | 0 <= i < |vs| ensures CopyOf(nodes, nodes', lo, vs[i], rs[i], depth) {
      UnfoldedAt(nodes, path, vs, i);
      HoldsCopy(nodes, path, vs[i], ts[i], nodes', lo, rs[i], depth);
    }
  }

  /** What the verifier sees of a unit is its code; which of its constants are strings and numbers, and which; and the
      same of its nested units. */
  ghost predicate Sees(nodes: Nodes, u: Unit, c: Bytecode.Chunk)
    decreases u
  {
    && c.code == u.code && |c.constants| == |u.constants|
    && (forall i :: 0 <= i < |u.constants| ==>
        var r := u.constants[i];
        && (c.constants[i].Str? <==> r in nodes && nodes[r].Str?)
        && (c.constants[i].Num? <==> r in nodes && nodes[r].Num?)
        && (c.constants[i].Str? ==> c.constants[i].text == nodes[r].text)
        && (c.constants[i].Num? ==> c.constants[i].bits == nodes[r].bits))
    && SeesAll(nodes, u.functions, c.functions)
  }

  ghost predicate SeesAll(nodes: Nodes, us: seq<Unit>, cs: seq<Bytecode.Chunk>)
    decreases us
  {
    |cs| == |us| && forall i :: 0 <= i < |us| ==> Sees(nodes, us[i], cs[i])
  }

  lemma {:induction false} SeenAsItIs(nodes: Nodes, u: Unit)
    ensures Sees(nodes, u, AsChunk(nodes, u))
    decreases u
  {
    AllSeenAsTheyAre(nodes, u.functions);
  }

  lemma {:induction false} AllSeenAsTheyAre(nodes: Nodes, us: seq<Unit>)
    ensures SeesAll(nodes, us, AsChunks(nodes, us))
    decreases us
  {
    if us != [] {
      AllSeenAsTheyAre(nodes, us[..|us| - 1]);
      SeenAsItIs(nodes, us[|us| - 1]);
    }
  }

  /** The sandbox's entry: one fresh context for the whole descriptor graph. */
  method BuildSandboxed(h: Heap, desc: Ref, off: nat) returns (r: Option<Unit>)
    requires h.Valid() && desc < h.next
    modifies h
    ensures var plan := PlanOf(old(h.nodes), [], desc, off);
      && (r.Some? <==> plan.Some? && PlanCost(plan.value) <= MAX_WORK)
      && (r.Some? ==> Realizes(h.nodes, old(h.next), r.value, plan.value))
    ensures r.Some? ==> var c := AsChunk(h.nodes, r.value); AllAccepted(c) && Sees(h.nodes, r.value, c)
    ensures SameBelow(old(h.nodes), h.nodes, old(h.next))
    ensures r.Some? ==> Mirrors(old(h.nodes), h.nodes, old(h.next), desc, off, r.value)
    ensures Size(h.nodes, old(h.next), h.next) <= MAX_WORK
  {
    var ctx := new DescVerify();
    ghost var lo := h.next;
    r := BuildUnit(ctx, h, desc, off);
    if r.Some? {
      SeenAsPlanned(h.nodes, lo, r.value, PlanOf(old(h.nodes), [], desc, off).value);
      PlannedUnitsAccepted(old(h.nodes), [], desc, off);
      PlanMirrored(old(h.nodes), [], desc, off, h.nodes, lo, r.value);
      SeenAsItIs(h.nodes, r.value);
    }
  }
}
