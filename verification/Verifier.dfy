/** The bytecode verifier, proved sound and exact against every run of the operand-height machine. */
module Verifier {
  import opened Bytes
  import opened Opcodes
  import opened Bytecode

  // ---- The machine the verifier is about ----

  datatype State = State(pc: int, height: int)

  const ENTRY := State(0, 0)

  /** The machine's successors of `s`: fall-through edge first, then the jump edge. An
      instruction that is fed fewer operands than it needs has none: it faults. */
  function Successors(c: Chunk, s: State): seq<State> {
    if !InstructionValid(c, s.pc) then
      []
    else
      var e := EffectOf(c.code, s.pc);
      var left := s.height - e.pops;
      var next := State(EndOf(c.code, s.pc), left + e.pushes);
      var jump := State(Target(c.code, s.pc), left + e.branchPushes);
      if s.height < e.need then [] else
      match e.flow
      case FallThrough => [next]
      case Branch => [next, jump]
      case Jump => [jump]
      case End => []
  }

  /** A run: a path of steps from the entry state. */
  ghost predicate IsRun(c: Chunk, run: seq<State>) {
    && run != []
    && run[0] == ENTRY
    && forall i :: 0 < i < |run| ==> run[i] in Successors(c, run[i - 1])
  }

  ghost predicate Reachable(c: Chunk, s: State) {
    exists run :: IsRun(c, run) && run[|run| - 1] == s
  }

  /** Executing at `s` is safe: an instruction starts there, the height is in range, and the
      instruction has the operands it needs. */
  predicate Safe(c: Chunk, s: State) {
    && IsStart(c.code, s.pc)
    && InstructionValid(c, s.pc)
    && EffectOf(c.code, s.pc).need <= s.height <= VM_STACK_MAX
  }

  /** Every run is safe, and all runs that reach one offset reach it at one height. */
  ghost predicate RunsAreSafe(c: Chunk) {
    && (forall s :: Reachable(c, s) ==> Safe(c, s))
    && (forall s, t :: Reachable(c, s) && Reachable(c, t) && s.pc == t.pc ==> s.height == t.height)
  }

  /** A height per offset that starts at 0 and is consistent on every edge between the
      offsets it covers. */
  ghost predicate IsTyping(c: Chunk, heights: map<int, int>) {
    && 0 in heights && heights[0] == 0
    && forall pc :: pc in heights ==>
      && Safe(c, State(pc, heights[pc]))
      && forall t :: t in Successors(c, State(pc, heights[pc])) ==> t.pc in heights && heights[t.pc] == t.height
  }

  // ---- What passes 1 to 3 demand ----

  predicate IsTerminator(op: Byte) {
    op == OP_RETURN || op == OP_RETURN_NULL || op == OP_JUMP || op == OP_JUMP_BACK
  }

  /** The jump of the instruction at `i`, if it has one, lands on an instruction boundary. */
  predicate JumpLands(c: Chunk, i: int) {
    InstructionValid(c, i) && (HasJump(c.code[i]) ==> IsStart(c.code, Target(c.code, i)))
  }

  /** If the instruction at `i` is the last one, control does not fall out of it. */
  predicate EndsClosed(c: Chunk, i: int) {
    InstructionValid(c, i) && (EndOf(c.code, i) == |c.code| ==> IsTerminator(c.code[i]))
  }

  ghost predicate WellFormed(c: Chunk) {
    && c.code != []
    && Decodes(c, 0)
    && (forall i :: IsStart(c.code, i) ==> JumpLands(c, i))
    && (forall i :: IsStart(c.code, i) ==> EndsClosed(c, i))
  }

  // ---- Pass 1: decode, mark boundaries, collect jump targets ----

  /** The jump targets met while decoding from `i`, in code order. */
  function JumpTargets(c: Chunk, i: nat): seq<int>
    decreases |c.code| - i
  {
    if !InstructionValid(c, i) then
      []
    else
      (if HasJump(c.code[i]) then [Target(c.code, i)] else []) + JumpTargets(c, EndOf(c.code, i))
  }

  /** The last instruction met while decoding from `i`. */
  function LastStart(c: Chunk, i: nat): (r: nat)
    requires i < |c.code| && Decodes(c, i)
    ensures r < |c.code|
    decreases |c.code| - i
  {
    if EndOf(c.code, i) == |c.code| then i else LastStart(c, EndOf(c.code, i))
  }

  /** Check the operands of the instruction at `i` one by one, stashing its jump targets. */
  method CheckOperands(c: Chunk, i: nat, targets: array<int>, count: nat) returns (ok: bool, newCount: nat)
    requires i < |c.code| && c.code[i] < OP_COUNT && c.code[i] != OP_LINE && EndOf(c.code, i) <= |c.code|
    requires count <= i && targets.Length == |c.code|
    modifies targets
    ensures ok <==> InstructionValid(c, i)
    ensures ok ==> newCount <= EndOf(c.code, i)
    ensures ok ==> targets[..newCount] == old(targets[..count]) + if HasJump(c.code[i]) then [Target(c.code, i)] else []
  {
    hide OperandRoles, StackEffect;
    TablesAgree(c.code[i], 0);
    var roles := OperandRoles(c.code[i]);
    var k := 0;
    ok, newCount := true, count;
    while k < |roles| && ok
      invariant 0 <= k <= |roles|
      invariant ok ==> forall j :: 0 <= j < k ==> OperandValid(c, roles[j], Operand(c.code, i, j))
      invariant !ok ==> !InstructionValid(c, i)
      invariant count <= newCount <= i + k
      invariant targets[..newCount] ==
        old(targets[..count]) + if k == |roles| && ok && HasJump(c.code[i]) then [Target(c.code, i)] else []
    {
      var operand := Operand(c.code, i, k);
      match roles[k] {
        case ConstIndex =>
          if operand >= |c.constants| { ok := false; }
        case NameIndex =>
          if operand >= |c.constants| || !c.constants[operand].Str? { ok := false; }
        case FnIndex =>
          if operand >= |c.functions| { ok := false; }
        case JumpForward =>
          targets[newCount] := EndOf(c.code, i) + operand;
          newCount := newCount + 1;
        case JumpBackward =>
          targets[newCount] := EndOf(c.code, i) - operand;
          newCount := newCount + 1;
        case Raw =>
      }
      k := k + 1;
    }
  }

  /** What decoding from `i` says in terms of decoding from the next instruction. */
  lemma DecodeStep(c: Chunk, i: nat)
    requires InstructionValid(c, i)
    ensures var end := EndOf(c.code, i);
      && (Decodes(c, i) <==> Decodes(c, end))
      && (forall j :: Starts(c.code, i, j) <==> j == i || Starts(c.code, end, j))
      && (forall j :: Starts(c.code, end, j) ==> end <= j < |c.code|)
      && JumpTargets(c, i) == (if HasJump(c.code[i]) then [Target(c.code, i)] else []) + JumpTargets(c, end)
      && (Decodes(c, i) ==> LastStart(c, i) == if end == |c.code| then i else LastStart(c, end))
  {
    hide OperandRoles, StackEffect;
    StartsAreLater(c.code, EndOf(c.code, i));
  }

  /** Decoding has reached `i`: the boundaries below it are marked, the targets below it found,
      and `lastOp` is the opcode just decoded. */
  ghost predicate DecodedTo(c: Chunk, i: nat, marks: seq<bool>, found: seq<int>, lastOp: Byte) {
    && i <= |c.code| && |marks| == |c.code| + 1 && c.code != []
    && (Decodes(c, 0) <==> Decodes(c, i))
    && (forall j :: 0 <= j < i ==> marks[j] == IsStart(c.code, j))
    && (forall j :: i <= j < |c.code| ==> !marks[j] && IsStart(c.code, j) == Starts(c.code, i, j))
    && JumpTargets(c, 0) == found + JumpTargets(c, i)
    && (Decodes(c, i) ==>
      if i < |c.code| then LastStart(c, 0) == LastStart(c, i) else lastOp == c.code[LastStart(c, 0)])
  }

  lemma DecodedOneMore(c: Chunk, i: nat, marks: seq<bool>, found: seq<int>, lastOp: Byte)
    requires i < |c.code| && DecodedTo(c, i, marks, found, lastOp)
    ensures Decodes(c, 0) ==> InstructionValid(c, i)
    ensures InstructionValid(c, i) ==>
      DecodedTo(c, EndOf(c.code, i), marks[i := true],
                found + (if HasJump(c.code[i]) then [Target(c.code, i)] else []), c.code[i])
  {
    hide OperandRoles, StackEffect;
    if InstructionValid(c, i) {
      DecodeStep(c, i);
      var target := if HasJump(c.code[i]) then [Target(c.code, i)] else [];
      var rest := JumpTargets(c, EndOf(c.code, i));
      assert found + (target + rest) == (found + target) + rest;
    }
  }

  method DecodePass(c: Chunk, isStart: array<bool>, targets: array<int>) returns (ok: bool, count: nat, lastOp: Byte)
    requires c.code != [] && isStart.Length == |c.code| + 1 && targets.Length == |c.code|
    requires forall j :: 0 <= j < isStart.Length ==> !isStart[j]
    modifies isStart, targets
    ensures ok <==> Decodes(c, 0)
    ensures ok ==> forall j :: 0 <= j < |c.code| ==> isStart[j] == IsStart(c.code, j)
    ensures ok ==> count <= |c.code| && targets[..count] == JumpTargets(c, 0)
    ensures ok ==> lastOp == c.code[LastStart(c, 0)]
  {
    var n, i: nat := |c.code|, 0;
    ok, count, lastOp := true, 0, OP_NULL;
    assert DecodedTo(c, i, isStart[..], targets[..count], lastOp);
    hide DecodedTo, OperandRoles, StackEffect, JumpTargets, LastStart, Decodes, Starts;
    while i < n
      invariant i <= n && count <= i
      invariant DecodedTo(c, i, isStart[..], targets[..count], lastOp)
    {
      ghost var marks, found := isStart[..], targets[..count];
      DecodedOneMore(c, i, marks, found, lastOp);
      var op := c.code[i];
      if op >= OP_COUNT { ok := false; return; }
      isStart[i] := true;
      lastOp := op;
      var end := EndOf(c.code, i);
      if end > n { ok := false; return; }
      if op != OP_LINE {
        ok, count := CheckOperands(c, i, targets, count);
        if !ok { return; }
      }
      assert isStart[..] == marks[i := true];
      assert targets[..count] == found + if HasJump(op) then [Target(c.code, i)] else [];
      i := end;
    }
    AllDecoded(c, isStart[..], targets[..count], lastOp);
  }

  lemma AllDecoded(c: Chunk, marks: seq<bool>, found: seq<int>, lastOp: Byte)
    requires DecodedTo(c, |c.code|, marks, found, lastOp)
    ensures Decodes(c, 0) && found == JumpTargets(c, 0) && lastOp == c.code[LastStart(c, 0)]
    ensures forall j :: 0 <= j < |c.code| ==> marks[j] == IsStart(c.code, j)
  {
  }

  // ---- Pass 2 and 3 ----

  method TargetPass(c: Chunk, isStart: array<bool>, targets: array<int>, count: nat) returns (ok: bool)
    requires isStart.Length == |c.code| + 1 && count <= targets.Length
    requires forall j :: 0 <= j < |c.code| ==> isStart[j] == IsStart(c.code, j)
    ensures ok <==> forall t :: t in targets[..count] ==> IsStart(c.code, t)
  {
    StartsAreLater(c.code, 0);
    ok := true;
    var t := 0;
    while ok && t < count
      invariant 0 <= t <= count
      invariant forall u :: 0 <= u < t && ok ==> IsStart(c.code, targets[u])
      invariant !ok ==> exists u :: u in targets[..count] && !IsStart(c.code, u)
    {
      var target := targets[t];
      assert target in targets[..count];
      if target < 0 || target >= |c.code| || !isStart[target] { ok := false; }
      t := t + 1;
    }
  }

  lemma {:induction false} TargetsLand(c: Chunk, i: nat)
    requires Decodes(c, i)
    ensures (forall t :: t in JumpTargets(c, i) ==> IsStart(c.code, t))
       <==> (forall j :: Starts(c.code, i, j) ==> JumpLands(c, j))
    decreases |c.code| - i
  {
    hide OperandRoles, StackEffect;
    if i < |c.code| {
      var end := EndOf(c.code, i);
      DecodeStep(c, i);
      TargetsLand(c, end);
      assert Starts(c.code, i, i);
      assert JumpLands(c, i) <==> HasJump(c.code[i]) ==> IsStart(c.code, Target(c.code, i));
      assert forall t :: t in JumpTargets(c, i) <==>
        (HasJump(c.code[i]) && t == Target(c.code, i)) || t in JumpTargets(c, end);
    }
  }

  lemma {:induction false} LastStartIsLast(c: Chunk, i: nat)
    requires i < |c.code| && Decodes(c, i)
    ensures Starts(c.code, i, LastStart(c, i))
    ensures forall j :: Starts(c.code, i, j) ==>
      InstructionValid(c, j) && (EndOf(c.code, j) == |c.code| <==> j == LastStart(c, i))
    decreases |c.code| - i
  {
    hide OperandRoles, StackEffect;
    var end := EndOf(c.code, i);
    DecodeStep(c, i);
    if end < |c.code| {
      LastStartIsLast(c, end);
    }
  }

  // ---- Pass 4: propagate heights over the edges ----

  lemma ReachableStep(c: Chunk, s: State, t: State)
    requires Reachable(c, s) && t in Successors(c, s)
    ensures Reachable(c, t)
  {
    hide InstructionValid, EffectOf, Target;
    var run :| IsRun(c, run) && run[|run| - 1] == s;
    assert IsRun(c, run + [t]);
  }

  lemma EntryReachable(c: Chunk)
    ensures Reachable(c, ENTRY)
  {
    assert IsRun(c, [ENTRY]);
  }

  /** Every offset that has a height is a boundary some run reaches at that height. */
  ghost predicate Discovered(c: Chunk, height: seq<int>) {
    && |height| == |c.code|
    && forall d :: 0 <= d < |height| && height[d] >= 0 ==>
      IsStart(c.code, d) && height[d] <= VM_STACK_MAX && Reachable(c, State(d, height[d]))
  }

  /** The worklist holds offsets that have a height, each once. */
  ghost predicate Listed(height: seq<int>, work: seq<int>) {
    && (forall i :: 0 <= i < |work| ==> 0 <= work[i] < |height| && height[work[i]] >= 0)
    && (forall i, j :: 0 <= i < j < |work| ==> work[i] != work[j])
  }

  ghost predicate Recorded(height: seq<int>, t: State) {
    0 <= t.pc < |height| && 0 <= height[t.pc] == t.height
  }

  /** The instruction at `d` has its operands, and all its successors carry the heights it gives them. */
  ghost predicate Settled(c: Chunk, height: seq<int>, d: int)
    requires 0 <= d < |height|
  {
    var s := State(d, height[d]);
    Safe(c, s) && forall t :: t in Successors(c, s) ==> Recorded(height, t)
  }

  /** Later heights only fill in offsets that had none. */
  ghost predicate Extends(before: seq<int>, after: seq<int>) {
    |before| == |after| && forall d :: 0 <= d < |before| && before[d] >= 0 ==> after[d] == before[d]
  }

  function Unseen(height: seq<int>): nat {
    if height == [] then 0
    else Unseen(height[..|height| - 1]) + if height[|height| - 1] < 0 then 1 else 0
  }

  lemma {:induction false} UnseenUpdate(height: seq<int>, d: int, h: int)
    requires 0 <= d < |height| && height[d] < 0 <= h
    ensures Unseen(height[d := h]) == Unseen(height) - 1
  {
    var last := |height| - 1;
    if d == last {
      assert height[d := h][..last] == height[..last];
    } else {
      assert height[d := h][..last] == height[..last][d := h];
      UnseenUpdate(height[..last], d, h);
    }
  }

  /** Distinct offsets below `n` number at most `n`. */
  lemma {:induction false} DistinctFit(work: seq<int>, n: nat)
    requires forall i :: 0 <= i < |work| ==> 0 <= work[i] < n
    requires forall i, j :: 0 <= i < j < |work| ==> work[i] != work[j]
    ensures |work| <= n
  {
    assert work != [] ==> work[0] < n;
    if n == 0 {
      assert work == [];
    } else if n - 1 in work {
      var k :| 0 <= k < |work| && work[k] == n - 1;
      var rest := work[..k] + work[k + 1..];
      assert forall i :: 0 <= i < |rest| ==> rest[i] == work[if i < k then i else i + 1];
      DistinctFit(rest, n - 1);
    } else {
      DistinctFit(work, n - 1);
    }
  }

  /** The states one instruction hands control to, each reached by the run that reached it. */
  lemma Edges(c: Chunk, s: State)
    requires InstructionValid(c, s.pc) && Reachable(c, s) && s.height >= EffectOf(c.code, s.pc).need
    ensures var e := EffectOf(c.code, s.pc);
      var next := State(EndOf(c.code, s.pc), s.height - e.pops + e.pushes);
      var jump := State(Target(c.code, s.pc), s.height - e.pops + e.branchPushes);
      Successors(c, s) == match e.flow
        case FallThrough => [next]
        case Branch => [next, jump]
        case Jump => [jump]
        case End => []
    ensures forall t :: t in Successors(c, s) ==> Reachable(c, t)
  {
    hide OperandRoles, StackEffect;
    forall t | t in Successors(c, s) ensures Reachable(c, t) {
      ReachableStep(c, s, t);
    }
  }

  /** The invariant of the propagation: whatever has a height and is not on the worklist is settled. */
  ghost predicate Propagating(c: Chunk, height: seq<int>, work: seq<int>) {
    && Discovered(c, height)
    && Listed(height, work)
    && c.code != [] && height[0] == 0
    && forall d :: 0 <= d < |height| && height[d] >= 0 && d !in work ==> Settled(c, height, d)
  }

  lemma SettledForGood(c: Chunk, before: seq<int>, after: seq<int>, d: int)
    requires 0 <= d < |before| && before[d] >= 0 && Settled(c, before, d) && Extends(before, after)
    ensures Settled(c, after, d)
  {
    hide InstructionValid, EffectOf, Target, Successors, Safe;
  }

  /** How far following the edges of one offset has got: it started with heights `before` and
      worklist `listed`, and every offset now unlisted had a height and was unlisted then. */
  ghost predicate Following(c: Chunk, before: seq<int>, listed: seq<int>, height: seq<int>, work: seq<int>) {
    && Discovered(c, height)
    && Listed(height, work)
    && Extends(before, height)
    && (forall d :: 0 <= d < |height| && height[d] >= 0 && d !in work ==> before[d] >= 0 && d !in listed)
    && (Unseen(height) < Unseen(before) || (height == before && work == listed))
  }

  lemma FollowNewEdge(c: Chunk, before: seq<int>, listed: seq<int>, height: seq<int>, work: seq<int>, t: State)
    requires Following(c, before, listed, height, work)
    requires IsStart(c.code, t.pc) && 0 <= t.pc < |c.code| && 0 <= t.height <= VM_STACK_MAX && Reachable(c, t)
    requires height[t.pc] < 0
    ensures Following(c, before, listed, height[t.pc := t.height], work + [t.pc])
    ensures Extends(height, height[t.pc := t.height])
    ensures |work| < |c.code|
  {
    hide IsStart, Reachable, Unseen;
    UnseenUpdate(height, t.pc, t.height);
    assert t.pc !in work;
    DistinctFit(work + [t.pc], |c.code|);
    assert t == State(t.pc, t.height);
  }

  /** Follow one edge into state `t`, which some run reaches. */
  method Visit(c: Chunk, isStart: array<bool>, height: array<int>, work: array<int>, count: nat, t: State,
               ghost before: seq<int>, ghost listed: seq<int>)
    returns (ok: bool, newCount: nat)
    requires isStart.Length == |c.code| + 1 && height.Length == work.Length == |c.code| && height != work
    requires forall j :: 0 <= j < |c.code| ==> isStart[j] == IsStart(c.code, j)
    requires count <= work.Length && Following(c, before, listed, height[..], work[..count])
    requires Reachable(c, t)
    modifies height, work
    ensures !ok ==> !RunsAreSafe(c)
    ensures ok ==> newCount <= work.Length && Following(c, before, listed, height[..], work[..newCount])
    ensures ok ==> Recorded(height[..], t) && Extends(old(height[..]), height[..])
  {
    hide Starts, InstructionValid, EffectOf, Unseen, Reachable, Following;
    ok, newCount := true, count;
    if t.pc < 0 || t.pc >= |c.code| || !isStart[t.pc] || t.height < 0 || t.height > VM_STACK_MAX {
      StartsAreLater(c.code, 0);
      assert !Safe(c, t);
      ok := false;
    } else if height[t.pc] < 0 {
      ghost var h, w := height[..], work[..count];
      FollowNewEdge(c, before, listed, h, w, t);
      height[t.pc] := t.height;
      work[count] := t.pc;
      newCount := count + 1;
      assert height[..] == h[t.pc := t.height];
      assert work[..newCount] == w + [t.pc];
    } else if height[t.pc] != t.height {
      TwoHeights(c, before, listed, height[..], work[..count], t);
      ok := false;
    }
  }

  lemma TwoHeights(c: Chunk, before: seq<int>, listed: seq<int>, height: seq<int>, work: seq<int>, t: State)
    requires Following(c, before, listed, height, work)
    requires Reachable(c, t) && 0 <= t.pc < |height| && 0 <= height[t.pc] != t.height
    ensures !RunsAreSafe(c)
  {
    hide Reachable, Safe;
    assert Reachable(c, State(t.pc, height[t.pc]));
  }

  lemma StillPropagating(c: Chunk, before: seq<int>, after: seq<int>, off: int, listed: seq<int>, work: seq<int>)
    requires Propagating(c, before, listed + [off]) && Following(c, before, listed, after, work)
    requires 0 <= off < |after| && Settled(c, after, off)
    ensures Propagating(c, after, work)
  {
    hide InstructionValid, EffectOf, Target, Successors, Safe, Settled, Discovered, Listed;
    forall d | 0 <= d < |after| && after[d] >= 0 && d !in work
      ensures Settled(c, after, d)
    {
      if d != off {
        SettledForGood(c, before, after, d);
      }
    }
  }

  /** Start following the edges of the offset just taken off the worklist. */
  lemma StartFollowing(c: Chunk, height: seq<int>, listed: seq<int>, off: int)
    requires WellFormed(c) && Propagating(c, height, listed + [off])
    ensures 0 <= off < |height| == |c.code| && height[off] >= 0
    ensures Reachable(c, State(off, height[off])) && IsStart(c.code, off)
    ensures InstructionValid(c, off) && EndOf(c.code, off) <= |c.code|
    ensures height[off] <= VM_STACK_MAX
    ensures Following(c, height, listed, height, listed)
  {
    hide InstructionValid, Settled, Starts, Reachable, Decodes;
    var work := listed + [off];
    assert work[|listed|] == off;
    assert forall i :: 0 <= i < |listed| ==> work[i] == listed[i];
    assert forall d :: d in work <==> d in listed || d == off;
    StartsAreDecoded(c, 0, off);
  }

  /** Take one offset off the worklist and follow its edges. */
  method Process(c: Chunk, isStart: array<bool>, height: array<int>, work: array<int>, oldCount: nat)
    returns (ok: bool, count: nat)
    requires WellFormed(c)
    requires isStart.Length == |c.code| + 1 && height.Length == work.Length == |c.code| && height != work
    requires forall j :: 0 <= j < |c.code| ==> isStart[j] == IsStart(c.code, j)
    requires 0 < oldCount <= work.Length
    requires Propagating(c, height[..], work[..oldCount])
    modifies height, work
    ensures !ok ==> !RunsAreSafe(c)
    ensures ok ==> count <= work.Length && Propagating(c, height[..], work[..count])
    ensures ok ==> (count < oldCount && height[..] == old(height[..])) || Unseen(height[..]) < Unseen(old(height[..]))
  {
    hide InstructionValid, EffectOf, Target, Successors, StackEffect, OperandRoles, Unseen, Reachable, Starts,
      Propagating, Discovered, Listed, WellFormed;
    ok, count := true, oldCount - 1;
    var off := work[count];
    ghost var before, listed := height[..], work[..count];
    assert work[..oldCount] == listed + [off];
    StartFollowing(c, before, listed, off);
    var h := height[off];
    var s := State(off, h);
    var e := EffectOf(c.code, off);
    if h < e.need {
      assert !Safe(c, s);
      ok := false;
      return;
    }
    var left := h - e.pops;
    var next := State(EndOf(c.code, off), left + e.pushes);
    var jump := State(Target(c.code, off), left + e.branchPushes);
    Edges(c, s);
    match e.flow {
      case FallThrough =>
        ok, count := Visit(c, isStart, height, work, count, next, before, listed);
      case Branch =>
        ok, count := Visit(c, isStart, height, work, count, next, before, listed);
        if ok {
          ok, count := Visit(c, isStart, height, work, count, jump, before, listed);
        }
      case Jump =>
        ok, count := Visit(c, isStart, height, work, count, jump, before, listed);
      case End =>
    }
    if ok {
      assert Settled(c, height[..], off);
      StillPropagating(c, before, height[..], off, listed, work[..count]);
    }
  }

  /** A consistent height assignment covers every run. */
  lemma TypingCoversRun(c: Chunk, heights: map<int, int>, run: seq<State>)
    requires IsTyping(c, heights) && IsRun(c, run)
    ensures var s := run[|run| - 1]; s.pc in heights && heights[s.pc] == s.height
    decreases |run|
  {
    hide Successors, Safe;
    if |run| > 1 {
      var before := run[..|run| - 1];
      assert IsRun(c, before);
      TypingCoversRun(c, heights, before);
      assert run[|run| - 1] in Successors(c, run[|run| - 2]);
    }
  }

  lemma TypingMakesRunsSafe(c: Chunk, heights: map<int, int>)
    requires IsTyping(c, heights)
    ensures RunsAreSafe(c)
  {
    hide Successors, Safe;
    forall s | Reachable(c, s)
      ensures Safe(c, s) && s.pc in heights && heights[s.pc] == s.height
    {
      var run :| IsRun(c, run) && run[|run| - 1] == s;
      TypingCoversRun(c, heights, run);
      assert s == State(s.pc, heights[s.pc]);
    }
  }

  lemma PropagationStarts(c: Chunk, height: seq<int>)
    requires WellFormed(c) && |height| == |c.code|
    requires forall d :: 0 <= d < |height| ==> height[d] == if d == 0 then 0 else -1
    ensures Propagating(c, height, [0])
  {
    hide InstructionValid, Settled, EndOf;
    EntryReachable(c);
    assert IsStart(c.code, 0);
  }

  /** When nothing is left on the worklist, the recorded heights are a typing. */
  lemma PropagationEnds(c: Chunk, height: seq<int>)
    requires Propagating(c, height, [])
    ensures IsTyping(c, map d | 0 <= d < |height| && height[d] >= 0 :: height[d])
    ensures RunsAreSafe(c)
  {
    hide Successors, Safe, Reachable, Listed, RunsAreSafe;
    var heights := map d | 0 <= d < |height| && height[d] >= 0 :: height[d];
    forall pc | pc in heights
      ensures Safe(c, State(pc, heights[pc]))
      ensures forall t :: t in Successors(c, State(pc, heights[pc])) ==> t.pc in heights && heights[t.pc] == t.height
    {
      assert Settled(c, height, pc);
    }
    TypingMakesRunsSafe(c, heights);
  }

  /** Propagate heights from the entry over the edges of a well-formed unit. */
  method HeightPass(c: Chunk, isStart: array<bool>) returns (ok: bool)
    requires WellFormed(c)
    requires isStart.Length == |c.code| + 1
    requires forall j :: 0 <= j < |c.code| ==> isStart[j] == IsStart(c.code, j)
    ensures ok <==> RunsAreSafe(c)
  {
    var n := |c.code|;
    var height := new int[n](_ => -1);
    var work := new int[n](_ => 0);
    var count: nat := 1;
    height[0] := 0;
    work[0] := 0;
    ok := true;
    assert work[..1] == [0];
    PropagationStarts(c, height[..]);
    hide Propagating, IsTyping, RunsAreSafe, Unseen, WellFormed, IsStart;
    while count > 0 && ok
      invariant ok ==> count <= work.Length && Propagating(c, height[..], work[..count])
      invariant !ok ==> !RunsAreSafe(c)
      decreases ok, Unseen(height[..]), count
    {
      ok, count := Process(c, isStart, height, work, count);
    }
    if ok {
      assert work[..count] == [];
      PropagationEnds(c, height[..]);
    }
  }

  // ---- The verifier ----

  ghost predicate Accepted(c: Chunk) {
    WellFormed(c) && RunsAreSafe(c)
  }

  /** The whole verifier: its verdict is exactly that the unit is well formed, no run of it is
      ever unsafe, and no two runs disagree about the height at an offset. */
  method ChunkVerify(c: Chunk) returns (ok: bool)
    ensures ok <==> Accepted(c)
  {
    hide Decodes, Starts, RunsAreSafe, OperandRoles, StackEffect;
    var n := |c.code|;
    if n <= 0 { return false; }
    var isStart := new bool[n + 1](_ => false);
    var targets := new int[n](_ => 0);
    var count, lastOp;
    ok, count, lastOp := DecodePass(c, isStart, targets);
    if !ok { return; }
    TargetsLand(c, 0);
    LastStartIsLast(c, 0);
    ok := TargetPass(c, isStart, targets, count);
    if ok && lastOp != OP_RETURN && lastOp != OP_RETURN_NULL && lastOp != OP_JUMP && lastOp != OP_JUMP_BACK {
      assert IsStart(c.code, LastStart(c, 0)) && !EndsClosed(c, LastStart(c, 0));
      ok := false;
    }
    if ok {
      ok := HeightPass(c, isStart);
    }
  }

  // ---- What runs of an accepted unit do ----

  ghost predicate ReachableOffset(c: Chunk, pc: int) {
    exists h :: Reachable(c, State(pc, h))
  }

  ghost function HeightAt(c: Chunk, pc: int): (h: int)
    requires ReachableOffset(c, pc)
    ensures Reachable(c, State(pc, h))
  {
    var h :| Reachable(c, State(pc, h));
    h
  }

  /** All runs are safe and agree if and only if some height assignment is consistent on every edge. */
  lemma RunsAreSafeIffTyped(c: Chunk)
    ensures RunsAreSafe(c) <==> exists heights :: IsTyping(c, heights)
  {
    hide Successors, Starts, InstructionValid, EffectOf;
    if RunsAreSafe(c) {
      StartsAreLater(c.code, 0);
      EntryReachable(c);
      var heights := map pc | 0 <= pc < |c.code| && ReachableOffset(c, pc) :: HeightAt(c, pc);
      forall s | Reachable(c, s)
        ensures s.pc in heights && heights[s.pc] == s.height
      {
        assert Safe(c, s);
        assert ReachableOffset(c, s.pc) by { assert s == State(s.pc, s.height); }
      }
      assert 0 in heights && heights[0] == 0;
      forall pc, t | pc in heights && t in Successors(c, State(pc, heights[pc]))
        ensures Reachable(c, t)
      {
        ReachableStep(c, State(pc, heights[pc]), t);
      }
      assert IsTyping(c, heights);
    }
    forall heights | IsTyping(c, heights) ensures RunsAreSafe(c) {
      TypingMakesRunsSafe(c, heights);
    }
  }

  /** A run of an accepted unit stays on instruction boundaries inside the code, with enough
      operands and bounded height at every step, and stops only at a return. */
  lemma AcceptedRunsStayInside(c: Chunk, run: seq<State>, i: nat)
    requires Accepted(c) && IsRun(c, run) && i < |run|
    ensures Safe(c, run[i]) && run[i].pc < |c.code|
    ensures Successors(c, run[i]) == [] <==> c.code[run[i].pc] == OP_RETURN || c.code[run[i].pc] == OP_RETURN_NULL
    ensures forall j :: 0 <= j < |run| && run[j].pc == run[i].pc ==> run[j].height == run[i].height
  {
    hide Successors, Starts, InstructionValid, StackEffect, OperandRoles, Decodes;
    forall j | 0 <= j < |run| ensures Reachable(c, run[j]) {
      assert IsRun(c, run[..j + 1]);
    }
    var s := run[i];
    StartsAreDecoded(c, 0, s.pc);
    Edges(c, s);
    OnlyReturnsEnd(c.code[s.pc], if c.code[s.pc] == OP_LINE || OperandRoles(c.code[s.pc]) == [] then 0
      else Operand(c.code, s.pc, 0));
  }

  lemma OnlyReturnsEnd(op: Byte, operand0: nat)
    ensures StackEffect(op, operand0).flow.End? <==> op == OP_RETURN || op == OP_RETURN_NULL
  {
  }
}
