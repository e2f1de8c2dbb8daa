/** The verifier's tables against the instruction handlers: step by step, and over whole runs. */
module Frames {
  import opened Basics
  import opened Bytes
  import opened Opcodes
  import opened Bytecode
  import opened Verifier
  import opened Handlers

  // ---- What the primitives touch ----

  /** Exactly the topmost `n` slots below `height` have been touched by what `more` adds to the log. */
  lemma {:induction false} DropAllTouches<V>(m: Machine<V>, n: nat)
    requires n <= |m.stack|
    ensures var r := m.DropAll(n);
      && r.ip == m.ip && r.stack == m.stack[..|m.stack| - n]
      && r.log == m.log + seq(n, i => Slot(|m.stack| - 1 - i))
    decreases n
  {
    if n > 0 {
      DropAllTouches(m.Drop(), n - 1);
      var log := m.log + seq(n, i => Slot(|m.stack| - 1 - i));
      assert m.DropAll(n).log == log;
    } else {
      assert m.log + seq(0, i => Slot(|m.stack| - 1 - i)) == m.log;
    }
  }

  lemma {:induction false} DrainTouches<V>(m: Machine<V>, base: nat)
    requires base <= |m.stack|
    ensures var r := m.DrainTo(base);
      && r.stack == m.stack[..base]
      && forall a :: a in r.log ==> a in m.log || (a.Slot? && a.at >= base)
    decreases |m.stack|
  {
    if |m.stack| > base {
      DrainTouches(m.Drop(), base);
    }
  }

  lemma {:induction false} UnpackPushes<V>(m: Machine<V>, list: V, n: nat, w: World<V>)
    ensures var r := Unpack(m, list, n, w);
      && r.ip == m.ip && r.log == m.log && |r.stack| == |m.stack| + n && r.stack[..|m.stack|] == m.stack
    decreases n
  {
    if n > 0 {
      UnpackPushes(m.Push(w.part(list, n - 1)), list, n - 1, w);
    }
  }

  lemma CombineTouches<V>(m: Machine<V>, n: nat, w: World<V>)
    requires n <= |m.stack|
    ensures var r := Combine(m, n, w);
      && r.GoesOn? && r.m.ip == m.ip && |r.m.stack| == |m.stack| - n + 1
      && r.m.stack[..|m.stack| - n] == m.stack[..|m.stack| - n]
      && r.m.log == m.log + seq(n, i => Slot(|m.stack| - 1 - i))
      && (n > 0 ==> Slot(|m.stack| - n) in r.m.log)
  {
    DropAllTouches(m, n);
    assert n > 0 ==> seq(n, i => Slot(|m.stack| - 1 - i))[n - 1] == Slot(|m.stack| - n);
  }

  // ---- One step ----

  /** The access is to the unit's own code and tables, names being strings, and to no slot below `floor`. */
  predicate Inside(c: Chunk, floor: int, a: Access) {
    match a
    case CodeByte(at) => 0 <= at < |c.code|
    case Slot(at) => floor <= at
    case PoolConstant(index) => index < |c.constants|
    case PoolName(index) => index < |c.constants| && c.constants[index].Str?
    case NestedUnit(index) => index < |c.functions|
  }

  ghost predicate AllInside(c: Chunk, floor: int, log: seq<Access>) {
    forall a :: a in log ==> Inside(c, floor, a)
  }

  /** What the row `e` of the table says of a step at `ip`, if the frame goes on. */
  ghost predicate MeetsRow<V>(c: Chunk, ip: int, stack: seq<V>, e: Effect, m: Machine<V>)
    requires InstructionValid(c, ip) && e.pops <= e.need <= |stack|
  {
    var left := |stack| - e.pops;
    && (|| (m.ip == EndOf(c.code, ip) && (e.flow.FallThrough? || e.flow.Branch?) && |m.stack| == left + e.pushes)
        || (m.ip == Target(c.code, ip) && (e.flow.Branch? || e.flow.Jump?) && |m.stack| == left + e.branchPushes))
    && left <= |m.stack| && m.stack[..left] == stack[..left]
  }

  /** The operands that the instruction at `ip` requires are there. */
  predicate Fed<V>(c: Chunk, ip: int, stack: seq<V>) {
    InstructionValid(c, ip) && EffectOf(c.code, ip).pops <= EffectOf(c.code, ip).need <= |stack|
  }

  /** The step does to the stack what the table says, and touches only what it may: of the stack nothing below the
      operands required, but the lowest of these, if the handler looks at all. */
  ghost predicate AsTabled<V>(c: Chunk, base: nat, ip: int, stack: seq<V>, w: World<V>)
    requires Fed(c, ip, stack)
  {
    var e, r := EffectOf(c.code, ip), Step(c, base, ip, stack, w);
    && r.GoesOn? && MeetsRow(c, ip, stack, e, r.m) && AllInside(c, |stack| - e.need, r.m.log)
    && (w.looks && e.need > 0 && c.code[ip] != OP_OBSERVE_ASSIGN ==> Slot(|stack| - e.need) in r.m.log)
  }

  /** The 16-bit operand at `at`. */
  function OperandAt(c: Chunk, at: int): nat {
    CodeAt(c, at) + 256 * CodeAt(c, at + 1)
  }

  /** A valid instruction, in terms of its bytes. */
  lemma Operands(c: Chunk, ip: int)
    requires InstructionValid(c, ip) && c.code[ip] != OP_LINE
    ensures var op := c.code[ip]; var roles := OperandRoles(op);
      && 0 <= ip < |c.code| && CodeAt(c, ip) == op
      && EndOf(c.code, ip) == ip + 1 + 2 * |roles| <= |c.code|
      && (|roles| > 0 ==> OperandValid(c, roles[0], OperandAt(c, ip + 1)))
      && (|roles| > 1 ==> OperandValid(c, roles[1], OperandAt(c, ip + 3)))
      && (|roles| > 2 ==> OperandValid(c, roles[2], OperandAt(c, ip + 5)))
      && EffectOf(c.code, ip) == StackEffect(op, if roles == [] then 0 else OperandAt(c, ip + 1))
      && (roles != [] && roles[|roles| - 1].IsJump() ==>
          Target(c.code, ip)
          == JumpTarget(roles[|roles| - 1], EndOf(c.code, ip), OperandAt(c, ip + 1 + 2 * (|roles| - 1))))
  {
    hide OperandRoles, StackEffect;
    var roles := OperandRoles(c.code[ip]);
    forall k | 0 <= k < |roles| ensures OperandValid(c, roles[k], OperandAt(c, ip + 1 + 2 * k)) {
      assert Operand(c.code, ip, k) == OperandAt(c, ip + 1 + 2 * k);
    }
  }

  predicate Constant(op: Byte) {
    op == OP_NULL || op == OP_NUM_ZERO || op == OP_NUM_ONE || op == OP_LISTCOMP_BEGIN
  }

  lemma ConstantStep<V>(c: Chunk, base: nat, ip: int, stack: seq<V>, w: World<V>)
    requires Fed(c, ip, stack) && Constant(c.code[ip])
    ensures AsTabled(c, base, ip, stack, w)
  {
    hide Combine, InstructionValid, EffectOf, Target, EndOf;
    Operands(c, ip);
    CombineTouches(Machine(ip + 1, stack, [CodeByte(ip)]), 0, w);
  }

  predicate Binary(op: Byte) {
    OP_ADD <= op <= OP_SHR || OP_EQ <= op <= OP_GE || op == OP_INDEX_GET
  }

  lemma BinaryStep<V>(c: Chunk, base: nat, ip: int, stack: seq<V>, w: World<V>)
    requires Fed(c, ip, stack) && Binary(c.code[ip])
    ensures AsTabled(c, base, ip, stack, w)
  {
    hide Combine, InstructionValid, EffectOf, Target, EndOf;
    Operands(c, ip);
    CombineTouches(Machine(ip + 1, stack, [CodeByte(ip)]), 2, w);
  }

  predicate Unary(op: Byte) {
    op == OP_NEG || op == OP_NOT || op == OP_BNOT || op == OP_ITER_SETUP
  }

  lemma UnaryRows(op: Byte, x: nat)
    requires Unary(op)
    ensures OperandRoles(op) == [] && op != OP_LINE
    ensures StackEffect(op, x) == Effect(1, 1, 1, 0, FallThrough)
  {
  }

  lemma UnaryStep<V>(c: Chunk, base: nat, ip: int, stack: seq<V>, w: World<V>)
    requires Fed(c, ip, stack) && Unary(c.code[ip])
    ensures AsTabled(c, base, ip, stack, w)
  {
    hide Combine, InstructionValid, EffectOf, Target, EndOf, OperandRoles, StackEffect;
    Operands(c, ip);
    UnaryRows(c.code[ip], 0);
    CombineTouches(Machine(ip + 1, stack, [CodeByte(ip)]), 1, w);
  }

  predicate Ternary(op: Byte) {
    op == OP_INDEX_SET || op == OP_SLICE_GET || op == OP_DISPATCH
  }

  lemma TernaryStep<V>(c: Chunk, base: nat, ip: int, stack: seq<V>, w: World<V>)
    requires Fed(c, ip, stack) && Ternary(c.code[ip])
    ensures AsTabled(c, base, ip, stack, w)
  {
    hide Combine, InstructionValid, EffectOf, Target, EndOf;
    Operands(c, ip);
    CombineTouches(Machine(ip + 1, stack, [CodeByte(ip)]), 3, w);
  }

  predicate PoolLoad(op: Byte) {
    op == OP_CONST
  }

  lemma PoolLoadStep<V>(c: Chunk, base: nat, ip: int, stack: seq<V>, w: World<V>)
    requires Fed(c, ip, stack) && PoolLoad(c.code[ip])
    ensures AsTabled(c, base, ip, stack, w)
  {
    hide Combine, InstructionValid, EffectOf, Target, EndOf;
    Operands(c, ip);
    var m := Machine(ip + 1, stack, [CodeByte(ip)]);
    var (x0, m1) := m.Operand16(c);
    CombineTouches(m1.Touch(PoolConstant(x0)), 0, w);
  }

  predicate UnitLoad(op: Byte) {
    op == OP_CLOSURE
  }

  lemma UnitLoadStep<V>(c: Chunk, base: nat, ip: int, stack: seq<V>, w: World<V>)
    requires Fed(c, ip, stack) && UnitLoad(c.code[ip])
    ensures AsTabled(c, base, ip, stack, w)
  {
    hide Combine, InstructionValid, EffectOf, Target, EndOf;
    Operands(c, ip);
    var m := Machine(ip + 1, stack, [CodeByte(ip)]);
    var (x0, m1) := m.Operand16(c);
    CombineTouches(m1.Touch(NestedUnit(x0)), 0, w);
  }

  predicate SlotLoad(op: Byte) {
    op == OP_GET_LOCAL || op == OP_MATCH || op == OP_PREDICATE || op == OP_REPORT_SLOT
    || op == OP_REPORT_VALUE_SLOT || op == OP_TRAJECTORY_SLOT || op == OP_OBSERVE_VALUE_SLOT
  }

  lemma SlotLoadRows(op: Byte, x: nat)
    requires SlotLoad(op)
    ensures OperandRoles(op) == [Raw] && op != OP_LINE
    ensures StackEffect(op, x) == Effect(0, 0, 1, 0, FallThrough)
  {
  }

  lemma SlotLoadStep<V>(c: Chunk, base: nat, ip: int, stack: seq<V>, w: World<V>)
    requires Fed(c, ip, stack) && SlotLoad(c.code[ip])
    ensures AsTabled(c, base, ip, stack, w)
  {
    hide Combine, InstructionValid, EffectOf, Target, EndOf, OperandRoles, StackEffect;
    Operands(c, ip);
    SlotLoadRows(c.code[ip], OperandAt(c, ip + 1));
    var m := Machine(ip + 1, stack, [CodeByte(ip)]);
    var (x0, m1) := m.Operand16(c);
    CombineTouches(m1, 0, w);
  }

  predicate NameLoad(op: Byte) {
    op == OP_GET_NAME || op == OP_IMPORT || op == OP_REPORT_NAME || op == OP_REPORT_VALUE_NAME
    || op == OP_TRAJECTORY_NAME || op == OP_OBSERVE_VALUE_NAME
  }

  lemma NameLoadRows(op: Byte, x: nat)
    requires NameLoad(op)
    ensures OperandRoles(op) == [NameIndex] && op != OP_LINE
    ensures StackEffect(op, x) == Effect(0, 0, 1, 0, FallThrough)
  {
  }

  lemma NameLoadStep<V>(c: Chunk, base: nat, ip: int, stack: seq<V>, w: World<V>)
    requires Fed(c, ip, stack) && NameLoad(c.code[ip])
    ensures AsTabled(c, base, ip, stack, w)
  {
    hide Combine, InstructionValid, EffectOf, Target, EndOf, OperandRoles, StackEffect;
    Operands(c, ip);
    NameLoadRows(c.code[ip], OperandAt(c, ip + 1));
    var m := Machine(ip + 1, stack, [CodeByte(ip)]);
    var (x0, m1) := m.Operand16(c);
    CombineTouches(m1.Touch(PoolName(x0)), 0, w);
  }

  predicate SlotStore(op: Byte) {
    op == OP_SET_LOCAL || op == OP_OBSERVE_ASSIGN_LOCAL || op == OP_OBSERVE_ASSIGN
  }

  lemma SlotStoreStep<V>(c: Chunk, base: nat, ip: int, stack: seq<V>, w: World<V>)
    requires Fed(c, ip, stack) && SlotStore(c.code[ip])
    ensures AsTabled(c, base, ip, stack, w)
  {
    hide Combine, InstructionValid, EffectOf, Target, EndOf;
    Operands(c, ip);
  }

  predicate NameStore(op: Byte) {
    op == OP_SET_NAME || op == OP_SET_NAME_LOCAL || op == OP_SET_FN_NAME_LOCAL || op == OP_OBSERVE_NAME_POST
  }

  lemma NameStoreStep<V>(c: Chunk, base: nat, ip: int, stack: seq<V>, w: World<V>)
    requires Fed(c, ip, stack) && NameStore(c.code[ip])
    ensures AsTabled(c, base, ip, stack, w)
  {
    hide Combine, InstructionValid, EffectOf, Target, EndOf;
    Operands(c, ip);
  }

  predicate Jumps(op: Byte) {
    op == OP_JUMP || op == OP_JUMP_BACK
  }

  lemma JumpsStep<V>(c: Chunk, base: nat, ip: int, stack: seq<V>, w: World<V>)
    requires Fed(c, ip, stack) && Jumps(c.code[ip])
    ensures AsTabled(c, base, ip, stack, w)
  {
    hide Combine, InstructionValid, EffectOf, Target, EndOf;
    Operands(c, ip);
  }

  predicate TestPop(op: Byte) {
    op == OP_JUMP_IF_FALSE || op == OP_JUMP_IF_TRUE
  }

  lemma TestPopRows(op: Byte, x: nat)
    requires TestPop(op)
    ensures OperandRoles(op) == [JumpForward] && op != OP_LINE
    ensures StackEffect(op, x) == Effect(1, 1, 0, 0, Branch)
  {
  }

  lemma TestPopStep<V>(c: Chunk, base: nat, ip: int, stack: seq<V>, w: World<V>)
    requires Fed(c, ip, stack) && TestPop(c.code[ip])
    ensures AsTabled(c, base, ip, stack, w)
  {
    hide Combine, InstructionValid, EffectOf, Target, EndOf, OperandRoles, StackEffect;
    Operands(c, ip);
    TestPopRows(c.code[ip], OperandAt(c, ip + 1));
  }

  predicate TestPeek(op: Byte) {
    op == OP_JUMP_IF_FALSE_PEEK || op == OP_JUMP_IF_TRUE_PEEK
  }

  lemma TestPeekRows(op: Byte, x: nat)
    requires TestPeek(op)
    ensures OperandRoles(op) == [JumpForward] && op != OP_LINE
    ensures StackEffect(op, x) == Effect(1, 0, 0, 0, Branch)
  {
  }

  lemma TestPeekStep<V>(c: Chunk, base: nat, ip: int, stack: seq<V>, w: World<V>)
    requires Fed(c, ip, stack) && TestPeek(c.code[ip])
    ensures AsTabled(c, base, ip, stack, w)
  {
    hide Combine, InstructionValid, EffectOf, Target, EndOf, OperandRoles, StackEffect;
    Operands(c, ip);
    TestPeekRows(c.code[ip], OperandAt(c, ip + 1));
  }

  predicate StackOnly(op: Byte) {
    op == OP_POP || op == OP_DUP || op == OP_DUP2
  }

  lemma StackOnlyStep<V>(c: Chunk, base: nat, ip: int, stack: seq<V>, w: World<V>)
    requires Fed(c, ip, stack) && StackOnly(c.code[ip])
    ensures AsTabled(c, base, ip, stack, w)
  {
    hide Combine, InstructionValid, EffectOf, Target, EndOf;
    Operands(c, ip);
  }

  predicate CallOp(op: Byte) {
    op == OP_CALL
  }

  lemma CallOpStep<V>(c: Chunk, base: nat, ip: int, stack: seq<V>, w: World<V>)
    requires Fed(c, ip, stack) && CallOp(c.code[ip])
    ensures AsTabled(c, base, ip, stack, w)
  {
    hide Combine, InstructionValid, EffectOf, Target, EndOf;
    Operands(c, ip);
    var m := Machine(ip + 1, stack, [CodeByte(ip)]);
    var (x0, m1) := m.Operand16(c);
    CombineTouches(m1, x0 + 1, w);
  }

  predicate Collect(op: Byte) {
    op == OP_LIST
  }

  lemma CollectStep<V>(c: Chunk, base: nat, ip: int, stack: seq<V>, w: World<V>)
    requires Fed(c, ip, stack) && Collect(c.code[ip])
    ensures AsTabled(c, base, ip, stack, w)
  {
    hide Combine, InstructionValid, EffectOf, Target, EndOf;
    Operands(c, ip);
    var m := Machine(ip + 1, stack, [CodeByte(ip)]);
    var (x0, m1) := m.Operand16(c);
    CombineTouches(m1, x0, w);
  }

  predicate CollectPairs(op: Byte) {
    op == OP_DICT
  }

  lemma CollectPairsStep<V>(c: Chunk, base: nat, ip: int, stack: seq<V>, w: World<V>)
    requires Fed(c, ip, stack) && CollectPairs(c.code[ip])
    ensures AsTabled(c, base, ip, stack, w)
  {
    hide Combine, InstructionValid, EffectOf, Target, EndOf;
    Operands(c, ip);
    var m := Machine(ip + 1, stack, [CodeByte(ip)]);
    var (x0, m1) := m.Operand16(c);
    CombineTouches(m1, 2 * x0, w);
  }

  predicate DotGet(op: Byte) {
    op == OP_DOT_GET
  }

  lemma DotGetStep<V>(c: Chunk, base: nat, ip: int, stack: seq<V>, w: World<V>)
    requires Fed(c, ip, stack) && DotGet(c.code[ip])
    ensures AsTabled(c, base, ip, stack, w)
  {
    hide Combine, InstructionValid, EffectOf, Target, EndOf;
    Operands(c, ip);
    var m := Machine(ip + 1, stack, [CodeByte(ip)]);
    var (x0, m1) := m.Operand16(c);
    CombineTouches(m1.Touch(PoolName(x0)), 1, w);
  }

  predicate DotSet(op: Byte) {
    op == OP_DOT_SET
  }

  lemma DotSetStep<V>(c: Chunk, base: nat, ip: int, stack: seq<V>, w: World<V>)
    requires Fed(c, ip, stack) && DotSet(c.code[ip])
    ensures AsTabled(c, base, ip, stack, w)
  {
    hide Combine, InstructionValid, EffectOf, Target, EndOf;
    Operands(c, ip);
    var m := Machine(ip + 1, stack, [CodeByte(ip)]);
    var (x0, m1) := m.Operand16(c);
    CombineTouches(m1.Touch(PoolName(x0)), 2, w);
  }

  predicate FieldLoad(op: Byte) {
    op == OP_LOCAL_DOT_GET || op == OP_PREDICATE_NAME
  }

  lemma FieldLoadRows(op: Byte, x: nat)
    requires FieldLoad(op)
    ensures OperandRoles(op) == [Raw, NameIndex] && op != OP_LINE
    ensures StackEffect(op, x) == Effect(0, 0, 1, 0, FallThrough)
  {
  }

  lemma FieldLoadStep<V>(c: Chunk, base: nat, ip: int, stack: seq<V>, w: World<V>)
    requires Fed(c, ip, stack) && FieldLoad(c.code[ip])
    ensures AsTabled(c, base, ip, stack, w)
  {
    hide Combine, InstructionValid, EffectOf, Target, EndOf, OperandRoles, StackEffect;
    Operands(c, ip);
    FieldLoadRows(c.code[ip], OperandAt(c, ip + 1));
    var m := Machine(ip + 1, stack, [CodeByte(ip)]);
    var (x0, m1) := m.Operand16(c);
    var (x1, m2) := m1.Operand16(c);
    CombineTouches(if w.looks then m2.Touch(PoolName(x1)) else m2, 0, w);
  }

  predicate FieldStore(op: Byte) {
    op == OP_LOCAL_DOT_SET
  }

  lemma FieldStoreStep<V>(c: Chunk, base: nat, ip: int, stack: seq<V>, w: World<V>)
    requires Fed(c, ip, stack) && FieldStore(c.code[ip])
    ensures AsTabled(c, base, ip, stack, w)
  {
    hide Combine, InstructionValid, EffectOf, Target, EndOf;
    Operands(c, ip);
  }

  predicate ElementLoad(op: Byte) {
    op == OP_LOCAL_IDX_GET || op == OP_PREDICATE_SLOT
  }

  lemma ElementLoadRows(op: Byte, x: nat)
    requires ElementLoad(op)
    ensures OperandRoles(op) == [Raw, Raw] && op != OP_LINE
    ensures StackEffect(op, x) == Effect(0, 0, 1, 0, FallThrough)
  {
  }

  lemma ElementLoadStep<V>(c: Chunk, base: nat, ip: int, stack: seq<V>, w: World<V>)
    requires Fed(c, ip, stack) && ElementLoad(c.code[ip])
    ensures AsTabled(c, base, ip, stack, w)
  {
    hide Combine, InstructionValid, EffectOf, Target, EndOf, OperandRoles, StackEffect;
    Operands(c, ip);
    ElementLoadRows(c.code[ip], OperandAt(c, ip + 1));
    var m := Machine(ip + 1, stack, [CodeByte(ip)]);
    var (x0, m1) := m.Operand16(c);
    var (x1, m2) := m1.Operand16(c);
    CombineTouches(m2, 0, w);
  }

  predicate ElementFieldLoad(op: Byte) {
    op == OP_LOCAL_IDX_DOT_GET
  }

  lemma ElementFieldLoadStep<V>(c: Chunk, base: nat, ip: int, stack: seq<V>, w: World<V>)
    requires Fed(c, ip, stack) && ElementFieldLoad(c.code[ip])
    ensures AsTabled(c, base, ip, stack, w)
  {
    hide Combine, InstructionValid, EffectOf, Target, EndOf;
    Operands(c, ip);
    var m := Machine(ip + 1, stack, [CodeByte(ip)]);
    var (x0, m1) := m.Operand16(c);
    var (x1, m2) := m1.Operand16(c);
    var (x2, m3) := m2.Operand16(c);
    CombineTouches(if w.looks then m3.Touch(PoolName(x2)) else m3, 0, w);
  }

  predicate ElementFieldStore(op: Byte) {
    op == OP_LOCAL_IDX_DOT_SET
  }

  lemma ElementFieldStoreStep<V>(c: Chunk, base: nat, ip: int, stack: seq<V>, w: World<V>)
    requires Fed(c, ip, stack) && ElementFieldStore(c.code[ip])
    ensures AsTabled(c, base, ip, stack, w)
  {
    hide Combine, InstructionValid, EffectOf, Target, EndOf;
    Operands(c, ip);
  }

  predicate IterNext(op: Byte) {
    op == OP_ITER_NEXT
  }

  lemma IterNextStep<V>(c: Chunk, base: nat, ip: int, stack: seq<V>, w: World<V>)
    requires Fed(c, ip, stack) && IterNext(c.code[ip])
    ensures AsTabled(c, base, ip, stack, w)
  {
    hide Combine, InstructionValid, EffectOf, Target, EndOf;
    Operands(c, ip);
  }

  predicate MayLeave(op: Byte) {
    op == OP_TRY_BEGIN || op == OP_DEFAULT_PARAM || op == OP_LOOP_STALL_CHECK || op == OP_LOOP_CAP_CHECK
  }

  lemma MayLeaveRows(op: Byte, x: nat)
    requires MayLeave(op)
    ensures OperandRoles(op) == (if op == OP_DEFAULT_PARAM then [Raw, JumpForward] else [JumpForward]) && op != OP_LINE
    ensures StackEffect(op, x) == Effect(0, 0, 0, if op == OP_TRY_BEGIN then 1 else 0, Branch)
  {
  }

  lemma MayLeaveStep<V>(c: Chunk, base: nat, ip: int, stack: seq<V>, w: World<V>)
    requires Fed(c, ip, stack) && MayLeave(c.code[ip])
    ensures AsTabled(c, base, ip, stack, w)
  {
    hide Combine, InstructionValid, EffectOf, Target, EndOf, OperandRoles, StackEffect;
    Operands(c, ip);
    MayLeaveRows(CodeAt(c, ip), OperandAt(c, ip + 1));
  }

  predicate Interrogate(op: Byte) {
    op == OP_INTERROGATE
  }

  lemma InterrogateStep<V>(c: Chunk, base: nat, ip: int, stack: seq<V>, w: World<V>)
    requires Fed(c, ip, stack) && Interrogate(c.code[ip])
    ensures AsTabled(c, base, ip, stack, w)
  {
    hide Combine, InstructionValid, EffectOf, Target, EndOf;
    Operands(c, ip);
    var m := Machine(ip + 1, stack, [CodeByte(ip)]);
    var (x0, m1) := m.Operand16(c);
    CombineTouches(m1, 1, w);
  }

  predicate InterrogateName(op: Byte) {
    op == OP_INTERROGATE_NAMED || op == OP_INTERROGATE_NAMED_AT || op == OP_INTERROGATE_NAMED_WHEN
  }

  lemma InterrogateNameRows(op: Byte, x: nat)
    requires InterrogateName(op)
    ensures OperandRoles(op) == [Raw, NameIndex] && op != OP_LINE
    ensures StackEffect(op, x) == Effect(1, 1, 1, 0, FallThrough)
  {
  }

  lemma InterrogateNameStep<V>(c: Chunk, base: nat, ip: int, stack: seq<V>, w: World<V>)
    requires Fed(c, ip, stack) && InterrogateName(c.code[ip])
    ensures AsTabled(c, base, ip, stack, w)
  {
    hide Combine, InstructionValid, EffectOf, Target, EndOf, OperandRoles, StackEffect;
    Operands(c, ip);
    InterrogateNameRows(c.code[ip], OperandAt(c, ip + 1));
    var m := Machine(ip + 1, stack, [CodeByte(ip)]);
    var (x0, m1) := m.Operand16(c);
    var (x1, m2) := m1.Operand16(c);
    CombineTouches(m2.Touch(PoolName(x1)), 1, w);
  }

  predicate Destructure(op: Byte) {
    op == OP_DESTRUCTURE_UNPACK
  }

  lemma DestructureStep<V>(c: Chunk, base: nat, ip: int, stack: seq<V>, w: World<V>)
    requires Fed(c, ip, stack) && Destructure(c.code[ip])
    ensures AsTabled(c, base, ip, stack, w)
  {
    hide Combine, InstructionValid, EffectOf, Target, EndOf;
    Operands(c, ip);
    var m := Machine(ip + 1, stack, [CodeByte(ip)]);
    var (x0, m1) := m.Operand16(c);
    UnpackPushes(m1.Drop(), m1.Peek(0, w), x0, w);
  }

  predicate Neutral(op: Byte) {
    OP_LOOP_ENV_FRESH <= op <= OP_CONTINUE || op == OP_LOOP_ENV_CLEAR || op == OP_TRY_END || op == OP_WIDE
    || OP_UNOBSERVED_BEGIN <= op <= OP_UNOBSERVED_END
  }

  lemma NeutralRows(op: Byte, x: nat)
    requires Neutral(op)
    ensures OperandRoles(op) == [] && op != OP_LINE
    ensures StackEffect(op, x) == Effect(0, 0, 0, 0, FallThrough)
  {
  }

  lemma NeutralStep<V>(c: Chunk, base: nat, ip: int, stack: seq<V>, w: World<V>)
    requires Fed(c, ip, stack) && Neutral(c.code[ip])
    ensures AsTabled(c, base, ip, stack, w)
  {
    hide Combine, InstructionValid, EffectOf, Target, EndOf, OperandRoles, StackEffect;
    Operands(c, ip);
    NeutralRows(c.code[ip], 0);
  }

  lemma LineStep<V>(c: Chunk, base: nat, ip: int, stack: seq<V>, w: World<V>)
    requires Fed(c, ip, stack) && c.code[ip] == OP_LINE
    ensures AsTabled(c, base, ip, stack, w)
  {
  }

  /** Every instruction but OP_LISTCOMP_APPEND and the returns does what its row says. */
  lemma StepAsTabled<V>(c: Chunk, base: nat, ip: int, stack: seq<V>, w: World<V>)
    requires Fed(c, ip, stack) && c.code[ip] != OP_LISTCOMP_APPEND
    requires c.code[ip] != OP_RETURN && c.code[ip] != OP_RETURN_NULL
    ensures AsTabled(c, base, ip, stack, w)
  {
    hide StackEffect, OperandRoles, AsTabled;
    var op := c.code[ip];
    if Constant(op) {
      ConstantStep(c, base, ip, stack, w);
    } else if Binary(op) {
      BinaryStep(c, base, ip, stack, w);
    } else if Unary(op) {
      UnaryStep(c, base, ip, stack, w);
    } else if Ternary(op) {
      TernaryStep(c, base, ip, stack, w);
    } else if PoolLoad(op) {
      PoolLoadStep(c, base, ip, stack, w);
    } else if UnitLoad(op) {
      UnitLoadStep(c, base, ip, stack, w);
    } else if SlotLoad(op) {
      SlotLoadStep(c, base, ip, stack, w);
    } else if NameLoad(op) {
      NameLoadStep(c, base, ip, stack, w);
    } else if SlotStore(op) {
      SlotStoreStep(c, base, ip, stack, w);
    } else if NameStore(op) {
      NameStoreStep(c, base, ip, stack, w);
    } else if Jumps(op) {
      JumpsStep(c, base, ip, stack, w);
    } else if TestPop(op) {
      TestPopStep(c, base, ip, stack, w);
    } else if TestPeek(op) {
      TestPeekStep(c, base, ip, stack, w);
    } else if StackOnly(op) {
      StackOnlyStep(c, base, ip, stack, w);
    } else if CallOp(op) {
      CallOpStep(c, base, ip, stack, w);
    } else if Collect(op) {
      CollectStep(c, base, ip, stack, w);
    } else if CollectPairs(op) {
      CollectPairsStep(c, base, ip, stack, w);
    } else if DotGet(op) {
      DotGetStep(c, base, ip, stack, w);
    } else if DotSet(op) {
      DotSetStep(c, base, ip, stack, w);
    } else if FieldLoad(op) {
      FieldLoadStep(c, base, ip, stack, w);
    } else if FieldStore(op) {
      FieldStoreStep(c, base, ip, stack, w);
    } else if ElementLoad(op) {
      ElementLoadStep(c, base, ip, stack, w);
    } else if ElementFieldLoad(op) {
      ElementFieldLoadStep(c, base, ip, stack, w);
    } else if ElementFieldStore(op) {
      ElementFieldStoreStep(c, base, ip, stack, w);
    } else if IterNext(op) {
      IterNextStep(c, base, ip, stack, w);
    } else if MayLeave(op) {
      MayLeaveStep(c, base, ip, stack, w);
    } else if Interrogate(op) {
      InterrogateStep(c, base, ip, stack, w);
    } else if InterrogateName(op) {
      InterrogateNameStep(c, base, ip, stack, w);
    } else if Destructure(op) {
      DestructureStep(c, base, ip, stack, w);
    } else if Neutral(op) {
      NeutralStep(c, base, ip, stack, w);
    } else {
      LineStep(c, base, ip, stack, w);
    }
  }

  /** OP_LISTCOMP_APPEND requires two operands, but looks one deeper if there is anything: at the list that the item is
      appended to. */
  lemma AppendLooksDeeper<V>(c: Chunk, base: nat, ip: int, stack: seq<V>, w: World<V>)
    requires Fed(c, ip, stack) && c.code[ip] == OP_LISTCOMP_APPEND
    ensures var e, r := EffectOf(c.code, ip), Step(c, base, ip, stack, w);
      && e.need == 2 && r.GoesOn? && MeetsRow(c, ip, stack, e, r.m)
      && AllInside(c, |stack| - 3, r.m.log)
      && (Slot(|stack| - 3) in r.m.log <==> |stack| >= 3)
  {
    hide InstructionValid, EffectOf, Target, EndOf;
    Operands(c, ip);
  }

  lemma ReturnHandled<V>(c: Chunk, base: nat, ip: int, stack: seq<V>, w: World<V>)
    requires InstructionValid(c, ip) && (c.code[ip] == OP_RETURN || c.code[ip] == OP_RETURN_NULL)
    ensures var m := Machine(ip + 1, stack, [CodeByte(ip)]);
      Step(c, base, ip, stack, w)
      == Returns((if c.code[ip] == OP_RETURN && |stack| > base then m.Drop() else m).DrainTo(base))
  {
    hide EffectOf;
  }

  /** A return looks at nothing below its frame's window, and leaves the window empty. */
  lemma ReturnDrains<V>(c: Chunk, base: nat, ip: int, stack: seq<V>, w: World<V>)
    requires InstructionValid(c, ip) && base <= |stack| && (c.code[ip] == OP_RETURN || c.code[ip] == OP_RETURN_NULL)
    ensures var r := Step(c, base, ip, stack, w);
      r.Returns? && r.m.stack == stack[..base] && AllInside(c, base, r.m.log)
  {
    hide Step, EffectOf;
    var m := Machine(ip + 1, stack, [CodeByte(ip)]);
    ReturnHandled(c, base, ip, stack, w);
    DrainTouches(m, base);
    if |stack| > base {
      DrainTouches(m.Drop(), base);
    }
  }

  // ---- Both edges of a branch are taken ----

  /** A world in which a branching handler leaves by its jump if `taken`, and all values are `v`. */
  function Deciding<V>(op: Byte, v: V, taken: bool): World<V> {
    var onTrue := op == OP_JUMP_IF_TRUE || op == OP_JUMP_IF_TRUE_PEEK;
    World(_ => v, (_, _) => v, _ => onTrue == taken, _ => taken, true, taken)
  }

  /** The step takes the edge asked for. */
  ghost predicate Takes<V>(c: Chunk, base: nat, ip: int, stack: seq<V>, v: V, taken: bool)
    requires Fed(c, ip, stack)
  {
    var e, r := EffectOf(c.code, ip), Step(c, base, ip, stack, Deciding(c.code[ip], v, taken));
    && r.GoesOn? && r.m.ip == (if taken then Target(c.code, ip) else EndOf(c.code, ip))
    && |r.m.stack| == |stack| - e.pops + if taken then e.branchPushes else e.pushes
  }

  lemma TestTakes<V>(c: Chunk, base: nat, ip: int, stack: seq<V>, v: V, taken: bool)
    requires Fed(c, ip, stack) && (TestPop(c.code[ip]) || TestPeek(c.code[ip]))
    ensures Takes(c, base, ip, stack, v, taken)
  {
    hide InstructionValid, EffectOf, Target, EndOf, OperandRoles, StackEffect;
    Operands(c, ip);
    if TestPop(CodeAt(c, ip)) {
      TestPopRows(CodeAt(c, ip), OperandAt(c, ip + 1));
    } else {
      TestPeekRows(CodeAt(c, ip), OperandAt(c, ip + 1));
    }
  }

  lemma IterTakes<V>(c: Chunk, base: nat, ip: int, stack: seq<V>, v: V, taken: bool)
    requires Fed(c, ip, stack) && IterNext(c.code[ip])
    ensures Takes(c, base, ip, stack, v, taken)
  {
    hide InstructionValid, EffectOf, Target, EndOf;
    Operands(c, ip);
  }

  lemma LeaveTakes<V>(c: Chunk, base: nat, ip: int, stack: seq<V>, v: V, taken: bool)
    requires Fed(c, ip, stack) && MayLeave(c.code[ip])
    ensures Takes(c, base, ip, stack, v, taken)
  {
    hide InstructionValid, EffectOf, Target, EndOf, OperandRoles, StackEffect;
    Operands(c, ip);
    MayLeaveRows(CodeAt(c, ip), OperandAt(c, ip + 1));
  }

  lemma Branches(op: Byte, x: nat)
    requires StackEffect(op, x).flow.Branch?
    ensures TestPop(op) || TestPeek(op) || IterNext(op) || MayLeave(op)
  {
  }

  lemma BranchTakes<V>(c: Chunk, base: nat, ip: int, stack: seq<V>, v: V, taken: bool)
    requires Fed(c, ip, stack) && EffectOf(c.code, ip).flow.Branch?
    ensures Takes(c, base, ip, stack, v, taken)
  {
    hide OperandRoles, StackEffect, Takes, TestPop, TestPeek, IterNext, MayLeave;
    Branches(c.code[ip], if c.code[ip] == OP_LINE || OperandRoles(c.code[ip]) == [] then 0 else Operand(c.code, ip, 0));
    if TestPop(c.code[ip]) || TestPeek(c.code[ip]) {
      TestTakes(c, base, ip, stack, v, taken);
    } else if IterNext(c.code[ip]) {
      IterTakes(c, base, ip, stack, v, taken);
    } else {
      LeaveTakes(c, base, ip, stack, v, taken);
    }
  }
}
