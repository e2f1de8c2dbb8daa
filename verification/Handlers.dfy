/** The interpreter's instruction handlers, on stacks of values: what each reads, pops and pushes, and where it goes on.
    Nothing here refers to the verifier's tables; `Frames` compares the two. */
module Handlers {
  import opened Basics
  import opened Bytes
  import opened Opcodes
  import opened Bytecode

  /** What a handler touches: a byte of code, a slot of the operand stack, read or overwritten, or an entry of one of
      the unit's tables. */
  datatype Access =
    | CodeByte(at: int)
    | Slot(at: int)
    | PoolConstant(index: nat)
    | PoolName(index: nat)
    | NestedUnit(index: nat)

  /** All that decides a step beside code and stack: the values that handlers make, out of those they have read or of
      parts of one, how they classify values, and whether they look at the top of the stack and leave by their jump,
      where this depends on variables, counters or errors. */
  datatype World<!V> = World(
    made: seq<V> -> V,
    part: (V, nat) -> V,
    truthy: V -> bool,
    exhausted: V -> bool,
    looks: bool,
    leaves: bool)

  /** The interpreter inside a frame: the next byte of code, the whole operand stack, those of callers included, and
      everything the current step has touched. */
  datatype Machine<V> = Machine(ip: int, stack: seq<V>, log: seq<Access>) {
    function Touch(a: Access): Machine<V> {
      this.(log := log + [a])
    }

    /** The value `k` below the top. */
    function Peek(k: nat, w: World<V>): V {
      if k < |stack| then stack[|stack| - 1 - k] else w.made([])
    }

    function Look(k: nat): Machine<V> {
      Touch(Slot(|stack| - 1 - k))
    }

    function Drop(): Machine<V> {
      this.(stack := if stack == [] then [] else stack[..|stack| - 1], log := log + [Slot(|stack| - 1)])
    }

    function DropAll(n: nat): Machine<V>
      decreases n
    {
      if n == 0 then this else Drop().DropAll(n - 1)
    }

    /** Empties the frame whose window starts at `base`. */
    function DrainTo(base: nat): Machine<V>
      decreases |stack|
    {
      if |stack| > base then Drop().DrainTo(base) else this
    }

    function Push(v: V): Machine<V> {
      this.(stack := stack + [v])
    }

    /** `read_u16`, and the advance past it. */
    function Operand16(c: Chunk): (nat, Machine<V>) {
      (CodeAt(c, ip) + 256 * CodeAt(c, ip + 1),
       this.(ip := ip + 2, log := log + [CodeByte(ip), CodeByte(ip + 1)]))
    }

    /** The `n` topmost values, the topmost last. */
    function Topmost(n: nat, w: World<V>): seq<V> {
      seq(n, i requires 0 <= i < n => Peek(n - 1 - i, w))
    }
  }

  function CodeAt(c: Chunk, at: int): Byte {
    if 0 <= at < |c.code| then c.code[at] else 0
  }

  /** After a step: the frame goes on, or is left. */
  datatype Outcome<V> = GoesOn(m: Machine<V>) | Returns(m: Machine<V>)

  /** `n` values are read and popped, and what they make is pushed. */
  function Combine<V>(m: Machine<V>, n: nat, w: World<V>): Outcome<V> {
    GoesOn(m.DropAll(n).Push(w.made(m.Topmost(n, w))))
  }

  function LookIf<V>(m: Machine<V>, looks: bool): Machine<V> {
    if looks then m.Look(0) else m
  }

  function Skip<V>(m: Machine<V>, skips: bool, offset: int): Machine<V> {
    if skips then m.(ip := m.ip + offset) else m
  }

  /** The elements `n - 1` down to 0 of a list, so that the first ends up on top. */
  function Unpack<V>(m: Machine<V>, list: V, n: nat, w: World<V>): Machine<V>
    decreases n
  {
    if n == 0 then m else Unpack(m.Push(w.part(list, n - 1)), list, n - 1, w)
  }

  /** The handler of `op`, from just behind the opcode byte, in a frame whose window starts at `base`. A call, of a
      function or a builtin, is one step: what runs in between has its own frame and leaves one value. */
  function Handle<V>(c: Chunk, base: nat, op: Byte, m: Machine<V>, w: World<V>): Outcome<V> {
    if op == OP_CONST then
      var (index, m1) := m.Operand16(c);
      Combine(m1.Touch(PoolConstant(index)), 0, w)
    else if op == OP_NULL || op == OP_NUM_ZERO || op == OP_NUM_ONE || op == OP_LISTCOMP_BEGIN then
      Combine(m, 0, w)
    else if
      || op == OP_ADD || op == OP_SUB || op == OP_MUL || op == OP_DIV || op == OP_MOD
      || op == OP_BAND || op == OP_BOR || op == OP_BXOR || op == OP_SHL || op == OP_SHR
      || op == OP_EQ || op == OP_NE || op == OP_LT || op == OP_GT || op == OP_LE || op == OP_GE
      || op == OP_INDEX_GET
    then
      Combine(m, 2, w)
    else if op == OP_NEG || op == OP_NOT || op == OP_BNOT || op == OP_ITER_SETUP then
      Combine(m, 1, w)
    else if op == OP_GET_LOCAL || op == OP_MATCH || op == OP_PREDICATE || op == OP_REPORT_SLOT
      || op == OP_REPORT_VALUE_SLOT || op == OP_TRAJECTORY_SLOT || op == OP_OBSERVE_VALUE_SLOT
    then
      var (_, m1) := m.Operand16(c);
      Combine(m1, 0, w)
    else if op == OP_SET_LOCAL || op == OP_OBSERVE_ASSIGN_LOCAL then
      var (_, m1) := m.Operand16(c);
      GoesOn(LookIf(m1, w.looks))
    else if op == OP_GET_NAME || op == OP_IMPORT || op == OP_REPORT_NAME || op == OP_REPORT_VALUE_NAME
      || op == OP_TRAJECTORY_NAME || op == OP_OBSERVE_VALUE_NAME
    then
      var (index, m1) := m.Operand16(c);
      Combine(m1.Touch(PoolName(index)), 0, w)
    else if op == OP_SET_NAME || op == OP_SET_NAME_LOCAL || op == OP_SET_FN_NAME_LOCAL then
      var (index, m1) := m.Operand16(c);
      GoesOn(m1.Touch(PoolName(index)).Look(0))
    else if op == OP_OBSERVE_NAME_POST then
      var (index, m1) := m.Operand16(c);
      GoesOn(LookIf(m1.Touch(PoolName(index)), w.looks))
    else if op == OP_OBSERVE_ASSIGN then
      GoesOn(m.(ip := m.ip + 2))
    else if op == OP_JUMP then
      var (offset, m1) := m.Operand16(c);
      GoesOn(Skip(m1, true, offset))
    else if op == OP_JUMP_BACK then
      var (offset, m1) := m.Operand16(c);
      GoesOn(Skip(m1, true, 0 - offset))
    else if op == OP_JUMP_IF_FALSE then
      var (offset, m1) := m.Operand16(c);
      GoesOn(Skip(m1.Drop(), !w.truthy(m1.Peek(0, w)), offset))
    else if op == OP_JUMP_IF_TRUE then
      var (offset, m1) := m.Operand16(c);
      GoesOn(Skip(m1.Drop(), w.truthy(m1.Peek(0, w)), offset))
    else if op == OP_JUMP_IF_FALSE_PEEK then
      var (offset, m1) := m.Operand16(c);
      GoesOn(Skip(m1.Look(0), !w.truthy(m1.Peek(0, w)), offset))
    else if op == OP_JUMP_IF_TRUE_PEEK then
      var (offset, m1) := m.Operand16(c);
      GoesOn(Skip(m1.Look(0), w.truthy(m1.Peek(0, w)), offset))
    else if op == OP_POP then
      GoesOn(m.Drop())
    else if op == OP_DUP then
      GoesOn(m.Look(0).Push(m.Peek(0, w)))
    else if op == OP_DUP2 then
      GoesOn(m.Look(1).Look(0).Push(m.Peek(1, w)).Push(m.Peek(0, w)))
    else if op == OP_CLOSURE then
      var (index, m1) := m.Operand16(c);
      Combine(m1.Touch(NestedUnit(index)), 0, w)
    else if op == OP_CALL then
      var (argc, m1) := m.Operand16(c);
      Combine(m1, if |m1.stack| < argc + 1 then 0 else argc + 1, w)
    else if op == OP_RETURN then
      Returns((if |m.stack| > base then m.Drop() else m).DrainTo(base))
    else if op == OP_RETURN_NULL then
      Returns(m.DrainTo(base))
    else if op == OP_LIST then
      var (count, m1) := m.Operand16(c);
      Combine(m1, Min(count, |m1.stack|), w)
    else if op == OP_DICT then
      var (count, m1) := m.Operand16(c);
      Combine(m1, Min(2 * count, |m1.stack|), w)
    else if op == OP_INDEX_SET || op == OP_SLICE_GET || op == OP_DISPATCH then
      Combine(m, 3, w)
    else if op == OP_DOT_GET then
      var (index, m1) := m.Operand16(c);
      Combine(m1.Touch(PoolName(index)), 1, w)
    else if op == OP_DOT_SET then
      var (index, m1) := m.Operand16(c);
      Combine(m1.Touch(PoolName(index)), 2, w)
    else if op == OP_LOCAL_DOT_GET || op == OP_PREDICATE_NAME then
      var (_, m1) := m.Operand16(c);
      var (index, m2) := m1.Operand16(c);
      Combine(if w.looks then m2.Touch(PoolName(index)) else m2, 0, w)
    else if op == OP_LOCAL_DOT_SET then
      var (_, m1) := m.Operand16(c);
      var (index, m2) := m1.Operand16(c);
      GoesOn(if w.looks then m2.Touch(PoolName(index)).Look(0) else m2)
    else if op == OP_LOCAL_IDX_GET || op == OP_PREDICATE_SLOT then
      var (_, m1) := m.Operand16(c);
      var (_, m2) := m1.Operand16(c);
      Combine(m2, 0, w)
    else if op == OP_LOCAL_IDX_DOT_GET then
      var (_, m1) := m.Operand16(c);
      var (_, m2) := m1.Operand16(c);
      var (index, m3) := m2.Operand16(c);
      Combine(if w.looks then m3.Touch(PoolName(index)) else m3, 0, w)
    else if op == OP_LOCAL_IDX_DOT_SET then
      var (_, m1) := m.Operand16(c);
      var (_, m2) := m1.Operand16(c);
      var (index, m3) := m2.Operand16(c);
      GoesOn(if w.looks then m3.Touch(PoolName(index)).Look(0) else m3)
    else if op == OP_ITER_NEXT then
      var (offset, m1) := m.Operand16(c);
      var state := m1.Peek(0, w);
      GoesOn(if w.exhausted(state) then Skip(m1.Look(0), true, offset) else m1.Look(0).Push(w.part(state, 0)))
    else if op == OP_TRY_BEGIN then
      // The handler is registered; or it is already here that an error, raised at this height, has unwound to it.
      var (offset, m1) := m.Operand16(c);
      GoesOn(if w.leaves then Skip(m1, true, offset).Push(w.made([])) else m1)
    else if op == OP_INTERROGATE then
      var (_, m1) := m.Operand16(c);
      Combine(m1, 1, w)
    else if op == OP_INTERROGATE_NAMED || op == OP_INTERROGATE_NAMED_AT || op == OP_INTERROGATE_NAMED_WHEN then
      var (_, m1) := m.Operand16(c);
      var (index, m2) := m1.Operand16(c);
      Combine(m2.Touch(PoolName(index)), 1, w)
    else if op == OP_DEFAULT_PARAM then
      var (_, m1) := m.Operand16(c);
      var (offset, m2) := m1.Operand16(c);
      GoesOn(Skip(m2, w.leaves, offset))
    else if op == OP_DESTRUCTURE_UNPACK then
      var (n, m1) := m.Operand16(c);
      GoesOn(Unpack(m1.Drop(), m1.Peek(0, w), n, w))
    else if op == OP_LOOP_STALL_CHECK || op == OP_LOOP_CAP_CHECK then
      var (offset, m1) := m.Operand16(c);
      GoesOn(Skip(m1, w.leaves, offset))
    else if op == OP_LISTCOMP_APPEND then
      // The item is popped, and appended to the list two below the top that is left.
      var m1 := m.Drop();
      GoesOn(if |m1.stack| >= 2 then m1.Look(1) else m1)
    else if op == OP_LINE then
      GoesOn(m.(ip := m.ip + 4,
                log := m.log + [CodeByte(m.ip), CodeByte(m.ip + 1), CodeByte(m.ip + 2), CodeByte(m.ip + 3)]))
    else
      // OP_LOOP_ENV_FRESH, OP_LOOP_ENV_END, OP_LOOP_ENV_CLEAR, OP_BREAK, OP_CONTINUE, OP_TRY_END, OP_UNOBSERVED_BEGIN,
      // OP_UNOBSERVED_END and OP_WIDE
      GoesOn(m)
  }

  /** One step of the interpreter: fetch the opcode, and handle it. */
  function Step<V>(c: Chunk, base: nat, ip: int, stack: seq<V>, w: World<V>): Outcome<V> {
    Handle(c, base, CodeAt(c, ip), Machine(ip + 1, stack, [CodeByte(ip)]), w)
  }
}
