/** The instruction set as the bytecode verifier sees it: opcode numbers, the operand
    layout of each opcode, and its effect on the operand stack. */
module Opcodes {
  import opened Bytes

  const OP_CONST: nat := 0
  const OP_NULL: nat := 1
  const OP_NUM_ZERO: nat := 2
  const OP_NUM_ONE: nat := 3
  const OP_ADD: nat := 4
  const OP_SUB: nat := 5
  const OP_MUL: nat := 6
  const OP_DIV: nat := 7
  const OP_MOD: nat := 8
  const OP_BAND: nat := 9
  const OP_BOR: nat := 10
  const OP_BXOR: nat := 11
  const OP_SHL: nat := 12
  const OP_SHR: nat := 13
  const OP_NEG: nat := 14
  const OP_NOT: nat := 15
  const OP_BNOT: nat := 16
  const OP_EQ: nat := 17
  const OP_NE: nat := 18
  const OP_LT: nat := 19
  const OP_GT: nat := 20
  const OP_LE: nat := 21
  const OP_GE: nat := 22
  const OP_GET_LOCAL: nat := 23
  const OP_SET_LOCAL: nat := 24
  const OP_GET_NAME: nat := 25
  const OP_SET_NAME: nat := 26
  const OP_SET_NAME_LOCAL: nat := 27
  const OP_SET_FN_NAME_LOCAL: nat := 28
  const OP_JUMP: nat := 29
  const OP_JUMP_BACK: nat := 30
  const OP_JUMP_IF_FALSE: nat := 31
  const OP_JUMP_IF_TRUE: nat := 32
  const OP_JUMP_IF_FALSE_PEEK: nat := 33
  const OP_JUMP_IF_TRUE_PEEK: nat := 34
  const OP_POP: nat := 35
  const OP_DUP: nat := 36
  const OP_DUP2: nat := 37
  const OP_CLOSURE: nat := 38
  const OP_CALL: nat := 39
  const OP_RETURN: nat := 40
  const OP_RETURN_NULL: nat := 41
  const OP_LIST: nat := 42
  const OP_DICT: nat := 43
  const OP_INDEX_GET: nat := 44
  const OP_INDEX_SET: nat := 45
  const OP_DOT_GET: nat := 46
  const OP_DOT_SET: nat := 47
  const OP_ITER_SETUP: nat := 48
  const OP_ITER_NEXT: nat := 49
  const OP_LOOP_ENV_FRESH: nat := 50
  const OP_LOOP_ENV_END: nat := 51
  const OP_BREAK: nat := 52
  const OP_CONTINUE: nat := 53
  const OP_TRY_BEGIN: nat := 54
  const OP_TRY_END: nat := 55
  const OP_OBSERVE_ASSIGN: nat := 56
  const OP_OBSERVE_ASSIGN_LOCAL: nat := 57
  const OP_INTERROGATE: nat := 58
  const OP_PREDICATE: nat := 59
  const OP_UNOBSERVED_BEGIN: nat := 60
  const OP_UNOBSERVED_END: nat := 61
  const OP_LOOP_STALL_CHECK: nat := 62
  const OP_LOOP_CAP_CHECK: nat := 63
  const OP_IMPORT: nat := 64
  const OP_MATCH: nat := 65
  const OP_LISTCOMP_BEGIN: nat := 66
  const OP_LISTCOMP_APPEND: nat := 67
  const OP_LINE: nat := 68
  const OP_WIDE: nat := 69
  const OP_DISPATCH: nat := 70
  const OP_LOCAL_DOT_GET: nat := 71
  const OP_LOCAL_DOT_SET: nat := 72
  const OP_LOCAL_IDX_GET: nat := 73
  const OP_LOCAL_IDX_DOT_GET: nat := 74
  const OP_LOCAL_IDX_DOT_SET: nat := 75
  const OP_INTERROGATE_NAMED: nat := 76
  const OP_INTERROGATE_NAMED_AT: nat := 77
  const OP_DEFAULT_PARAM: nat := 78
  const OP_DESTRUCTURE_UNPACK: nat := 79
  const OP_SLICE_GET: nat := 80
  const OP_REPORT_SLOT: nat := 81
  const OP_OBSERVE_NAME_POST: nat := 82
  const OP_REPORT_NAME: nat := 83
  const OP_OBSERVE_VALUE_SLOT: nat := 84
  const OP_OBSERVE_VALUE_NAME: nat := 85
  const OP_LOOP_ENV_CLEAR: nat := 86
  const OP_PREDICATE_SLOT: nat := 87
  const OP_PREDICATE_NAME: nat := 88
  const OP_REPORT_VALUE_SLOT: nat := 89
  const OP_REPORT_VALUE_NAME: nat := 90
  const OP_TRAJECTORY_SLOT: nat := 91
  const OP_TRAJECTORY_NAME: nat := 92
  const OP_INTERROGATE_NAMED_WHEN: nat := 93
  const OP_COUNT: nat := 94

  const VM_STACK_MAX: nat := 65536

  /** What an operand means to the verifier. */
  datatype Role = Raw | ConstIndex | NameIndex | FnIndex | JumpForward | JumpBackward {
    predicate IsJump() {
      JumpForward? || JumpBackward?
    }
  }

  predicate TakesName(op: Byte) {
    op == OP_GET_NAME || op == OP_SET_NAME || op == OP_SET_NAME_LOCAL ||
    op == OP_SET_FN_NAME_LOCAL || op == OP_DOT_GET || op == OP_DOT_SET || op == OP_REPORT_NAME ||
    op == OP_OBSERVE_VALUE_NAME || op == OP_OBSERVE_NAME_POST || op == OP_REPORT_VALUE_NAME ||
    op == OP_TRAJECTORY_NAME || op == OP_IMPORT
  }

  predicate TakesForwardJump(op: Byte) {
    op == OP_JUMP || op == OP_JUMP_IF_FALSE || op == OP_JUMP_IF_TRUE ||
    op == OP_JUMP_IF_FALSE_PEEK || op == OP_JUMP_IF_TRUE_PEEK || op == OP_ITER_NEXT ||
    op == OP_TRY_BEGIN || op == OP_LOOP_STALL_CHECK || op == OP_LOOP_CAP_CHECK
  }

  predicate TakesRaw(op: Byte) {
    op == OP_GET_LOCAL || op == OP_SET_LOCAL || op == OP_CALL || op == OP_LIST || op == OP_DICT ||
    op == OP_OBSERVE_ASSIGN || op == OP_OBSERVE_ASSIGN_LOCAL || op == OP_REPORT_SLOT ||
    op == OP_OBSERVE_VALUE_SLOT || op == OP_REPORT_VALUE_SLOT || op == OP_TRAJECTORY_SLOT ||
    op == OP_INTERROGATE || op == OP_PREDICATE || op == OP_MATCH || op == OP_DESTRUCTURE_UNPACK
  }

  predicate TakesRawAndName(op: Byte) {
    op == OP_LOCAL_DOT_GET || op == OP_LOCAL_DOT_SET || op == OP_INTERROGATE_NAMED ||
    op == OP_INTERROGATE_NAMED_AT || op == OP_INTERROGATE_NAMED_WHEN || op == OP_PREDICATE_NAME
  }

  /** The roles of the 16-bit operands of `op`. OP_LINE's single 32-bit operand is not
      in this table; see `Stride`. */
  function OperandRoles(op: Byte): (roles: seq<Role>)
  {
    if op == OP_CONST then
      [ConstIndex]
    else if TakesName(op) then
      [NameIndex]
    else if op == OP_CLOSURE then
      [FnIndex]
    else if TakesForwardJump(op) then
      [JumpForward]
    else if op == OP_JUMP_BACK then
      [JumpBackward]
    else if TakesRaw(op) then
      [Raw]
    else if TakesRawAndName(op) then
      [Raw, NameIndex]
    else if op == OP_LOCAL_IDX_GET || op == OP_PREDICATE_SLOT then
      [Raw, Raw]
    else if op == OP_DEFAULT_PARAM then
      [Raw, JumpForward]
    else if op == OP_LOCAL_IDX_DOT_GET || op == OP_LOCAL_IDX_DOT_SET then
      [Raw, Raw, NameIndex]
    else
      []
  }

  /** Bytes from the start of an instruction to the start of the next. */
  function Stride(op: Byte): nat {
    if op == OP_LINE then 5 else 1 + 2 * |OperandRoles(op)|
  }

  datatype Flow = FallThrough | Branch | Jump | End

  /** Operands required, popped, pushed on the fall-through edge and pushed on the branch edge. */
  datatype Effect = Effect(need: nat, pops: nat, pushes: nat, branchPushes: nat, flow: Flow)

  predicate PushesOne(op: Byte) {
    op == OP_CONST || op == OP_NULL || op == OP_NUM_ZERO || op == OP_NUM_ONE ||
    op == OP_GET_LOCAL || op == OP_GET_NAME || op == OP_CLOSURE || op == OP_LOCAL_DOT_GET ||
    op == OP_LOCAL_IDX_GET || op == OP_LOCAL_IDX_DOT_GET || op == OP_IMPORT || op == OP_MATCH ||
    op == OP_LISTCOMP_BEGIN || op == OP_PREDICATE || op == OP_PREDICATE_SLOT ||
    op == OP_PREDICATE_NAME || op == OP_REPORT_SLOT || op == OP_REPORT_NAME ||
    op == OP_REPORT_VALUE_SLOT || op == OP_REPORT_VALUE_NAME || op == OP_OBSERVE_VALUE_SLOT ||
    op == OP_OBSERVE_VALUE_NAME || op == OP_TRAJECTORY_SLOT || op == OP_TRAJECTORY_NAME
  }

  predicate PeeksOne(op: Byte) {
    op == OP_SET_LOCAL || op == OP_SET_NAME || op == OP_SET_NAME_LOCAL ||
    op == OP_SET_FN_NAME_LOCAL || op == OP_LOCAL_DOT_SET || op == OP_LOCAL_IDX_DOT_SET ||
    op == OP_OBSERVE_ASSIGN || op == OP_OBSERVE_ASSIGN_LOCAL || op == OP_OBSERVE_NAME_POST
  }

  predicate IsUnary(op: Byte) {
    op == OP_NEG || op == OP_NOT || op == OP_BNOT || op == OP_DOT_GET || op == OP_ITER_SETUP ||
    op == OP_INTERROGATE || op == OP_INTERROGATE_NAMED || op == OP_INTERROGATE_NAMED_AT ||
    op == OP_INTERROGATE_NAMED_WHEN
  }

  predicate IsBinary(op: Byte) {
    op == OP_ADD || op == OP_SUB || op == OP_MUL || op == OP_BAND || op == OP_BOR ||
    op == OP_BXOR || op == OP_SHL || op == OP_SHR || op == OP_EQ || op == OP_NE || op == OP_LT ||
    op == OP_GT || op == OP_LE || op == OP_GE || op == OP_INDEX_GET || op == OP_DOT_SET ||
    op == OP_DIV || op == OP_MOD
  }

  /** The stack effect of `op`, whose first 16-bit operand is `operand0` (0 when it has none). */
  function StackEffect(op: Byte, operand0: nat): (e: Effect)
  {
    if PushesOne(op) then
      Effect(0, 0, 1, 0, FallThrough)
    else if PeeksOne(op) then
      Effect(1, 0, 0, 0, FallThrough)
    else if IsUnary(op) then
      Effect(1, 1, 1, 0, FallThrough)
    else if IsBinary(op) then
      Effect(2, 2, 1, 0, FallThrough)
    else if op == OP_INDEX_SET || op == OP_SLICE_GET || op == OP_DISPATCH then
      Effect(3, 3, 1, 0, FallThrough)
    else if op == OP_POP then
      Effect(1, 1, 0, 0, FallThrough)
    else if op == OP_DUP then
      Effect(1, 0, 1, 0, FallThrough)
    else if op == OP_DUP2 then
      Effect(2, 0, 2, 0, FallThrough)
    else if op == OP_LIST then
      Effect(operand0, operand0, 1, 0, FallThrough)
    else if op == OP_DICT then
      Effect(2 * operand0, 2 * operand0, 1, 0, FallThrough)
    else if op == OP_CALL then
      Effect(operand0 + 1, operand0 + 1, 1, 0, FallThrough)
    else if op == OP_DESTRUCTURE_UNPACK then
      Effect(1, 1, operand0, 0, FallThrough)
    else if op == OP_LISTCOMP_APPEND then
      Effect(2, 1, 0, 0, FallThrough)
    else if op == OP_JUMP_IF_FALSE || op == OP_JUMP_IF_TRUE then
      Effect(1, 1, 0, 0, Branch)
    else if op == OP_JUMP_IF_FALSE_PEEK || op == OP_JUMP_IF_TRUE_PEEK then
      Effect(1, 0, 0, 0, Branch)
    else if op == OP_ITER_NEXT then
      Effect(1, 0, 1, 0, Branch)
    else if op == OP_LOOP_STALL_CHECK || op == OP_LOOP_CAP_CHECK || op == OP_DEFAULT_PARAM then
      Effect(0, 0, 0, 0, Branch)
    else if op == OP_TRY_BEGIN then
      Effect(0, 0, 0, 1, Branch)
    else if op == OP_JUMP || op == OP_JUMP_BACK then
      Effect(0, 0, 0, 0, Jump)
    else if op == OP_RETURN || op == OP_RETURN_NULL then
      Effect(0, 0, 0, 0, End)
    else
      Effect(0, 0, 0, 0, FallThrough)
  }

  /** The two tables agree: no opcode pops more than it requires, and an opcode has a jump
      operand, exactly one and in its last position, if and only if some edge leaves through it. */
  lemma TablesAgree(op: Byte, operand0: nat)
    ensures var e, roles := StackEffect(op, operand0), OperandRoles(op);
            && |roles| <= 3
            && e.pops <= e.need
            && (forall k :: 0 <= k < |roles| && roles[k].IsJump() ==> k == |roles| - 1)
            && ((e.flow.Branch? || e.flow.Jump?) <==> (roles != [] && roles[|roles| - 1].IsJump()))
            && (op == OP_LINE ==> roles == [])
  {
  }
}
