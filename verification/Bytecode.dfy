/** Code units, and how instructions are decoded from their bytes. */
module Bytecode {
  import opened Bytes
  import opened Opcodes
  import opened Constants

  /** A code unit: its bytes, constants and nested function units, and whether it came
      from the compiler rather than from a descriptor. */
  datatype Chunk = Chunk(code: seq<Byte>, constants: seq<Constant>, functions: seq<Chunk>, scanned: bool)

  /** The little-endian 16-bit operand at `p`. */
  function U16(code: seq<Byte>, p: nat): nat
    requires p + 1 < |code|
  {
    code[p] as int + 256 * (code[p + 1] as int)
  }

  /** One past the instruction at `i`. */
  function EndOf(code: seq<Byte>, i: nat): nat
    requires i < |code|
  {
    i + Stride(code[i])
  }

  /** The k-th operand of the instruction at `i`. */
  function Operand(code: seq<Byte>, i: nat, k: nat): nat
    requires i < |code| && EndOf(code, i) <= |code|
    requires k < |OperandRoles(code[i])| && code[i] != OP_LINE
  {
    U16(code, i + 1 + 2 * k)
  }

  predicate OperandValid(c: Chunk, role: Role, operand: nat) {
    match role
    case ConstIndex => operand < |c.constants|
    case NameIndex => operand < |c.constants| && c.constants[operand].Str?
    case FnIndex => operand < |c.functions|
    case _ => true
  }

  /** The instruction at `i` has a known opcode, fits in the code, and indexes only what exists. */
  predicate InstructionValid(c: Chunk, i: int) {
    && 0 <= i < |c.code|
    && c.code[i] < OP_COUNT
    && EndOf(c.code, i) <= |c.code|
    && (c.code[i] != OP_LINE ==>
        forall k :: 0 <= k < |OperandRoles(c.code[i])| ==>
          OperandValid(c, OperandRoles(c.code[i])[k], Operand(c.code, i, k)))
  }

  /** Decoding from `i` reaches the end of the code through valid instructions only. */
  predicate Decodes(c: Chunk, i: nat)
    decreases |c.code| - i
  {
    i == |c.code| || (InstructionValid(c, i) && Decodes(c, EndOf(c.code, i)))
  }

  /** Decoding from `from` starts an instruction at `i`. */
  predicate Starts(code: seq<Byte>, from: nat, i: int)
    decreases |code| - from
  {
    from < |code| && (i == from || Starts(code, EndOf(code, from), i))
  }

  /** `i` is an instruction boundary of the code. */
  predicate IsStart(code: seq<Byte>, i: int) {
    Starts(code, 0, i)
  }

  /** Where a jump operand of an instruction ending at `end` leads. */
  function JumpTarget(role: Role, end: int, operand: nat): int {
    if role.JumpForward? then end + operand else end - operand
  }

  /** Does `op` carry a jump operand? It is then the last one (`Opcodes.TablesAgree`). */
  predicate HasJump(op: Byte) {
    var roles := OperandRoles(op);
    op != OP_LINE && roles != [] && roles[|roles| - 1].IsJump()
  }

  /** Where the instruction at `i` jumps; -1 when it has no jump operand. */
  function Target(code: seq<Byte>, i: nat): int
    requires i < |code| && EndOf(code, i) <= |code|
  {
    var roles := OperandRoles(code[i]);
    if HasJump(code[i]) then
      JumpTarget(roles[|roles| - 1], EndOf(code, i), Operand(code, i, |roles| - 1))
    else
      -1
  }

  function EffectOf(code: seq<Byte>, i: nat): Effect
    requires i < |code| && EndOf(code, i) <= |code|
  {
    var roles := OperandRoles(code[i]);
    StackEffect(code[i], if code[i] == OP_LINE || roles == [] then 0 else Operand(code, i, 0))
  }

  lemma StartsAreDecoded(c: Chunk, from: nat, i: int)
    requires Decodes(c, from) && Starts(c.code, from, i)
    ensures from <= i < |c.code| && InstructionValid(c, i) && Decodes(c, i)
    decreases |c.code| - from
  {
    if i != from {
      StartsAreDecoded(c, EndOf(c.code, from), i);
    }
  }

  lemma StartsAreLater(code: seq<Byte>, from: nat)
    ensures forall j :: Starts(code, from, j) ==> from <= j < |code|
    decreases |code| - from
  {
    if from < |code| {
      StartsAreLater(code, EndOf(code, from));
    }
  }
}
