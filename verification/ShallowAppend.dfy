/** A unit that the verifier accepts, and that appends to an operand of its caller. */
module ShallowAppend {
  import opened Bytes
  import opened Opcodes
  import opened Bytecode
  import opened Verifier
  import opened Handlers
  import opened Frames
  import opened FrameRuns

  /** NULL, NULL, LISTCOMP_APPEND, RETURN. */
  const UNIT: Chunk := Chunk([1, 1, 67, 40], [], [], false)

  function HeightOf(pc: int): int {
    if pc <= 2 then pc else 1
  }

  lemma OpcodesUsed()
    ensures OperandRoles(1) == OperandRoles(67) == OperandRoles(40) == []
    ensures forall x :: StackEffect(1, x) == Effect(0, 0, 1, 0, FallThrough)
    ensures forall x :: StackEffect(67, x) == Effect(2, 1, 0, 0, FallThrough)
    ensures forall x :: StackEffect(40, x) == Effect(0, 0, 0, 0, End)
  {
  }

  lemma Instructions(pc: int)
    requires 0 <= pc <= 3
    ensures InstructionValid(UNIT, pc) && EndOf(UNIT.code, pc) == pc + 1
    ensures Target(UNIT.code, pc) == -1 && !HasJump(UNIT.code[pc])
    ensures EffectOf(UNIT.code, pc)
         == if pc <= 1 then Effect(0, 0, 1, 0, FallThrough)
            else if pc == 2 then Effect(2, 1, 0, 0, FallThrough)
            else Effect(0, 0, 0, 0, End)
  {
    hide OperandRoles, StackEffect;
    OpcodesUsed();
  }

  lemma {:induction false} Decoding(from: int)
    requires 0 <= from <= 3
    ensures Decodes(UNIT, from)
    ensures forall i :: Starts(UNIT.code, from, i) <==> from <= i <= 3
    decreases 3 - from
  {
    hide InstructionValid, EndOf, EffectOf, Target;
    Instructions(from);
    if from < 3 {
      Decoding(from + 1);
    }
  }

  lemma SuccessorsAt(pc: int)
    requires 0 <= pc <= 3
    ensures Successors(UNIT, State(pc, HeightOf(pc))) == if pc == 3 then [] else [State(pc + 1, HeightOf(pc + 1))]
  {
    hide InstructionValid, EndOf, EffectOf, Target;
    Instructions(pc);
  }

  lemma IsAccepted()
    ensures Accepted(UNIT)
  {
    hide InstructionValid, EndOf, EffectOf, Target, Starts, Successors;
    Decoding(0);
    var heights: map<int, int> := map pc | 0 <= pc < 4 :: HeightOf(pc);
    forall pc | pc in heights
      ensures Safe(UNIT, State(pc, heights[pc])) && JumpLands(UNIT, pc) && EndsClosed(UNIT, pc)
      ensures forall t :: t in Successors(UNIT, State(pc, heights[pc])) ==> t.pc in heights && heights[t.pc] == t.height
    {
      Instructions(pc);
      SuccessorsAt(pc);
    }
    assert IsTyping(UNIT, heights);
    TypingMakesRunsSafe(UNIT, heights);
  }

  /** The append finds two operands of its own, and looks at the slot below them: its caller's. */
  lemma AcceptedButLooksBelow<V(!new)>(v: V)
    ensures Accepted(UNIT) && !AppendsToItsOwn(UNIT) && !StaysInside(UNIT, [v])
  {
    hide InstructionValid, EndOf, EffectOf, Accepted, StaysInside;
    IsAccepted();
    EntryReachable(UNIT);
    SuccessorsAt(0);
    SuccessorsAt(1);
    ReachableStep(UNIT, State(0, 0), State(1, 1));
    ReachableStep(UNIT, State(1, 1), State(2, 2));
    assert UNIT.code[2] == OP_LISTCOMP_APPEND;
    ShallowAppendLooksBelow(UNIT, v, State(2, 2));
  }
}
