/** A unit that the verifier accepts, and in which a caught error leads to an instruction without its operands. */
module DrainingUnit {
  import opened Bytes
  import Constants
  import opened Opcodes
  import opened Bytecode
  import opened Verifier
  import opened Raises

  /** NUM_ONE, NUM_ONE, TRY_BEGIN (to 11), POP, POP, GET_NAME 0, RETURN_NULL; the handler at 11: POP, POP, POP,
      RETURN_NULL. */
  const DRAINING: Chunk := Chunk(
    [3, 3, 54, 6, 0, 35, 35, 25, 0, 0, 41, 35, 35, 35, 41], [Constants.Str("x")], [], false)

  /** The one undefined name of the unit raises, with a null in the place of its value. */
  predicate UndefinedName(s: State, raised: int) {
    s.pc == 7 && raised == s.height + 1
  }

  /** The offsets of the instructions. */
  predicate IsOffset(pc: int) {
    0 <= pc <= 2 || 5 <= pc <= 7 || 10 <= pc <= 14
  }

  function HeightOf(pc: int): int {
    if pc <= 2 then pc else if pc <= 7 then 7 - pc else if pc == 10 then 1 else 14 - pc
  }

  function Next(pc: int): int {
    if pc == 2 then 5 else if pc == 7 then 10 else pc + 1
  }

  function EffectAt(pc: int): Effect {
    if pc <= 1 || pc == 7 then Effect(0, 0, 1, 0, FallThrough)
    else if pc == 2 then Effect(0, 0, 0, 1, Branch)
    else if pc == 10 || pc == 14 then Effect(0, 0, 0, 0, End)
    else Effect(1, 1, 0, 0, FallThrough)
  }

  lemma OpcodesUsed()
    ensures OperandRoles(3) == OperandRoles(35) == OperandRoles(41) == []
    ensures OperandRoles(54) == [JumpForward] && OperandRoles(25) == [NameIndex]
    ensures forall x :: StackEffect(3, x) == StackEffect(25, x) == Effect(0, 0, 1, 0, FallThrough)
    ensures forall x :: StackEffect(54, x) == Effect(0, 0, 0, 1, Branch)
    ensures forall x :: StackEffect(35, x) == Effect(1, 1, 0, 0, FallThrough)
    ensures forall x :: StackEffect(41, x) == Effect(0, 0, 0, 0, End)
  {
  }

  lemma Instructions(pc: int)
    requires IsOffset(pc)
    ensures InstructionValid(DRAINING, pc) && EndOf(DRAINING.code, pc) == Next(pc)
    ensures Target(DRAINING.code, pc) == if pc == 2 then 11 else -1
    ensures EffectOf(DRAINING.code, pc) == EffectAt(pc)
    ensures HasJump(DRAINING.code[pc]) <==> pc == 2
    ensures DRAINING.code[pc] == OP_TRY_BEGIN <==> pc == 2
    ensures DRAINING.code[pc] != OP_TRY_END
    ensures pc == 14 ==> DRAINING.code[pc] == OP_RETURN_NULL
  {
    OpcodesUsed();
    hide OperandRoles, StackEffect;
  }

  /** Decoding meets exactly the offsets that have a height. */
  lemma {:induction false} Decoding(from: int)
    requires IsOffset(from)
    ensures Decodes(DRAINING, from)
    ensures forall i :: Starts(DRAINING.code, from, i) <==> i >= from && IsOffset(i)
    decreases 15 - from
  {
    Instructions(from);
    hide InstructionValid, EndOf, EffectOf, Target;
    if from < 14 {
      Decoding(Next(from));
    }
  }

  lemma SuccessorsAt(s: State)
    requires IsOffset(s.pc) && s.height >= EffectAt(s.pc).need
    ensures
      var e := EffectAt(s.pc);
      Successors(DRAINING, s) == if s.pc == 2 then [State(5, s.height), State(11, s.height + 1)]
                                 else if s.pc == 10 || s.pc == 14 then []
                                 else [State(Next(s.pc), s.height - e.pops + e.pushes)]
  {
    Instructions(s.pc);
    hide InstructionValid, EndOf, EffectOf, Target;
  }

  lemma HeightsAgree(pc: int, t: State)
    requires IsOffset(pc)
    ensures EffectAt(pc).need <= HeightOf(pc) <= 3
    ensures t in Successors(DRAINING, State(pc, HeightOf(pc))) ==> IsOffset(t.pc) && HeightOf(t.pc) == t.height
  {
    SuccessorsAt(State(pc, HeightOf(pc)));
    hide Successors;
  }

  lemma Heights() returns (heights: map<int, int>)
    ensures IsTyping(DRAINING, heights)
  {
    heights := map pc | 0 <= pc < 15 && IsOffset(pc) :: HeightOf(pc);
    Decoding(0);
    forall pc | pc in heights
      ensures Safe(DRAINING, State(pc, heights[pc]))
      ensures forall t ::
        t in Successors(DRAINING, State(pc, heights[pc])) ==> t.pc in heights && heights[t.pc] == t.height
    {
      Instructions(pc);
      hide InstructionValid, EndOf, EffectOf, Target, Starts, Successors;
      forall t | t in Successors(DRAINING, State(pc, heights[pc]))
        ensures IsOffset(t.pc) && HeightOf(t.pc) == t.height
      {
        HeightsAgree(pc, t);
      }
      HeightsAgree(pc, ENTRY);
    }
  }

  lemma DrainingIsAccepted()
    ensures Accepted(DRAINING)
  {
    Decoding(0);
    var heights := Heights();
    TypingMakesRunsSafe(DRAINING, heights);
    forall i | IsStart(DRAINING.code, i) ensures JumpLands(DRAINING, i) && EndsClosed(DRAINING, i) {
      Instructions(i);
      hide InstructionValid, EndOf, EffectOf, Target, Starts;
    }
  }

  lemma RunOn(run: seq<Frame>, g: Frame) returns (longer: seq<Frame>)
    requires IsRaisingRun(DRAINING, UndefinedName, run) && Moves(DRAINING, UndefinedName, run[|run| - 1], g)
    ensures IsRaisingRun(DRAINING, UndefinedName, longer) && longer[|longer| - 1] == g
  {
    hide Moves;
    longer := run + [g];
  }

  /** One instruction of the unit that falls through. */
  lemma RunOnInOrder(run: seq<Frame>, s: State, hs: seq<Handler>) returns (longer: seq<Frame>)
    requires IsRaisingRun(DRAINING, UndefinedName, run) && run[|run| - 1] == Frame(s, hs)
    requires IsOffset(s.pc) && s.pc != 10 && s.pc != 14 && s.height >= EffectAt(s.pc).need && |hs| < MAX_TRY_HANDLERS
    ensures IsRaisingRun(DRAINING, UndefinedName, longer)
    ensures
      var e := EffectAt(s.pc);
      longer[|longer| - 1] == Frame(State(Next(s.pc), s.height - e.pops + e.pushes),
                                    if s.pc == 2 then hs + [Handler(11, s.height)] else hs)
  {
    var e := EffectAt(s.pc);
    var after := if s.pc == 2 then hs + [Handler(11, s.height)] else hs;
    var g := Frame(State(Next(s.pc), s.height - e.pops + e.pushes), after);
    assert Executes(DRAINING, Frame(s, hs), g) by {
      Instructions(s.pc);
      SuccessorsAt(s);
      hide InstructionValid, EndOf, EffectOf, Target, Successors;
    }
    longer := RunOn(run, g);
  }

  /** Up to the raise and into the handler, until its third POP has nothing to take. */
  lemma DrainedRun() returns (run: seq<Frame>)
    ensures IsRaisingRun(DRAINING, UndefinedName, run) && run[|run| - 1] == Frame(State(13, 0), [])
  {
    var h := [Handler(11, 2)];
    run := [FRESH_FRAME];
    run := RunOnInOrder(run, State(0, 0), []);
    run := RunOnInOrder(run, State(1, 1), []);
    run := RunOnInOrder(run, State(2, 2), []);
    run := RunOnInOrder(run, State(5, 2), h);
    run := RunOnInOrder(run, State(6, 1), h);
    assert UndefinedName(State(7, 0), 1) && Unwinds(Frame(State(7, 0), h), 1, Frame(State(11, 2), []));
    run := RunOn(run, Frame(State(11, 2), []));
    run := RunOnInOrder(run, State(11, 2), []);
    run := RunOnInOrder(run, State(12, 1), []);
  }

  /** Accepting a unit does not make its caught errors safe: here one leads to a POP at height 0. */
  lemma AcceptedButUnsafe() returns (run: seq<Frame>)
    ensures Accepted(DRAINING) && IsRaisingRun(DRAINING, UndefinedName, run)
    ensures run[|run| - 1].at == State(13, 0) && !Safe(DRAINING, State(13, 0))
    ensures !RaisingRunsAreSafe(DRAINING, UndefinedName) && !Undrained(DRAINING, UndefinedName)
  {
    DrainingIsAccepted();
    run := DrainedRun();
    Instructions(13);
    hide Accepted, InstructionValid, EffectOf, Moves;
    assert !SafeFrame(DRAINING, run[|run| - 1]);
    RaisesAreSafeIffUndrained(DRAINING, UndefinedName);
  }
}
