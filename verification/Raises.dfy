/** Errors raised in the middle of a try region. The verifier checks a catch handler only as the branch edge of
    OP_TRY_BEGIN; this is exactly when that is enough, and a unit for which it is not. */
module Raises {
  import opened Basics
  import opened Bytes
  import opened Opcodes
  import opened Bytecode
  import opened Verifier

  const MAX_TRY_HANDLERS: nat := 8

  /** A registered handler: where it starts, and the height at which it was registered. */
  datatype Handler = Handler(pc: int, base: int)

  /** A frame: what it executes, and its handlers, the innermost last. */
  datatype Frame = Frame(at: State, handlers: seq<Handler>)

  const FRESH_FRAME := Frame(ENTRY, [])

  /** The state in which handler `h` is entered by an error raised at height `raised`: the stack is drained down
      to the height recorded, if it is above, and the error value pushed. */
  function Caught(h: Handler, raised: int): State {
    State(h.pc, Min(raised, h.base) + 1)
  }

  /** The handlers after the instruction at `s` has executed: OP_TRY_BEGIN registers one, OP_TRY_END drops one. */
  function HandlersAfter(c: Chunk, s: State, handlers: seq<Handler>): seq<Handler>
    requires InstructionValid(c, s.pc)
  {
    if c.code[s.pc] == OP_TRY_BEGIN then handlers + [Handler(Target(c.code, s.pc), s.height)]
    else if c.code[s.pc] == OP_TRY_END && handlers != [] then handlers[..|handlers| - 1]
    else handlers
  }

  /** One instruction executes. OP_TRY_BEGIN only falls through here, and raises if the handlers are full. */
  predicate Executes(c: Chunk, f: Frame, g: Frame) {
    && InstructionValid(c, f.at.pc)
    && g.at in Successors(c, f.at)
    && (c.code[f.at.pc] == OP_TRY_BEGIN ==> g.at.pc == EndOf(c.code, f.at.pc) && |f.handlers| < MAX_TRY_HANDLERS)
    && g.handlers == HandlersAfter(c, f.at, f.handlers)
  }

  /** An error raised at height `raised` unwinds to the innermost handler. */
  predicate Unwinds(f: Frame, raised: int, g: Frame) {
    f.handlers != [] &&
    var last := |f.handlers| - 1;
    g == Frame(Caught(f.handlers[last], raised), f.handlers[..last])
  }

  /** What the interpreter's instructions may do: executing at a state may raise an error and leave a height. */
  type Interpreter = (State, int) -> bool

  /** The stack is no lower than it was when the innermost handler was registered. */
  predicate NotDrained(f: Frame, raised: int) {
    f.handlers != [] && raised >= f.handlers[|f.handlers| - 1].base
  }

  /** The frame executes, or unwinds an error at whatever height the interpreter leaves. */
  ghost predicate Moves(c: Chunk, raises: Interpreter, f: Frame, g: Frame) {
    Executes(c, f, g) || exists raised: int :: raises(f.at, raised) && Unwinds(f, raised, g)
  }

  ghost predicate IsRaisingRun(c: Chunk, raises: Interpreter, run: seq<Frame>) {
    && run != []
    && run[0] == FRESH_FRAME
    && forall i :: 0 < i < |run| ==> Moves(c, raises, run[i - 1], run[i])
  }

  /** The frame ends its run in safety, and at the height of the runs without raises that get there. */
  ghost predicate SafeFrame(c: Chunk, f: Frame) {
    && Safe(c, f.at) && |f.handlers| <= MAX_TRY_HANDLERS
    && forall s :: Reachable(c, s) && s.pc == f.at.pc ==> s.height == f.at.height
  }

  ghost predicate RaisingRunsAreSafe(c: Chunk, raises: Interpreter) {
    forall run :: IsRaisingRun(c, raises, run) ==> SafeFrame(c, run[|run| - 1])
  }

  // ---- The condition on the unit ----

  /** An error is raised, and enters its handler at the height this was verified for. */
  ghost predicate CaughtAsVerified(raises: Interpreter, f: Frame, g: Frame) {
    && f.handlers != []
    && Unwinds(f, f.handlers[|f.handlers| - 1].base, g)
    && exists raised: int :: raises(f.at, raised)
  }

  /** The same moves, but every handler is entered at the height it was verified for. */
  ghost predicate MovesAsVerified(c: Chunk, raises: Interpreter, f: Frame, g: Frame) {
    Executes(c, f, g) || CaughtAsVerified(raises, f, g)
  }

  ghost predicate IsVerifiedRun(c: Chunk, raises: Interpreter, run: seq<Frame>) {
    && run != []
    && run[0] == FRESH_FRAME
    && forall i :: 0 < i < |run| ==> MovesAsVerified(c, raises, run[i - 1], run[i])
  }

  /** No raise at this frame drains the stack below the innermost handler's base. */
  ghost predicate KeepsBase(raises: Interpreter, f: Frame) {
    forall raised: int :: raises(f.at, raised) && f.handlers != [] ==> NotDrained(f, raised)
  }

  /** Inside its try regions the unit never raises with the stack below the region's base. Only the frames of
      verified runs matter, and there are finitely many of these: see `RaisesAreSafeIffCertified`. */
  ghost predicate Undrained(c: Chunk, raises: Interpreter) {
    forall run :: IsVerifiedRun(c, raises, run) ==> KeepsBase(raises, run[|run| - 1])
  }

  // ---- The condition is enough ----

  /** Where a frame is, and where each of its handlers would be entered from its base, a run without raises gets too. */
  ghost predicate Covered(c: Chunk, f: Frame) {
    && Reachable(c, f.at)
    && |f.handlers| <= MAX_TRY_HANDLERS
    && forall i :: 0 <= i < |f.handlers| ==> Reachable(c, State(f.handlers[i].pc, f.handlers[i].base + 1))
  }

  /** The branch edge of OP_TRY_BEGIN is its handler, one operand deeper. */
  lemma TryBranches(c: Chunk, s: State)
    requires InstructionValid(c, s.pc) && c.code[s.pc] == OP_TRY_BEGIN && s.height >= 0
    ensures State(Target(c.code, s.pc), s.height + 1) in Successors(c, s)
  {
  }

  lemma EdgesReachable(c: Chunk, f: Frame)
    requires Accepted(c) && Covered(c, f) && InstructionValid(c, f.at.pc)
    ensures forall t :: t in Successors(c, f.at) ==> Reachable(c, t)
    ensures c.code[f.at.pc] == OP_TRY_BEGIN ==> Reachable(c, State(Target(c.code, f.at.pc), f.at.height + 1))
  {
    hide Successors, Starts, StackEffect, OperandRoles, WellFormed, Reachable, EffectOf, Target;
    assert Safe(c, f.at);
    Edges(c, f.at);
    if c.code[f.at.pc] == OP_TRY_BEGIN {
      TryBranches(c, f.at);
    }
  }

  lemma ExecutionStaysCovered(c: Chunk, f: Frame, g: Frame)
    requires Accepted(c) && Covered(c, f) && Executes(c, f, g)
    ensures Covered(c, g)
  {
    hide Accepted, Successors, InstructionValid, Reachable, Target;
    EdgesReachable(c, f);
  }

  lemma MoveStaysCovered(c: Chunk, raises: Interpreter, f: Frame, g: Frame)
    requires Accepted(c) && Covered(c, f) && MovesAsVerified(c, raises, f, g)
    ensures Covered(c, g)
  {
    hide Accepted, Executes, Reachable;
    if Executes(c, f, g) {
      ExecutionStaysCovered(c, f, g);
    }
  }

  lemma {:induction false} RunStaysCovered(c: Chunk, raises: Interpreter, run: seq<Frame>, i: nat)
    requires Accepted(c) && IsVerifiedRun(c, raises, run) && i < |run|
    ensures Covered(c, run[i])
  {
    hide Accepted, MovesAsVerified, Reachable;
    if i == 0 {
      EntryReachable(c);
    } else {
      RunStaysCovered(c, raises, run, i - 1);
      MoveStaysCovered(c, raises, run[i - 1], run[i]);
    }
  }

  lemma CoveredIsSafe(c: Chunk, f: Frame)
    requires Accepted(c) && Covered(c, f)
    ensures SafeFrame(c, f)
  {
    hide Safe, Reachable, WellFormed;
  }

  /** Where no raise drains the stack, a move is a move as verified. */
  lemma UndrainedMove(c: Chunk, raises: Interpreter, f: Frame, g: Frame)
    requires KeepsBase(raises, f)
    ensures Moves(c, raises, f, g) <==> MovesAsVerified(c, raises, f, g)
  {
    hide Executes;
    if f.handlers != [] {
      var base := f.handlers[|f.handlers| - 1].base;
      forall raised: int | raises(f.at, raised) ensures Unwinds(f, raised, g) <==> Unwinds(f, base, g) {
        assert NotDrained(f, raised);
      }
    }
  }

  lemma {:induction false} RaisingRunIsVerified(c: Chunk, raises: Interpreter, run: seq<Frame>)
    requires Undrained(c, raises) && IsRaisingRun(c, raises, run)
    ensures IsVerifiedRun(c, raises, run)
    decreases |run|
  {
    hide Moves, MovesAsVerified, KeepsBase;
    if |run| > 1 {
      var before := run[..|run| - 1];
      assert IsRaisingRun(c, raises, before);
      RaisingRunIsVerified(c, raises, before);
      UndrainedMove(c, raises, before[|before| - 1], run[|run| - 1]);
    }
  }

  lemma UndrainedMakesRaisesSafe(c: Chunk, raises: Interpreter)
    requires Accepted(c) && Undrained(c, raises)
    ensures RaisingRunsAreSafe(c, raises)
  {
    hide Accepted, Moves, MovesAsVerified, Undrained, Covered, SafeFrame;
    forall run | IsRaisingRun(c, raises, run) ensures SafeFrame(c, run[|run| - 1]) {
      RaisingRunIsVerified(c, raises, run);
      RunStaysCovered(c, raises, run, |run| - 1);
      CoveredIsSafe(c, run[|run| - 1]);
    }
  }

  // ---- And it is necessary ----

  /** A drained raise enters its handler at a height at which no run without raises gets there. */
  lemma DrainedRaiseDisagrees(c: Chunk, f: Frame, raised: int, g: Frame)
    requires Covered(c, f) && f.handlers != [] && !NotDrained(f, raised) && Unwinds(f, raised, g)
    ensures !SafeFrame(c, g)
  {
    hide Reachable, Safe;
    var h := f.handlers[|f.handlers| - 1];
    assert Reachable(c, State(h.pc, h.base + 1)) && g.at == State(h.pc, raised + 1);
  }

  /** If raising runs are safe, a verified run is a raising run, and no raise at its end drains the stack. */
  lemma {:induction false} VerifiedRunIsRaising(c: Chunk, raises: Interpreter, run: seq<Frame>)
    requires Accepted(c) && RaisingRunsAreSafe(c, raises) && IsVerifiedRun(c, raises, run)
    ensures IsRaisingRun(c, raises, run) && KeepsBase(raises, run[|run| - 1])
    decreases |run|
  {
    hide Accepted, MovesAsVerified, Executes, SafeFrame, Covered, NotDrained;
    var f := run[|run| - 1];
    if |run| > 1 {
      var before := run[..|run| - 1];
      assert IsVerifiedRun(c, raises, before);
      VerifiedRunIsRaising(c, raises, before);
      UndrainedMove(c, raises, before[|before| - 1], f);
    }
    RunStaysCovered(c, raises, run, |run| - 1);
    forall raised: int | raises(f.at, raised) && f.handlers != [] ensures NotDrained(f, raised) {
      if !NotDrained(f, raised) {
        var last := |f.handlers| - 1;
        var g := Frame(Caught(f.handlers[last], raised), f.handlers[..last]);
        assert IsRaisingRun(c, raises, run + [g]);
        DrainedRaiseDisagrees(c, f, raised, g);
      }
    }
  }

  /** Whatever the interpreter's instructions may raise: errors are caught safely in an accepted unit, at the heights
      its handlers were verified for, exactly when no raise in its try regions drains the stack below their bases. */
  lemma RaisesAreSafeIffUndrained(c: Chunk, raises: Interpreter)
    requires Accepted(c)
    ensures RaisingRunsAreSafe(c, raises) <==> Undrained(c, raises)
  {
    hide Accepted, Moves, MovesAsVerified, KeepsBase, SafeFrame;
    if Undrained(c, raises) {
      UndrainedMakesRaisesSafe(c, raises);
    }
    if RaisingRunsAreSafe(c, raises) {
      forall run | IsVerifiedRun(c, raises, run) ensures KeepsBase(raises, run[|run| - 1]) {
        VerifiedRunIsRaising(c, raises, run);
      }
    }
  }

  // ---- Checking the condition ----

  /** A finite set of frames that verified runs cannot leave, each keeping its base. */
  ghost predicate Certifies(c: Chunk, raises: Interpreter, frames: set<Frame>) {
    && FRESH_FRAME in frames
    && (forall f :: f in frames ==> KeepsBase(raises, f))
    && forall f, g :: f in frames && MovesAsVerified(c, raises, f, g) ==> g in frames
  }

  lemma {:induction false} CertifiedRun(c: Chunk, raises: Interpreter, frames: set<Frame>, run: seq<Frame>, i: nat)
    requires Certifies(c, raises, frames) && IsVerifiedRun(c, raises, run) && i < |run|
    ensures run[i] in frames
  {
    hide MovesAsVerified, KeepsBase;
    if i > 0 {
      CertifiedRun(c, raises, frames, run, i - 1);
    }
  }

  lemma CertifiedIsUndrained(c: Chunk, raises: Interpreter, frames: set<Frame>)
    requires Certifies(c, raises, frames)
    ensures Undrained(c, raises)
  {
    hide MovesAsVerified, KeepsBase;
    forall run | IsVerifiedRun(c, raises, run) ensures KeepsBase(raises, run[|run| - 1]) {
      CertifiedRun(c, raises, frames, run, |run| - 1);
    }
  }

  function StatesBelow(n: nat): set<State> {
    set pc, h | 0 <= pc < n && 0 <= h <= VM_STACK_MAX :: State(pc, h)
  }

  function HandlersBelow(n: nat): set<Handler> {
    set pc, base | 0 <= pc < n && -1 <= base <= VM_STACK_MAX :: Handler(pc, base)
  }

  /** All lists of at most `k` handlers in code of length `n`. */
  function HandlerLists(n: nat, k: nat): set<seq<Handler>> {
    if k == 0 then {[]}
    else HandlerLists(n, k - 1) + (set hs, h | hs in HandlerLists(n, k - 1) && h in HandlersBelow(n) :: hs + [h])
  }

  lemma {:induction false} ListedHandlers(n: nat, k: nat, hs: seq<Handler>)
    requires |hs| <= k && forall i :: 0 <= i < |hs| ==> hs[i] in HandlersBelow(n)
    ensures hs in HandlerLists(n, k)
  {
    if hs == [] {
      if k > 0 {
        ListedHandlers(n, k - 1, hs);
      }
    } else {
      hide HandlersBelow;
      var before, h := hs[..|hs| - 1], hs[|hs| - 1];
      ListedHandlers(n, k - 1, before);
      assert hs == before + [h];
    }
  }

  /** All frames a verified run of an accepted unit could be in. */
  function Frames(c: Chunk): set<Frame> {
    set s, hs | s in StatesBelow(|c.code|) && hs in HandlerLists(|c.code|, MAX_TRY_HANDLERS) :: Frame(s, hs)
  }

  lemma CoveredIsListed(c: Chunk, f: Frame)
    requires Accepted(c) && Covered(c, f)
    ensures f in Frames(c)
  {
    forall s | Reachable(c, s) ensures 0 <= s.pc < |c.code| && 0 <= s.height <= VM_STACK_MAX {
      assert Safe(c, s);
    }
    hide Reachable, Accepted, HandlerLists;
    forall i | 0 <= i < |f.handlers| ensures f.handlers[i] in HandlersBelow(|c.code|) {
      var h := f.handlers[i];
      assert Reachable(c, State(h.pc, h.base + 1));
      assert h == Handler(h.pc, h.base);
    }
    ListedHandlers(|c.code|, MAX_TRY_HANDLERS, f.handlers);
    assert f.at == State(f.at.pc, f.at.height) && f == Frame(f.at, f.handlers);
  }

  ghost predicate Visited(c: Chunk, raises: Interpreter, f: Frame) {
    exists run :: IsVerifiedRun(c, raises, run) && run[|run| - 1] == f
  }

  /** The frames of verified runs are finitely many, so an undrained unit has a certificate. */
  lemma UndrainedIsCertified(c: Chunk, raises: Interpreter) returns (frames: set<Frame>)
    requires Accepted(c) && Undrained(c, raises)
    ensures Certifies(c, raises, frames)
  {
    hide Accepted, MovesAsVerified, KeepsBase, Covered, Frames;
    frames := set f | f in Frames(c) && Visited(c, raises, f);
    forall f | Visited(c, raises, f) ensures f in frames && KeepsBase(raises, f) {
      var run :| IsVerifiedRun(c, raises, run) && run[|run| - 1] == f;
      RunStaysCovered(c, raises, run, |run| - 1);
      CoveredIsListed(c, f);
    }
    assert Visited(c, raises, FRESH_FRAME) by {
      assert IsVerifiedRun(c, raises, [FRESH_FRAME]);
    }
    forall f, g | f in frames && MovesAsVerified(c, raises, f, g) ensures g in frames {
      var run :| IsVerifiedRun(c, raises, run) && run[|run| - 1] == f;
      assert IsVerifiedRun(c, raises, run + [g]);
      assert Visited(c, raises, g);
    }
  }

  /** Errors are caught safely exactly when the unit has a finite certificate, which a search over its frames finds. */
  lemma RaisesAreSafeIffCertified(c: Chunk, raises: Interpreter)
    requires Accepted(c)
    ensures RaisingRunsAreSafe(c, raises) <==> exists frames :: Certifies(c, raises, frames)
  {
    hide Accepted, RaisingRunsAreSafe, Undrained, Certifies;
    RaisesAreSafeIffUndrained(c, raises);
    if Undrained(c, raises) {
      var frames := UndrainedIsCertified(c, raises);
    }
    forall frames | Certifies(c, raises, frames) ensures Undrained(c, raises) {
      CertifiedIsUndrained(c, raises, frames);
    }
  }
}
