/** Whole runs of the interpreter inside a frame: what the verifier's acceptance means for them. */
module FrameRuns {
  import opened Bytes
  import opened Opcodes
  import opened Bytecode
  import opened Verifier
  import opened Raises
  import opened Handlers
  import opened Frames

  /** Where a frame is: the next instruction, and the operand stack with its callers' windows below its own. */
  datatype Config<V> = Config(ip: int, stack: seq<V>)

  ghost predicate Moves<V(!new)>(c: Chunk, base: nat, s: Config<V>, w: World<V>, t: Config<V>) {
    var r := Step(c, base, s.ip, s.stack, w);
    r.GoesOn? && t == Config(r.m.ip, r.m.stack)
  }

  ghost predicate CanMove<V(!new)>(c: Chunk, base: nat, s: Config<V>, t: Config<V>) {
    exists w: World<V> :: Moves(c, base, s, w, t)
  }

  /** A run of a frame that is entered above the windows `below`. */
  ghost predicate IsFrameRun<V(!new)>(c: Chunk, below: seq<V>, run: seq<Config<V>>) {
    && run != []
    && run[0] == Config(0, below)
    && forall i :: 0 < i < |run| ==> CanMove(c, |below|, run[i - 1], run[i])
  }

  ghost predicate Reached<V(!new)>(c: Chunk, below: seq<V>, s: Config<V>) {
    exists run :: IsFrameRun(c, below, run) && run[|run| - 1] == s
  }

  // ---- The verifier's machine and the interpreter ----

  /** The interpreter at `s` is where the verifier's machine is, and the windows below are untouched. */
  ghost predicate Tracks<V(!new)>(c: Chunk, below: seq<V>, s: Config<V>) {
    && |below| <= |s.stack| && s.stack[..|below|] == below
    && Reachable(c, State(s.ip, |s.stack| - |below|))
  }

  lemma TrackedIsFed<V(!new)>(c: Chunk, below: seq<V>, s: Config<V>)
    requires Accepted(c) && Tracks(c, below, s)
    ensures Fed(c, s.ip, s.stack) && EffectOf(c.code, s.ip).need <= |s.stack| - |below|
    ensures |s.stack| - |below| <= VM_STACK_MAX
  {
    hide InstructionValid, EffectOf, Starts, WellFormed, Reachable;
    assert Safe(c, State(s.ip, |s.stack| - |below|));
    PopsAreRequired(c, s.ip);
  }

  lemma PopsAreRequired(c: Chunk, ip: int)
    requires InstructionValid(c, ip)
    ensures 0 <= EffectOf(c.code, ip).pops <= EffectOf(c.code, ip).need
  {
    hide StackEffect, OperandRoles;
    var roles := OperandRoles(c.code[ip]);
    TablesAgree(c.code[ip], if c.code[ip] == OP_LINE || roles == [] then 0 else Operand(c.code, ip, 0));
  }

  /** What the table says of a step is a step of the verifier's machine. */
  lemma RowIsEdge<V(!new)>(c: Chunk, below: seq<V>, s: Config<V>, m: Machine<V>)
    requires Tracks(c, below, s) && Fed(c, s.ip, s.stack)
    requires EffectOf(c.code, s.ip).need <= |s.stack| - |below|
    requires MeetsRow(c, s.ip, s.stack, EffectOf(c.code, s.ip), m)
    ensures Tracks(c, below, Config(m.ip, m.stack))
  {
    hide EffectOf, Target, EndOf, Reachable;
    var e, h := EffectOf(c.code, s.ip), |s.stack| - |below|;
    Edges(c, State(s.ip, h));
    var left := |s.stack| - e.pops;
    assert m.stack[..|below|] == m.stack[..left][..|below|];
    assert s.stack[..left][..|below|] == s.stack[..|below|];
    assert State(m.ip, |m.stack| - |below|) in Successors(c, State(s.ip, h));
  }

  lemma MoveTracked<V(!new)>(c: Chunk, below: seq<V>, s: Config<V>, w: World<V>, t: Config<V>)
    requires Accepted(c) && Tracks(c, below, s) && Moves(c, |below|, s, w, t)
    ensures Tracks(c, below, t)
  {
    hide Accepted, Tracks, Step, EffectOf, MeetsRow;
    TrackedIsFed(c, below, s);
    var base := |below|;
    if c.code[s.ip] == OP_LISTCOMP_APPEND {
      AppendLooksDeeper(c, base, s.ip, s.stack, w);
    } else if c.code[s.ip] == OP_RETURN || c.code[s.ip] == OP_RETURN_NULL {
      ReturnDrains(c, base, s.ip, s.stack, w);
      assert false;
    } else {
      StepAsTabled(c, base, s.ip, s.stack, w);
    }
    RowIsEdge(c, below, s, Step(c, base, s.ip, s.stack, w).m);
  }

  lemma {:induction false} RunTracked<V(!new)>(c: Chunk, below: seq<V>, run: seq<Config<V>>)
    requires Accepted(c) && IsFrameRun(c, below, run)
    ensures Tracks(c, below, run[|run| - 1])
    decreases |run|
  {
    hide Accepted, Moves, Reachable;
    if |run| == 1 {
      EntryReachable(c);
    } else {
      var before := run[..|run| - 1];
      assert IsFrameRun(c, below, before);
      RunTracked(c, below, before);
      assert CanMove(c, |below|, run[|run| - 2], run[|run| - 1]);
      var w :| Moves(c, |below|, run[|run| - 2], w, run[|run| - 1]);
      MoveTracked(c, below, run[|run| - 2], w, run[|run| - 1]);
    }
  }

  /** Wherever a frame of an accepted unit gets, the verifier's machine gets at the height of the frame's window; the
      windows below are as they were; and the instruction there is valid and has the operands it requires. */
  lemma FramesKeepTheirHeights<V(!new)>(c: Chunk, below: seq<V>, s: Config<V>)
    requires Accepted(c) && Reached(c, below, s)
    ensures Tracks(c, below, s) && Fed(c, s.ip, s.stack)
    ensures EffectOf(c.code, s.ip).need <= |s.stack| - |below| <= VM_STACK_MAX
  {
    hide Accepted, Tracks, CanMove, EffectOf;
    var run :| IsFrameRun(c, below, run) && run[|run| - 1] == s;
    RunTracked(c, below, run);
    TrackedIsFed(c, below, s);
  }

  // ---- What runs of an accepted unit touch ----

  /** No step, wherever a frame gets, touches anything but the unit's own code and tables and its own window. */
  ghost predicate StaysInside<V(!new)>(c: Chunk, below: seq<V>) {
    forall s: Config<V>, w: World<V> :: Reached(c, below, s) ==>
      AllInside(c, |below|, Step(c, |below|, s.ip, s.stack, w).m.log)
  }

  /** Every OP_LISTCOMP_APPEND that is reached finds three operands: the list, what lies on it, and the item. */
  ghost predicate AppendsToItsOwn(c: Chunk) {
    forall s :: Reachable(c, s) && 0 <= s.pc < |c.code| && c.code[s.pc] == OP_LISTCOMP_APPEND ==> s.height >= 3
  }

  lemma InsideLower(c: Chunk, floor: int, lower: int, log: seq<Access>)
    requires AllInside(c, floor, log) && lower <= floor
    ensures AllInside(c, lower, log)
  {
  }

  lemma StepInside<V(!new)>(c: Chunk, below: seq<V>, s: Config<V>, w: World<V>)
    requires Accepted(c) && AppendsToItsOwn(c) && Reached(c, below, s)
    ensures AllInside(c, |below|, Step(c, |below|, s.ip, s.stack, w).m.log)
  {
    hide Accepted, Reached, EffectOf, AllInside, Step, Reachable;
    FramesKeepTheirHeights(c, below, s);
    var log := Step(c, |below|, s.ip, s.stack, w).m.log;
    if c.code[s.ip] == OP_LISTCOMP_APPEND {
      AppendLooksDeeper(c, |below|, s.ip, s.stack, w);
      assert State(s.ip, |s.stack| - |below|).height >= 3;
      InsideLower(c, |s.stack| - 3, |below|, log);
    } else if c.code[s.ip] == OP_RETURN || c.code[s.ip] == OP_RETURN_NULL {
      ReturnDrains(c, |below|, s.ip, s.stack, w);
    } else {
      StepAsTabled(c, |below|, s.ip, s.stack, w);
      InsideLower(c, |s.stack| - EffectOf(c.code, s.ip).need, |below|, log);
    }
  }

  // ---- Every state of the verifier's machine is one of some frame ----

  /** The edge is taken in some world. */
  lemma EdgeTaken<V(!new)>(c: Chunk, below: seq<V>, v: V, s: Config<V>, t: State) returns (s': Config<V>)
    requires Accepted(c) && Tracks(c, below, s) && t in Successors(c, State(s.ip, |s.stack| - |below|))
    ensures CanMove(c, |below|, s, s') && s'.ip == t.pc && |s'.stack| - |below| == t.height
  {
    hide Accepted, EffectOf, Target, EndOf, Step, Reachable;
    TrackedIsFed(c, below, s);
    var op, base := c.code[s.ip], |below|;
    var e, h := EffectOf(c.code, s.ip), |s.stack| - |below|;
    Edges(c, State(s.ip, h));
    var taken := !(t.pc == EndOf(c.code, s.ip) && t.height == h - e.pops + e.pushes);
    var w := Deciding(op, v, taken);
    var r := Step(c, base, s.ip, s.stack, w);
    s' := Config(r.m.ip, r.m.stack);
    if e.flow.Branch? {
      BranchTakes(c, base, s.ip, s.stack, v, taken);
    } else if op == OP_LISTCOMP_APPEND {
      AppendLooksDeeper(c, base, s.ip, s.stack, w);
    } else {
      ReturnsEnd(c, s.ip);
      StepAsTabled(c, base, s.ip, s.stack, w);
    }
    assert Moves(c, base, s, w, s');
  }

  lemma ReturnsEnd(c: Chunk, ip: int)
    requires InstructionValid(c, ip)
    ensures EffectOf(c.code, ip).flow.End? <==> c.code[ip] == OP_RETURN || c.code[ip] == OP_RETURN_NULL
  {
    hide StackEffect, OperandRoles;
    var roles := OperandRoles(c.code[ip]);
    OnlyReturnsEnd(c.code[ip], if c.code[ip] == OP_LINE || roles == [] then 0 else Operand(c.code, ip, 0));
  }

  lemma {:induction false} RunRealized<V(!new)>(c: Chunk, below: seq<V>, v: V, run: seq<State>)
    returns (frames: seq<Config<V>>)
    requires Accepted(c) && IsRun(c, run)
    ensures IsFrameRun(c, below, frames)
    ensures var s, t := run[|run| - 1], frames[|frames| - 1]; t.ip == s.pc && |t.stack| - |below| == s.height
    decreases |run|
  {
    hide Accepted, Moves, CanMove, Successors;
    if |run| == 1 {
      frames := [Config(0, below)];
    } else {
      var before := run[..|run| - 1];
      assert IsRun(c, before);
      var shorter := RunRealized(c, below, v, before);
      RunTracked(c, below, shorter);
      assert run[|run| - 1] in Successors(c, run[|run| - 2]);
      var last := shorter[|shorter| - 1];
      assert State(last.ip, |last.stack| - |below|) == run[|run| - 2];
      var next := EdgeTaken(c, below, v, last, run[|run| - 1]);
      frames := shorter + [next];
    }
  }

  /** Frames of an accepted unit touch nothing outside, whatever lies below them, if and only if no run without raises
      reaches an OP_LISTCOMP_APPEND at the height of 2 that the verifier asks for: it appends to the operand below. */
  lemma AcceptedFramesStayInsideIff<V(!new)>(c: Chunk, v: V)
    requires Accepted(c)
    ensures (forall below: seq<V> :: StaysInside(c, below)) <==> AppendsToItsOwn(c)
  {
    hide Accepted, Reached, Reachable, AllInside;
    if AppendsToItsOwn(c) {
      forall below: seq<V>, s: Config<V>, w: World<V> | Reached(c, below, s)
        ensures AllInside(c, |below|, Step(c, |below|, s.ip, s.stack, w).m.log)
      {
        StepInside(c, below, s, w);
      }
    } else {
      var s :| Reachable(c, s) && 0 <= s.pc < |c.code| && c.code[s.pc] == OP_LISTCOMP_APPEND && s.height < 3;
      ShallowAppendLooksBelow(c, v, s);
    }
  }

  lemma ShallowAppendLooksBelow<V(!new)>(c: Chunk, v: V, s: State)
    requires Accepted(c) && Reachable(c, s)
    requires 0 <= s.pc < |c.code| && c.code[s.pc] == OP_LISTCOMP_APPEND && s.height < 3
    ensures !StaysInside(c, [v])
  {
    hide Accepted, Successors, CanMove, EffectOf, Step, Tracks;
    var run :| IsRun(c, run) && run[|run| - 1] == s;
    var frames := RunRealized(c, [v], v, run);
    var t := frames[|frames| - 1];
    assert Reached(c, [v], t);
    FramesKeepTheirHeights(c, [v], t);
    var w := Deciding(OP_LISTCOMP_APPEND, v, true);
    AppendLooksDeeper(c, 1, t.ip, t.stack, w);
    assert !Inside(c, 1, Slot(|t.stack| - 3));
  }

  // ---- Unwinding ----

  /** Draining the operand stack down to where a handler was registered, if it is above, and pushing the error enters
      the handler at the height that raising runs have it at, in the frame above `below`. */
  lemma CaughtIsDrained<V>(c: Chunk, below: seq<V>, m: Machine<V>, h: Handler, error: V)
    requires |below| <= |m.stack| && h.base >= 0
    ensures |m.DrainTo(|below| + h.base).Push(error).stack| - |below| == Caught(h, |m.stack| - |below|).height
    ensures m.stack[..|below|] == below ==> m.DrainTo(|below| + h.base).Push(error).stack[..|below|] == below
  {
    if |below| + h.base <= |m.stack| {
      DrainTouches(m, |below| + h.base);
    }
  }
}
