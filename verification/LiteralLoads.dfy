/** What the shape that the static-load scan looks for does when it is executed. */
module LiteralLoads {
  import opened Bytes
  import opened Opcodes
  import opened Constants
  import opened Bytecode
  import opened Handlers
  import opened StaticLoads

  /** Executing OP_LINE changes nothing but the position. */
  lemma LineIsNeutral<V>(c: Chunk, base: nat, p: nat, stack: seq<V>, w: World<V>)
    requires p < |c.code| && c.code[p] == OP_LINE
    ensures var r := Step(c, base, p, stack, w); r.GoesOn? && r.m.ip == EndOf(c.code, p) && r.m.stack == stack
  {
  }

  /** Decoding from `from` meets nothing but OP_LINE before `to`. */
  ghost predicate OnlyLines(code: seq<Byte>, from: nat, to: nat) {
    forall p :: Starts(code, from, p) && p < to ==> 0 <= p < |code| && code[p] == OP_LINE
  }

  /** The instruction reads the name, which some constant spells, and pushes what it finds under it. */
  ghost predicate PushesNamed<V>(c: Chunk, base: nat, p: nat, stack: seq<V>, w: World<V>, name: string)
    requires p < |c.code|
  {
    var r := Step(c, base, p, stack, w);
    && r.GoesOn? && r.m.ip == EndOf(c.code, p) && r.m.stack == stack + [w.made([])]
    && exists k: nat :: PoolName(k) in r.m.log && k < |c.constants| && c.constants[k] == Str(name)
  }

  /** The instruction pushes the constant that spells `text`. */
  ghost predicate PushesConstant<V>(c: Chunk, base: nat, p: nat, stack: seq<V>, w: World<V>, text: string)
    requires p < |c.code|
  {
    var r := Step(c, base, p, stack, w);
    && r.GoesOn? && r.m.ip == EndOf(c.code, p) && r.m.stack == stack + [w.made([])]
    && exists k: nat :: PoolConstant(k) in r.m.log && k < |c.constants| && c.constants[k] == Str(text)
  }

  lemma NothingTaken<V>(m: Machine<V>, w: World<V>)
    ensures Combine(m, 0, w) == GoesOn(m.Push(w.made([])))
  {
    assert m.Topmost(0, w) == [];
  }

  lemma TwoTaken<V>(m: Machine<V>, stack: seq<V>, f: V, x: V, w: World<V>)
    requires m.stack == stack + [f, x]
    ensures var r := Combine(m, 2, w); r.GoesOn? && r.m.ip == m.ip && r.m.stack == stack + [w.made([f, x])]
  {
    assert m.Topmost(2, w) == [f, x];
    assert m.Drop().stack == stack + [f];
    assert m.Drop().Drop().stack == stack;
    assert m.DropAll(2) == m.Drop().DropAll(1) == m.Drop().Drop().DropAll(0);
  }

  lemma GetNamePushes<V>(c: Chunk, base: nat, p: nat, stack: seq<V>, w: World<V>)
    requires InstructionValid(c, p) && (c.code[p] == OP_GET_NAME || c.code[p] == OP_IMPORT)
    ensures Operand(c.code, p, 0) < |c.constants| && c.constants[Operand(c.code, p, 0)].Str?
    ensures PushesNamed(c, base, p, stack, w, c.constants[Operand(c.code, p, 0)].text)
  {
    hide StackEffect, Combine;
    assert OperandValid(c, OperandRoles(c.code[p])[0], Operand(c.code, p, 0));
    var (k, m) := Machine(p + 1, stack, [CodeByte(p)]).Operand16(c);
    NothingTaken(m.Touch(PoolName(k)), w);
    assert PoolName(k) in m.Touch(PoolName(k)).log;
  }

  lemma ConstPushes<V>(c: Chunk, base: nat, p: nat, stack: seq<V>, w: World<V>)
    requires p + 2 < |c.code| && c.code[p] == OP_CONST
    requires U16(c.code, p + 1) < |c.constants| && c.constants[U16(c.code, p + 1)].Str?
    ensures PushesConstant(c, base, p, stack, w, c.constants[U16(c.code, p + 1)].text)
  {
    hide StackEffect, Combine;
    var (k, m) := Machine(p + 1, stack, [CodeByte(p)]).Operand16(c);
    NothingTaken(m.Touch(PoolConstant(k)), w);
    assert PoolConstant(k) in m.Touch(PoolConstant(k)).log;
  }

  lemma CallTakesTwo<V>(c: Chunk, base: nat, p: nat, stack: seq<V>, f: V, x: V, w: World<V>)
    requires p + 2 < |c.code| && c.code[p] == OP_CALL && U16(c.code, p + 1) == 1
    ensures var r := Step(c, base, p, stack + [f, x], w);
      r.GoesOn? && r.m.ip == EndOf(c.code, p) && r.m.stack == stack + [w.made([f, x])]
  {
    hide StackEffect, Combine;
    var (argc, m) := Machine(p + 1, stack + [f, x], [CodeByte(p)]).Operand16(c);
    assert argc == 1;
    TwoTaken(m, stack, f, x, w);
  }

  /** Where a literal load is headed, what is found under the name `load_file` is pushed, then, behind instructions that
      change nothing, the literal path, and then these two are taken, and nothing else, by a call. */
  lemma LiteralLoadCalls<V>(c: Chunk, i: int, base: nat, stack: seq<V>, w0: World<V>, w1: World<V>, w2: World<V>)
    requires NamesLoadFile(c, i) && HeadsLiteralLoad(c, i)
    ensures var j, q, f, x := LiteralAt(c, i), CallAt(c, i), w0.made([]), w1.made([]);
      && PushesNamed(c, base, i, stack, w0, LOAD_FILE)
      && PushesConstant(c, base, j, stack + [f], w1, LiteralPath(c, i))
      && var r := Step(c, base, q, stack + [f, x], w2);
      && r.GoesOn? && r.m.ip == EndOf(c.code, q) && r.m.stack == stack + [w2.made([f, x])]
    ensures OnlyLines(c.code, EndOf(c.code, i), LiteralAt(c, i))
    ensures OnlyLines(c.code, EndOf(c.code, LiteralAt(c, i)), CallAt(c, i))
  {
    hide PushesNamed, PushesConstant, StackEffect, Step;
    GetNamePushes(c, base, i, stack, w0);
    ConstPushes(c, base, LiteralAt(c, i), stack + [w0.made([])], w1);
    CallTakesTwo(c, base, CallAt(c, i), stack, w0.made([]), w1.made([]), w2);
    LinesBetween(c.code, EndOf(c.code, i));
    LinesBetween(c.code, EndOf(c.code, LiteralAt(c, i)));
  }

  lemma {:induction false} LinesBetween(code: seq<Byte>, from: nat)
    ensures OnlyLines(code, from, SkipLines(code, from))
    decreases |code| - from
  {
    StartsAreLater(code, from);
    if from < |code| && code[from] == OP_LINE {
      LinesBetween(code, EndOf(code, from));
    }
  }

  /** What an import loads is what it looks up. */
  lemma ImportsLoadTheirName<V>(c: Chunk, i: nat, base: nat, stack: seq<V>, w: World<V>, l: Load)
    requires InstructionValid(c, i) && l in LoadsAt(c, i) && l.isImport
    ensures c.code[i] == OP_IMPORT && PushesNamed(c, base, i, stack, w, l.path)
  {
    hide PushesNamed;
    GetNamePushes(c, base, i, stack, w);
  }
}
