/** The static-load scan: which files and modules a compiled unit can load, or that it cannot tell. */
module StaticLoads {
  import opened Bytes
  import opened Opcodes
  import opened Constants
  import opened Bytecode
  import ConstPool

  const LOAD_FILE := "load_file"

  datatype Load = Load(path: string, isImport: bool)

  /** The next offset at or after `i` that does not hold an OP_LINE. */
  function SkipLines(code: seq<Byte>, i: nat): (j: nat)
    ensures i <= j
    ensures j < |code| ==> code[j] != OP_LINE
    decreases |code| - i
  {
    if i < |code| && code[i] == OP_LINE then SkipLines(code, EndOf(code, i)) else i
  }

  // ---- What the scan has to find, in terms of names ----

  /** Some name operand of the instruction at `i` spells `load_file`. */
  predicate NamesLoadFile(c: Chunk, i: int) {
    && InstructionValid(c, i) && c.code[i] != OP_LINE
    && exists k :: 0 <= k < |OperandRoles(c.code[i])| && OperandRoles(c.code[i])[k].NameIndex?
        && c.constants[Operand(c.code, i, k)].text == LOAD_FILE
  }

  function LiteralAt(c: Chunk, i: nat): nat
    requires i < |c.code|
  {
    SkipLines(c.code, EndOf(c.code, i))
  }

  function CallAt(c: Chunk, i: nat): nat
    requires i < |c.code| && LiteralAt(c, i) < |c.code|
  {
    SkipLines(c.code, EndOf(c.code, LiteralAt(c, i)))
  }

  /** The instruction at `i` heads GET_NAME / CONST string / CALL 1, with only OP_LINE between. */
  predicate HeadsLiteralLoad(c: Chunk, i: int) {
    && 0 <= i < |c.code| && c.code[i] == OP_GET_NAME
    && var j := LiteralAt(c, i);
    && j + 2 < |c.code| && c.code[j] == OP_CONST
    && U16(c.code, j + 1) < |c.constants| && c.constants[U16(c.code, j + 1)].Str?
    && var q := CallAt(c, i);
    && q + 2 < |c.code| && c.code[q] == OP_CALL && U16(c.code, q + 1) == 1
  }

  function LiteralPath(c: Chunk, i: int): string
    requires HeadsLiteralLoad(c, i)
  {
    c.constants[U16(c.code, LiteralAt(c, i) + 1)].text
  }

  /** What the instruction at `i` loads: an imported module, or the literal it heads the load of. */
  function LoadsAt(c: Chunk, i: int): seq<Load>
    requires InstructionValid(c, i)
  {
    if c.code[i] == OP_IMPORT then
      [Load(c.constants[Operand(c.code, i, 0)].text, true)]
    else if NamesLoadFile(c, i) && HeadsLiteralLoad(c, i) then
      [Load(LiteralPath(c, i), false)]
    else
      []
  }

  /** All loads met while decoding from `i`, in walk order. */
  function LoadsFrom(c: Chunk, i: nat): seq<Load>
    requires Decodes(c, i)
    decreases |c.code| - i
  {
    if i == |c.code| then [] else LoadsAt(c, i) + LoadsFrom(c, EndOf(c.code, i))
  }

  /** Every use of `load_file` met while decoding from `i` heads a literal load. */
  predicate UsesAreLiteral(c: Chunk, i: nat)
    requires Decodes(c, i)
    decreases |c.code| - i
  {
    i == |c.code| || ((NamesLoadFile(c, i) ==> HeadsLiteralLoad(c, i)) && UsesAreLiteral(c, EndOf(c.code, i)))
  }

  // ---- Trees of units ----

  /** Every unit of the tree decodes, and its constant pool holds no two equal entries. */
  ghost predicate Scannable(c: Chunk) {
    && Decodes(c, 0)
    && ConstPool.NoDuplicates(c.constants)
    && forall f :: 0 <= f < |c.functions| ==> Scannable(c.functions[f])
  }

  /** Every unit of the tree came from the compiler, and uses `load_file` only in literal loads. */
  ghost predicate Transparent(c: Chunk)
    requires Scannable(c)
  {
    && c.scanned
    && UsesAreLiteral(c, 0)
    && forall f :: 0 <= f < |c.functions| ==> Transparent(c.functions[f])
  }

  ghost function TreeLoads(c: Chunk): seq<Load>
    requires Scannable(c)
    decreases c, 1, 0
  {
    LoadsFrom(c, 0) + NestedLoads(c, 0)
  }

  ghost function NestedLoads(c: Chunk, f: nat): seq<Load>
    requires Scannable(c) && f <= |c.functions|
    decreases c, 0, |c.functions| - f
  {
    if f == |c.functions| then [] else TreeLoads(c.functions[f]) + NestedLoads(c, f + 1)
  }

  // ---- The scan ----

  /** The pool index of the first string constant spelling `name`; the pool's length if none. */
  method PoolIndexOf(constants: seq<Constant>, name: string) returns (at: nat)
    ensures at <= |constants|
    ensures at < |constants| ==> constants[at] == Str(name)
    ensures forall i :: 0 <= i < at ==> constants[i] != Str(name)
  {
    at := 0;
    while at < |constants|
      invariant at <= |constants|
      invariant forall i :: 0 <= i < at ==> constants[i] != Str(name)
    {
      if constants[at].Str? && constants[at].text == name { return; }
      at := at + 1;
    }
  }

  method StepOverLines(code: seq<Byte>, from: nat) returns (j: nat)
    ensures j == SkipLines(code, from)
  {
    j := from;
    while j < |code| && code[j] == OP_LINE
      invariant SkipLines(code, j) == SkipLines(code, from)
      decreases |code| - j
    {
      j := EndOf(code, j);
    }
  }

  /** Does some name operand of the instruction at `i` carry `index`, where `load_file` is first in the pool? */
  method CarriesName(c: Chunk, i: nat, index: nat) returns (carries: bool)
    requires InstructionValid(c, i) && ConstPool.NoDuplicates(c.constants)
    requires index < |c.constants| ==> c.constants[index] == Str(LOAD_FILE)
    requires index <= |c.constants| && forall k :: 0 <= k < index ==> c.constants[k] != Str(LOAD_FILE)
    ensures carries <==> NamesLoadFile(c, i)
  {
    hide OperandRoles;
    carries := false;
    if c.code[i] == OP_LINE { return; }
    var roles := OperandRoles(c.code[i]);
    var k := 0;
    while k < |roles|
      invariant 0 <= k <= |roles|
      invariant carries <==>
        exists m :: 0 <= m < k && roles[m].NameIndex? && c.constants[Operand(c.code, i, m)].text == LOAD_FILE
    {
      if roles[k].NameIndex? {
        assert OperandValid(c, roles[k], Operand(c.code, i, k));
        if Operand(c.code, i, k) == index { carries := true; }
      }
      k := k + 1;
    }
  }

  /** One step of the walk: what the instruction at `i` loads, or that it cannot tell. */
  method ScanInstruction(c: Chunk, i: nat, lf: nat) returns (cannotTell: bool, loads: seq<Load>)
    requires InstructionValid(c, i) && ConstPool.NoDuplicates(c.constants)
    requires lf < |c.constants| ==> c.constants[lf] == Str(LOAD_FILE)
    requires lf <= |c.constants| && forall k :: 0 <= k < lf ==> c.constants[k] != Str(LOAD_FILE)
    ensures cannotTell <==> NamesLoadFile(c, i) && !HeadsLiteralLoad(c, i)
    ensures !cannotTell ==> loads == LoadsAt(c, i)
  {
    cannotTell, loads := true, [];
    var op := c.code[i];
    if op == OP_IMPORT {
      loads := [Load(c.constants[Operand(c.code, i, 0)].text, true)];
    }
    hide OperandRoles, NamesLoadFile;
    var names := CarriesName(c, i, lf);
    if names {
      if op != OP_GET_NAME { return; }
      var j := StepOverLines(c.code, EndOf(c.code, i));
      if j + 2 >= |c.code| || c.code[j] != OP_CONST { return; }
      var s := U16(c.code, j + 1);
      if s >= |c.constants| || !c.constants[s].Str? { return; }
      var q := StepOverLines(c.code, EndOf(c.code, j));
      if q + 2 >= |c.code| || c.code[q] != OP_CALL { return; }
      if U16(c.code, q + 1) != 1 { return; }
      loads := loads + [Load(c.constants[s].text, false)];
    }
    cannotTell := false;
  }

  method ScanStaticLoads(c: Chunk) returns (cannotTell: bool, visited: seq<Load>)
    requires Scannable(c)
    ensures !cannotTell <==> Transparent(c)
    ensures !cannotTell ==> visited == TreeLoads(c)
    decreases c
  {
    hide OperandRoles, NamesLoadFile, HeadsLiteralLoad, LoadsAt;
    cannotTell, visited := true, [];
    if !c.scanned { return; }
    var lf := PoolIndexOf(c.constants, LOAD_FILE);
    var i := 0;
    while i < |c.code|
      invariant 0 <= i <= |c.code| && Decodes(c, i)
      invariant UsesAreLiteral(c, 0) <==> UsesAreLiteral(c, i)
      invariant LoadsFrom(c, 0) == visited + LoadsFrom(c, i)
    {
      var stuck, loads := ScanInstruction(c, i, lf);
      if stuck { return; }
      visited := visited + loads;
      i := EndOf(c.code, i);
    }
    var f := 0;
    while f < |c.functions|
      invariant 0 <= f <= |c.functions|
      invariant forall g :: 0 <= g < f ==> Transparent(c.functions[g])
      invariant TreeLoads(c) == visited + NestedLoads(c, f)
    {
      var stuck, nested := ScanStaticLoads(c.functions[f]);
      if stuck { return; }
      visited := visited + nested;
      f := f + 1;
    }
    cannotTell := false;
  }

  // ---- What a scan that can tell has told ----

  ghost predicate InTree(root: Chunk, u: Chunk) {
    root == u || exists f :: 0 <= f < |root.functions| && InTree(root.functions[f], u)
  }

  /** Every use of `load_file` in the unit heads a literal load. */
  ghost predicate AllUsesLiteral(u: Chunk) {
    forall i :: IsStart(u.code, i) && NamesLoadFile(u, i) ==> HeadsLiteralLoad(u, i)
  }

  /** Some instruction of the unit performs the load. */
  ghost predicate Performs(u: Chunk, l: Load) {
    exists i :: IsStart(u.code, i) && InstructionValid(u, i) && l in LoadsAt(u, i)
  }

  lemma {:induction false} WalkCoversStarts(c: Chunk, from: nat)
    requires Decodes(c, from)
    ensures UsesAreLiteral(c, from) <==>
      forall i :: Starts(c.code, from, i) && NamesLoadFile(c, i) ==> HeadsLiteralLoad(c, i)
    ensures forall l :: l in LoadsFrom(c, from) <==>
      exists i :: Starts(c.code, from, i) && InstructionValid(c, i) && l in LoadsAt(c, i)
    decreases |c.code| - from
  {
    hide OperandRoles, NamesLoadFile, HeadsLiteralLoad, LoadsAt;
    if from < |c.code| {
      var end := EndOf(c.code, from);
      WalkCoversStarts(c, end);
      StartsAreLater(c.code, end);
      assert Starts(c.code, from, from);
      assert forall i :: Starts(c.code, from, i) <==> i == from || Starts(c.code, end, i);
      assert forall l :: l in LoadsFrom(c, from) <==> l in LoadsAt(c, from) || l in LoadsFrom(c, end);
    }
  }

  /** The scan's verdict, unit by unit: it can tell exactly when every unit of the tree came
      from the compiler and every instruction in it that names `load_file` heads a literal load. */
  lemma {:induction false} TransparentMeansEveryUse(root: Chunk)
    requires Scannable(root)
    ensures Transparent(root) <==> forall u :: InTree(root, u) ==> u.scanned && AllUsesLiteral(u)
    decreases root
  {
    hide NamesLoadFile, HeadsLiteralLoad, Starts, Decodes;
    WalkCoversStarts(root, 0);
    assert UsesAreLiteral(root, 0) <==> AllUsesLiteral(root);
    forall f | 0 <= f < |root.functions|
      ensures Transparent(root.functions[f]) <==>
        forall u :: InTree(root.functions[f], u) ==> u.scanned && AllUsesLiteral(u)
    {
      TransparentMeansEveryUse(root.functions[f]);
    }
    assert InTree(root, root);
  }

  /** The visited loads are exactly those the instructions of the tree perform. */
  lemma {:induction false} TreeLoadsAreWhatInstructionsPerform(root: Chunk, l: Load)
    requires Scannable(root)
    ensures l in TreeLoads(root) <==> exists u :: InTree(root, u) && Performs(u, l)
    decreases root, 1, 0
  {
    hide Performs, Decodes, LoadsAt;
    NestedLoadsAreWhatInstructionsPerform(root, 0, l);
    assert l in LoadsFrom(root, 0) <==> Performs(root, l) by {
      PerformedFromStart(root, l);
    }
    assert InTree(root, root);
  }

  lemma PerformedFromStart(c: Chunk, l: Load)
    requires Decodes(c, 0)
    ensures l in LoadsFrom(c, 0) <==> Performs(c, l)
  {
    hide LoadsAt;
    WalkCoversStarts(c, 0);
  }

  lemma {:induction false} NestedLoadsAreWhatInstructionsPerform(root: Chunk, from: nat, l: Load)
    requires Scannable(root) && from <= |root.functions|
    ensures l in NestedLoads(root, from)
       <==> exists f, u :: from <= f < |root.functions| && InTree(root.functions[f], u) && Performs(u, l)
    decreases root, 0, |root.functions| - from
  {
    hide Performs, LoadsFrom, Decodes;
    if from < |root.functions| {
      TreeLoadsAreWhatInstructionsPerform(root.functions[from], l);
      NestedLoadsAreWhatInstructionsPerform(root, from + 1, l);
    }
  }
}
