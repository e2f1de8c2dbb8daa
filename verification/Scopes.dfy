/** Binding scopes over a token stream, as scope-aware rename sees them. */
module Scopes {
  import opened Basics

  datatype Kind =
    | Ident | Define | For | In | Local | Comma | Dot | Newline | Indent | Dedent
    | LParen | RParen | LBracket | RBracket | LBrace | RBrace | OtherToken
  {
    predicate Opens() { LParen? || LBracket? || LBrace? }
    predicate Closes() { RParen? || RBracket? || RBrace? }
  }

  // ---- Which tokens open scopes, and how far these reach ----
  // A token stream is its kinds and, position by position, its texts; all of this depends on the kinds alone.

  /** Bracket nesting just after token `i`; a closing bracket too many is ignored. */
  function BracketDepth(kinds: seq<Kind>, i: nat): nat
    requires i < |kinds|
  {
    var before := if i == 0 then 0 else BracketDepth(kinds, i - 1);
    if kinds[i].Opens() then before + 1
    else if kinds[i].Closes() && before > 0 then before - 1
    else before
  }

  /** A `define`, or a `for` that is not inside brackets, opens a scope. */
  predicate OpensScope(kinds: seq<Kind>, i: int) {
    0 <= i < |kinds| && (kinds[i].Define? || (kinds[i].For? && BracketDepth(kinds, i) == 0))
  }

  /** The first INDENT at or after `i`; the end of the stream if none. */
  function IndentFrom(kinds: seq<Kind>, i: nat): (k: nat)
    requires i <= |kinds|
    ensures i <= k <= |kinds|
    ensures k < |kinds| ==> kinds[k].Indent?
    ensures forall j :: i <= j < k ==> !kinds[j].Indent?
    decreases |kinds| - i
  {
    if i == |kinds| || kinds[i].Indent? then i else IndentFrom(kinds, i + 1)
  }

  /** One past the DEDENT that brings the indentation `depth` at `k` back to 0. */
  function DedentAfter(kinds: seq<Kind>, k: nat, depth: int): (e: nat)
    requires k <= |kinds|
    ensures k <= e <= |kinds|
    ensures e < |kinds| ==> k < e && kinds[e - 1].Dedent?
    decreases |kinds| - k
  {
    if k == |kinds| then k
    else if kinds[k].Indent? then DedentAfter(kinds, k + 1, depth + 1)
    else if kinds[k].Dedent? then if depth - 1 == 0 then k + 1 else DedentAfter(kinds, k + 1, depth - 1)
    else DedentAfter(kinds, k + 1, depth)
  }

  /** One past the last token of the scope opened at `i`. */
  function ScopeEnd(kinds: seq<Kind>, i: nat): (e: nat)
    requires i < |kinds|
    ensures IndentFrom(kinds, i) <= e <= |kinds|
    ensures e < |kinds| ==> 0 < e && kinds[e - 1].Dedent?
  {
    DedentAfter(kinds, IndentFrom(kinds, i), 0)
  }

  // ---- Headers: the tokens that name parameters and loop variables ----

  /** The first IN or NEWLINE at or after `j`; the end of the stream if none. */
  function HeaderStop(kinds: seq<Kind>, j: nat): (k: nat)
    requires j <= |kinds|
    ensures j <= k <= |kinds|
    decreases |kinds| - j
  {
    if j == |kinds| || kinds[j].In? || kinds[j].Newline? then j else HeaderStop(kinds, j + 1)
  }

  /** The identifiers in `lo..hi`. */
  function Idents(kinds: seq<Kind>, lo: nat, hi: nat): seq<nat>
    requires lo <= hi <= |kinds|
    decreases hi - lo
  {
    if lo == hi then [] else (if kinds[lo].Ident? then [lo] else []) + Idents(kinds, lo + 1, hi)
  }

  /** The parameter names of a parameter list from `j` on: the first identifier of each item, at
      bracket depth 0. `pending` says that the current item's name is still to come. */
  function ParamScan(kinds: seq<Kind>, j: nat, pending: bool, depth: int): seq<nat>
    requires j <= |kinds|
    decreases |kinds| - j
  {
    if j == |kinds| || (depth == 0 && kinds[j].RParen?) || kinds[j].Newline? then []
    else if kinds[j].Opens() then ParamScan(kinds, j + 1, pending, depth + 1)
    else if kinds[j].Closes() then ParamScan(kinds, j + 1, pending, depth - 1)
    else if depth == 0 && kinds[j].Comma? then ParamScan(kinds, j + 1, true, depth)
    else if depth == 0 && pending && kinds[j].Ident? then [j] + ParamScan(kinds, j + 1, false, depth)
    else ParamScan(kinds, j + 1, pending, depth)
  }

  /** Where the parameter list of the `define` at `i` may start: past the function's name. */
  function ListStart(kinds: seq<Kind>, i: nat): (j: nat)
    requires i < |kinds|
    ensures i < j <= |kinds|
  {
    if i + 1 < |kinds| && kinds[i + 1].Ident? then i + 2 else i + 1
  }

  /** The tokens that name parameters or loop variables of the scope opened at `i`. */
  function ParamTokens(kinds: seq<Kind>, i: nat): seq<nat>
    requires i < |kinds|
  {
    if kinds[i].Define? then
      var j := ListStart(kinds, i);
      if j < |kinds| && kinds[j].LParen? then ParamScan(kinds, j + 1, true, 0) else []
    else
      Idents(kinds, i + 1, HeaderStop(kinds, i + 1))
  }

  /** A `define` without parameters has the implicit parameter `n`. */
  predicate HasImplicitN(kinds: seq<Kind>, i: nat)
    requires i < |kinds|
  {
    kinds[i].Define? && ParamTokens(kinds, i) == []
  }

  /** The iterable of a `for`, between its `in` and its body: evaluated outside the scope. */
  predicate InIterable(kinds: seq<Kind>, i: nat, idx: int)
    requires i < |kinds|
  {
    && kinds[i].For?
    && HeaderStop(kinds, i + 1) < |kinds| && kinds[HeaderStop(kinds, i + 1)].In?
    && HeaderStop(kinds, i + 1) + 1 <= idx < IndentFrom(kinds, i)
  }

  /** The innermost scope around token `m`, searching down from `t`; -1 if none. */
  function InnermostFrom(kinds: seq<Kind>, m: nat, t: int): (r: int)
    requires m < |kinds| && -1 <= t <= m
    ensures -1 <= r <= t
    ensures r >= 0 ==> OpensScope(kinds, r) && m < ScopeEnd(kinds, r)
    ensures forall u :: r < u <= t ==> !(OpensScope(kinds, u) && m < ScopeEnd(kinds, u))
    decreases t
  {
    if t < 0 || (OpensScope(kinds, t) && m < ScopeEnd(kinds, t)) then t else InnermostFrom(kinds, m, t - 1)
  }

  function Innermost(kinds: seq<Kind>, m: nat): int
    requires m < |kinds|
  {
    InnermostFrom(kinds, m, m)
  }

  // ---- Bindings ----

  predicate IsParam(kinds: seq<Kind>, names: seq<string>, i: nat, x: string)
    requires |kinds| == |names| && i < |kinds|
  {
    (HasImplicitN(kinds, i) && x == "n")
    || exists j :: j in ParamTokens(kinds, i) && j < |names| && names[j] == x
  }

  /** Token `m` is a `local` that declares the identifier after it in the scope opened at `i`. */
  predicate DeclaresLocal(kinds: seq<Kind>, i: int, m: int) {
    0 <= m && m + 1 < |kinds| && kinds[m].Local? && kinds[m + 1].Ident? && Innermost(kinds, m) == i
  }

  /** The first declaration of local `x` of the scope opened at `i` among the tokens before `m`. */
  function FirstLocal(kinds: seq<Kind>, names: seq<string>, i: nat, x: string, m: nat): (r: Option<nat>)
    requires |kinds| == |names| && m < |kinds|
    ensures r.Some? ==> 0 < r.value <= m && DeclaresLocal(kinds, i, r.value - 1) && names[r.value] == x
    ensures forall u :: 0 <= u < m && DeclaresLocal(kinds, i, u) && names[u + 1] == x ==> r.Some? && r.value <= u + 1
    decreases m
  {
    if m == 0 then None else
    var before := FirstLocal(kinds, names, i, x, m - 1);
    if before.Some? then before
    else if DeclaresLocal(kinds, i, m - 1) && names[m] == x then Some(m)
    else None
  }

  /** Where the binding of `x` in the scope opened at `i` takes effect, if it binds `x`: at its
      start for a parameter, else at the first declaration of a local. */
  function BindingOf(kinds: seq<Kind>, names: seq<string>, i: nat, x: string): Option<nat>
    requires |kinds| == |names| && i < |kinds|
  {
    if IsParam(kinds, names, i, x) then Some(i) else FirstLocal(kinds, names, i, x, |kinds| - 1)
  }

  /** A scope is opened at `i`, and its bindings reach token `idx`. */
  predicate Reaches(kinds: seq<Kind>, i: int, idx: int) {
    OpensScope(kinds, i) && i <= idx < ScopeEnd(kinds, i) && !InIterable(kinds, i, idx)
  }

  /** The scope opened at `i` binds `x` for a reference at `idx`. */
  predicate Binds(kinds: seq<Kind>, names: seq<string>, i: int, idx: nat, x: string)
    requires |kinds| == |names|
  {
    && Reaches(kinds, i, idx)
    && BindingOf(kinds, names, i, x).Some? && BindingOf(kinds, names, i, x).value <= idx
  }

  /** A binding's identity: the scope, by its opening token, and where the binding takes effect.
      No binding means the global one. */
  type Binding = Option<(nat, nat)>

  function ResolveFrom(kinds: seq<Kind>, names: seq<string>, idx: nat, x: string, t: int): (b: Binding)
    requires |kinds| == |names| && idx < |kinds| && -1 <= t <= idx
    ensures b.Some? ==> b.value.0 <= t && Binds(kinds, names, b.value.0, idx, x)
    ensures b.Some? ==> BindingOf(kinds, names, b.value.0, x) == Some(b.value.1)
    ensures b.Some? ==> forall u :: b.value.0 < u <= t ==> !Binds(kinds, names, u, idx, x)
    ensures b.None? ==> forall u :: 0 <= u <= t ==> !Binds(kinds, names, u, idx, x)
    decreases t
  {
    if t < 0 then None
    else if Binds(kinds, names, t, idx, x) then Some((t, BindingOf(kinds, names, t, x).value))
    else ResolveFrom(kinds, names, idx, x, t - 1)
  }

  /** The binding a reference to `x` at `idx` resolves to: the innermost scope that binds it there. */
  function Resolve(kinds: seq<Kind>, names: seq<string>, idx: nat, x: string): Binding
    requires |kinds| == |names| && idx < |kinds|
  {
    ResolveFrom(kinds, names, idx, x, idx)
  }

  /** `b` is the resolution: it binds, and nothing further in does. */
  lemma ResolutionUnique(kinds: seq<Kind>, names: seq<string>, idx: nat, x: string, i: nat)
    requires |kinds| == |names| && idx < |kinds| && i <= idx && Binds(kinds, names, i, idx, x)
    requires forall u :: i < u <= idx ==> !Binds(kinds, names, u, idx, x)
    ensures Resolve(kinds, names, idx, x) == Some((i, BindingOf(kinds, names, i, x).value))
  {
    hide Binds, BindingOf;
    var b := Resolve(kinds, names, idx, x);
  }
}
