/** The language server's scope tables and rename handler, as loops over the token stream. */
module RenameHandler {
  import opened Basics
  import opened Scopes
  import opened Rename

  datatype Bind = Bind(name: string, from: nat)

  /** A scope's token range, the range its bindings do not cover, and its bindings. */
  datatype Scope = Scope(start: nat, end: nat, exclLo: int, exclHi: int, binds: seq<Bind>)

  // ---- Binding lists ----

  ghost predicate Distinct(binds: seq<Bind>) {
    forall a, b :: 0 <= a < b < |binds| ==> binds[a].name != binds[b].name
  }

  /** Where the list says `x` takes effect. */
  function Lookup(binds: seq<Bind>, x: string): Option<nat> {
    if binds == [] then None
    else if binds[|binds| - 1].name == x then Some(binds[|binds| - 1].from)
    else Lookup(binds[..|binds| - 1], x)
  }

  lemma {:induction false} LookupAt(binds: seq<Bind>, b: nat)
    requires Distinct(binds) && b < |binds|
    ensures Lookup(binds, binds[b].name) == Some(binds[b].from)
  {
    if b < |binds| - 1 {
      LookupAt(binds[..|binds| - 1], b);
    }
  }

  lemma {:induction false} LookupNone(binds: seq<Bind>, x: string)
    requires forall b :: 0 <= b < |binds| ==> binds[b].name != x
    ensures Lookup(binds, x) == None
  {
    if binds != [] {
      LookupNone(binds[..|binds| - 1], x);
    }
  }

  method Find(binds: seq<Bind>, x: string) returns (at: nat)
    ensures at <= |binds| && (at < |binds| ==> binds[at].name == x)
    ensures forall b :: 0 <= b < at ==> binds[b].name != x
  {
    at := 0;
    while at < |binds|
      invariant at <= |binds| && forall b :: 0 <= b < at ==> binds[b].name != x
    {
      if binds[at].name == x { return; }
      at := at + 1;
    }
  }

  /** Add a parameter, unless the name is bound already. */
  method AddParam(binds: seq<Bind>, x: string, from: nat) returns (r: seq<Bind>)
    requires Distinct(binds)
    ensures Distinct(r)
    ensures forall y :: Lookup(r, y) == if y == x && Lookup(binds, x).None? then Some(from) else Lookup(binds, y)
  {
    var at := Find(binds, x);
    if at < |binds| {
      LookupAt(binds, at);
      return binds;
    }
    LookupNone(binds, x);
    r := binds + [Bind(x, from)];
    assert r[..|binds|] == binds;
  }

  /** Add a local, effective from its earliest declaration. */
  method AddLocal(binds: seq<Bind>, x: string, decl: nat) returns (r: seq<Bind>)
    requires Distinct(binds)
    ensures Distinct(r)
    ensures forall y :: y != x ==> Lookup(r, y) == Lookup(binds, y)
    ensures Lookup(r, x) == match Lookup(binds, x)
      case None => Some(decl)
      case Some(from) => Some(if decl < from then decl else from)
  {
    var at := Find(binds, x);
    if at < |binds| {
      LookupAt(binds, at);
      if decl >= binds[at].from { return binds; }
      r := binds[at := Bind(x, decl)];
      forall y ensures Lookup(r, y) == if y == x then Some(decl) else Lookup(binds, y) {
        LookupUpdated(binds, at, decl, y);
      }
      return;
    }
    LookupNone(binds, x);
    r := binds + [Bind(x, decl)];
    assert r[..|binds|] == binds;
  }

  lemma {:induction false} LookupUpdated(binds: seq<Bind>, at: nat, from: nat, y: string)
    requires Distinct(binds) && at < |binds|
    ensures Lookup(binds[at := Bind(binds[at].name, from)], y) ==
      if y == binds[at].name then Some(from) else Lookup(binds, y)
  {
    var r, last := binds[at := Bind(binds[at].name, from)], |binds| - 1;
    if at == last {
      assert r[..last] == binds[..last];
    } else {
      assert r[..last] == binds[..last][at := Bind(binds[at].name, from)];
      LookupUpdated(binds[..last], at, from, y);
    }
  }

  // ---- Parameters ----

  /** The list binds exactly the names that the tokens `found` spell, all from `start`. */
  ghost predicate BindsNames(binds: seq<Bind>, names: seq<string>, found: seq<nat>, start: nat) {
    && Distinct(binds)
    && (forall j :: j in found ==> j < |names|)
    && forall x :: Lookup(binds, x) == if exists j :: j in found && names[j] == x then Some(start) else None
  }

  lemma BindsOneMore(binds: seq<Bind>, names: seq<string>, found: seq<nat>, start: nat, j: nat, r: seq<Bind>)
    requires BindsNames(binds, names, found, start) && j < |names| && Distinct(r)
    requires forall y :: (
      Lookup(r, y) == if y == names[j] && Lookup(binds, names[j]).None? then Some(start) else Lookup(binds, y))
    ensures BindsNames(r, names, found + [j], start)
  {
    assert forall k :: k in found + [j] <==> k in found || k == j;
  }

  /** The parameters of a `define`, whose list may start at `from`. */
  method ScanParams(kinds: seq<Kind>, names: seq<string>, start: nat, from: nat) returns (binds: seq<Bind>, count: nat)
    requires |kinds| == |names| && from <= |kinds|
    ensures var found := ParamScan(kinds, from, true, 0);
      BindsNames(binds, names, found, start) && count == |found|
  {
    hide Lookup, Distinct, BindsNames;
    ghost var found: seq<nat> := [];
    binds, count := [], 0;
    EmptyBinds(names, start);
    var j, pending, depth := from, true, 0;
    while j < |kinds| && !(depth == 0 && kinds[j].RParen?) && !kinds[j].Newline?
      invariant from <= j <= |kinds| && count == |found|
      invariant BindsNames(binds, names, found, start)
      invariant ParamScan(kinds, from, true, 0) == found + ParamScan(kinds, j, pending, depth)
    {
      if kinds[j].Opens() { depth := depth + 1; }
      else if kinds[j].Closes() { depth := depth - 1; }
      else if depth == 0 && kinds[j].Comma? { pending := true; }
      else if depth == 0 && pending && kinds[j].Ident? {
        DistinctNames(binds, names, found, start);
        var r := AddParam(binds, names[j], start);
        BindsOneMore(binds, names, found, start, j, r);
        binds, found, count, pending := r, found + [j], count + 1, false;
      }
      j := j + 1;
    }
    assert ParamScan(kinds, from, true, 0) == found;
  }

  lemma EmptyBinds(names: seq<string>, start: nat)
    ensures BindsNames([], names, [], start)
  {
  }

  lemma DistinctNames(binds: seq<Bind>, names: seq<string>, found: seq<nat>, start: nat)
    requires BindsNames(binds, names, found, start)
    ensures Distinct(binds)
  {
  }

  /** The variables of a `for`, up to its `in`. */
  method ScanLoopVars(kinds: seq<Kind>, names: seq<string>, start: nat) returns (binds: seq<Bind>, stop: nat)
    requires |kinds| == |names| && start < |kinds|
    ensures stop == HeaderStop(kinds, start + 1)
    ensures BindsNames(binds, names, Idents(kinds, start + 1, stop), start)
  {
    hide Lookup, Distinct, BindsNames;
    ghost var found: seq<nat> := [];
    binds := [];
    EmptyBinds(names, start);
    ghost var end := HeaderStop(kinds, start + 1);
    stop := start + 1;
    while stop < |kinds| && !kinds[stop].In? && !kinds[stop].Newline?
      invariant start < stop <= end && end == HeaderStop(kinds, stop)
      invariant BindsNames(binds, names, found, start)
      invariant Idents(kinds, start + 1, end) == found + Idents(kinds, stop, end)
    {
      if kinds[stop].Ident? {
        DistinctNames(binds, names, found, start);
        var r := AddParam(binds, names[stop], start);
        BindsOneMore(binds, names, found, start, stop, r);
        binds, found := r, found + [stop];
      }
      stop := stop + 1;
    }
    assert Idents(kinds, start + 1, end) == found;
  }

  // ---- The scope table ----

  /** The entry for the scope opened at its start: its range, and what it binds by its header
      and by the locals declared before token `m`. */
  ghost predicate Describes(kinds: seq<Kind>, names: seq<string>, s: Scope, m: nat)
    requires |kinds| == |names| && m < |kinds|
  {
    && OpensScope(kinds, s.start) && s.end == ScopeEnd(kinds, s.start)
    && (forall idx :: s.exclLo <= idx < s.exclHi <==> InIterable(kinds, s.start, idx))
    && Distinct(s.binds)
    && forall x :: Lookup(s.binds, x) == BoundBefore(kinds, names, s.start, x, m)
  }

  ghost function BoundBefore(kinds: seq<Kind>, names: seq<string>, i: nat, x: string, m: nat): Option<nat>
    requires |kinds| == |names| && i < |kinds| && m < |kinds|
  {
    if IsParam(kinds, names, i, x) then Some(i) else FirstLocal(kinds, names, i, x, m)
  }

  /** The table describes the scopes opened before `i`, in order, and no others. */
  ghost predicate Tabulates(kinds: seq<Kind>, names: seq<string>, scopes: seq<Scope>, i: nat, m: nat)
    requires |kinds| == |names| && m < |kinds|
  {
    && (forall k :: 0 <= k < |scopes| ==> Describes(kinds, names, scopes[k], m) && scopes[k].start < i)
    && (forall k, l :: 0 <= k < l < |scopes| ==> scopes[k].start < scopes[l].start)
    && (forall t :: 0 <= t < i && OpensScope(kinds, t) ==> exists k :: 0 <= k < |scopes| && scopes[k].start == t)
  }

  /** Build the entry for the scope opened at `i`, without its locals. */
  method OpenScope(kinds: seq<Kind>, names: seq<string>, i: nat) returns (s: Scope)
    requires |kinds| == |names| && OpensScope(kinds, i)
    ensures s.start == i && Describes(kinds, names, s, 0)
  {
    var binds: seq<Bind>;
    var exclLo: int, exclHi: int := -1, -1;
    var body := FindIndent(kinds, i);
    if kinds[i].Define? {
      binds := DefineParams(kinds, names, i);
    } else {
      var stop;
      binds, stop := ScanLoopVars(kinds, names, i);
      LoopVarsBound(kinds, names, i, binds);
      if stop < |kinds| && kinds[stop].In? {
        exclLo, exclHi := stop + 1, body;
      }
    }
    var end := FindScopeEnd(kinds, body);
    s := Scope(i, end, exclLo, exclHi, binds);
  }

  method FindIndent(kinds: seq<Kind>, i: nat) returns (k: nat)
    requires i <= |kinds|
    ensures k == IndentFrom(kinds, i)
  {
    k := i;
    while k < |kinds| && !kinds[k].Indent?
      invariant i <= k <= |kinds| && IndentFrom(kinds, k) == IndentFrom(kinds, i)
    {
      k := k + 1;
    }
  }

  method FindScopeEnd(kinds: seq<Kind>, body: nat) returns (k: nat)
    requires body <= |kinds|
    ensures k == DedentAfter(kinds, body, 0)
  {
    k := body;
    var depth := 0;
    while k < |kinds|
      invariant body <= k <= |kinds| && DedentAfter(kinds, k, depth) == DedentAfter(kinds, body, 0)
    {
      if kinds[k].Indent? {
        depth := depth + 1;
      } else if kinds[k].Dedent? {
        depth := depth - 1;
        if depth == 0 { return k + 1; }
      }
      k := k + 1;
    }
  }

  method DefineParams(kinds: seq<Kind>, names: seq<string>, i: nat) returns (binds: seq<Bind>)
    requires |kinds| == |names| && i < |kinds| && kinds[i].Define?
    ensures Distinct(binds)
    ensures forall x :: Lookup(binds, x) == if IsParam(kinds, names, i, x) then Some(i) else None
  {
    hide Lookup, ParamScan;
    var j: nat, count: nat := i + 1, 0;
    EmptyBinds(names, i);
    binds := [];
    if j < |kinds| && kinds[j].Ident? { j := j + 1; }
    if j < |kinds| && kinds[j].LParen? {
      binds, count := ScanParams(kinds, names, i, j + 1);
    }
    assert BindsNames(binds, names, ParamTokens(kinds, i), i) && count == |ParamTokens(kinds, i)|;
    if count == 0 {
      binds := AddParam(binds, "n", i);
    }
  }

  lemma LoopVarsBound(kinds: seq<Kind>, names: seq<string>, i: nat, binds: seq<Bind>)
    requires |kinds| == |names| && i < |kinds| && !kinds[i].Define?
    requires BindsNames(binds, names, ParamTokens(kinds, i), i)
    ensures Distinct(binds)
    ensures forall x :: Lookup(binds, x) == if IsParam(kinds, names, i, x) then Some(i) else None
  {
  }

  /** Build the scope table: the scopes in order of their keywords, then the locals of each. */
  method BuildScopes(kinds: seq<Kind>, names: seq<string>) returns (scopes: seq<Scope>)
    requires |kinds| == |names| && kinds != []
    ensures Tabulates(kinds, names, scopes, |kinds|, |kinds| - 1)
  {
    hide Describes, BracketDepth, ScopeEnd, IsParam, InIterable, Distinct;
    var bracketDepth: nat := 0;
    scopes := [];
    var i := 0;
    while i < |kinds|
      invariant 0 <= i <= |kinds|
      invariant bracketDepth == if i == 0 then 0 else BracketDepth(kinds, i - 1)
      invariant Tabulates(kinds, names, scopes, i, 0)
    {
      BracketStep(kinds, i);
      if kinds[i].Opens() { bracketDepth := bracketDepth + 1; }
      else if kinds[i].Closes() {
        if bracketDepth > 0 { bracketDepth := bracketDepth - 1; }
      }
      if kinds[i].Define? || (kinds[i].For? && bracketDepth == 0) {
        var s := OpenScope(kinds, names, i);
        TabulateOneMore(kinds, names, scopes, i, s);
        scopes := scopes + [s];
      }
      i := i + 1;
    }
    var m := 0;
    while m + 1 < |kinds|
      invariant 0 <= m < |kinds|
      invariant Tabulates(kinds, names, scopes, |kinds|, m)
    {
      ghost var before := scopes;
      if kinds[m].Local? && kinds[m + 1].Ident? {
        var s := FindInnermost(kinds, names, scopes, m);
        if s >= 0 {
          assert Distinct(scopes[s].binds) by { DescribedDistinct(kinds, names, scopes[s], m); }
          var binds := AddLocal(scopes[s].binds, names[m + 1], m + 1);
          scopes := scopes[s := scopes[s].(binds := binds)];
          LocalAdded(kinds, names, before[s], m, binds);
        }
      }
      forall k | 0 <= k < |scopes|
        ensures Describes(kinds, names, scopes[k], m + 1) && scopes[k].start == before[k].start
      {
        if scopes[k] == before[k] && !(DeclaresLocal(kinds, before[k].start, m)) {
          NoLocalAdded(kinds, names, before[k], m);
        }
      }
      m := m + 1;
    }
  }

  lemma TabulateOneMore(kinds: seq<Kind>, names: seq<string>, scopes: seq<Scope>, i: nat, s: Scope)
    requires |kinds| == |names| && i < |kinds| && Tabulates(kinds, names, scopes, i, 0)
    requires Describes(kinds, names, s, 0) && s.start == i
    ensures Tabulates(kinds, names, scopes + [s], i + 1, 0)
  {
    hide Describes, OpensScope;
    var all := scopes + [s];
    assert all[|scopes|].start == i;
    forall t | 0 <= t < i + 1 && OpensScope(kinds, t) ensures exists k :: 0 <= k < |all| && all[k].start == t {
      if t < i {
        var k :| 0 <= k < |scopes| && scopes[k].start == t;
        assert all[k].start == t;
      }
    }
  }

  lemma BracketStep(kinds: seq<Kind>, i: nat)
    requires i < |kinds|
    ensures var before := if i == 0 then 0 else BracketDepth(kinds, i - 1);
      BracketDepth(kinds, i) == if kinds[i].Opens() then before + 1
                                else if kinds[i].Closes() && before > 0 then before - 1 else before
  {
  }

  lemma DescribedDistinct(kinds: seq<Kind>, names: seq<string>, s: Scope, m: nat)
    requires |kinds| == |names| && m < |kinds| && Describes(kinds, names, s, m)
    ensures Distinct(s.binds)
  {
  }

  lemma NoLocalAdded(kinds: seq<Kind>, names: seq<string>, s: Scope, m: nat)
    requires |kinds| == |names| && m + 1 < |kinds| && Describes(kinds, names, s, m)
    requires !DeclaresLocal(kinds, s.start, m)
    ensures Describes(kinds, names, s, m + 1)
  {
    hide IsParam, InIterable, DeclaresLocal;
  }

  lemma LocalAdded(kinds: seq<Kind>, names: seq<string>, s: Scope, m: nat, binds: seq<Bind>)
    requires |kinds| == |names| && m + 1 < |kinds| && Describes(kinds, names, s, m)
    requires DeclaresLocal(kinds, s.start, m) && Distinct(binds)
    requires forall y :: y != names[m + 1] ==> Lookup(binds, y) == Lookup(s.binds, y)
    requires Lookup(binds, names[m + 1]) == match Lookup(s.binds, names[m + 1])
      case None => Some(m + 1)
      case Some(from) => Some(if m + 1 < from then m + 1 else from)
    ensures Describes(kinds, names, s.(binds := binds), m + 1)
  {
    hide IsParam, InIterable, DeclaresLocal, Lookup, Distinct;
    var x := names[m + 1];
    assert Lookup(s.binds, x) == BoundBefore(kinds, names, s.start, x, m);
    if IsParam(kinds, names, s.start, x) { StartsBefore(kinds, s.start, m); }
  }

  lemma StartsBefore(kinds: seq<Kind>, i: nat, m: nat)
    requires DeclaresLocal(kinds, i, m)
    ensures i <= m
  {
  }

  /** The innermost scope around token `m`: the index of its entry, or -1. */
  method FindInnermost(kinds: seq<Kind>, names: seq<string>, scopes: seq<Scope>, m: nat) returns (best: int)
    requires |kinds| == |names| && m < |kinds| && Tabulates(kinds, names, scopes, |kinds|, m)
    ensures -1 <= best < |scopes|
    ensures best == -1 ==> Innermost(kinds, m) == -1
    ensures best >= 0 ==> Innermost(kinds, m) == scopes[best].start
  {
    hide Tabulates, Innermost;
    best := -1;
    var bestStart: int := -1;
    var s := 0;
    while s < |scopes|
      invariant 0 <= s <= |scopes| && -1 <= best < s
      invariant bestStart == if best == -1 then -1 else scopes[best].start
      invariant best >= 0 ==> scopes[best].start <= m < scopes[best].end
      invariant forall k :: 0 <= k < s && scopes[k].start <= m < scopes[k].end ==> scopes[k].start <= bestStart
    {
      if scopes[s].start <= m < scopes[s].end && scopes[s].start > bestStart {
        best, bestStart := s, scopes[s].start;
      }
      s := s + 1;
    }
    BestIsInnermost(kinds, names, scopes, m, best);
  }

  /** The scope around `m` that starts last is the innermost one. */
  lemma BestIsInnermost(kinds: seq<Kind>, names: seq<string>, scopes: seq<Scope>, m: nat, best: int)
    requires |kinds| == |names| && m < |kinds| && Tabulates(kinds, names, scopes, |kinds|, m)
    requires -1 <= best < |scopes| && (best >= 0 ==> scopes[best].start <= m < scopes[best].end)
    requires forall k :: 0 <= k < |scopes| && scopes[k].start <= m < scopes[k].end ==>
      best >= 0 && scopes[k].start <= scopes[best].start
    ensures Innermost(kinds, m) == if best == -1 then -1 else scopes[best].start
  {
    hide BracketDepth, ScopeEnd, IsParam, InIterable, Distinct, Lookup, BoundBefore;
    if best >= 0 { assert Describes(kinds, names, scopes[best], m); }
    var r := Innermost(kinds, m);
    if r >= 0 {
      var k :| 0 <= k < |scopes| && scopes[k].start == r;
      assert Describes(kinds, names, scopes[k], m);
    }
  }

  // ---- Resolution and the handler ----

  /** Resolve `x` at `idx` against the table: the scope's index and where the binding takes
      effect, or -1, -1 for the global binding. */
  method ResolveBinding(kinds: seq<Kind>, names: seq<string>, scopes: seq<Scope>, idx: nat, x: string)
    returns (scope: int, from: int)
    requires |kinds| == |names| && idx < |kinds| && Tabulates(kinds, names, scopes, |kinds|, |kinds| - 1)
    ensures match Resolve(kinds, names, idx, x)
      case None => scope == from == -1
      case Some((i, f)) => 0 <= scope < |scopes| && scopes[scope].start == i && from == f
  {
    hide BracketDepth, ScopeEnd, IsParam, InIterable, Distinct, Lookup, Describes, BindingOf, Resolve;
    scope, from := -1, -1;
    var bestStart: int := -1;
    var s := 0;
    while s < |scopes|
      invariant 0 <= s <= |scopes| && -1 <= scope < s
      invariant scope == -1 ==> from == bestStart == -1
      invariant scope >= 0 ==> bestStart == scopes[scope].start && Binds(kinds, names, bestStart, idx, x)
      invariant scope >= 0 ==> BindingOf(kinds, names, bestStart, x) == Some(from)
      invariant forall k :: 0 <= k < s && Binds(kinds, names, scopes[k].start, idx, x) ==> scopes[k].start <= bestStart
    {
      DescribedBinds(kinds, names, scopes[s], idx, x);
      var effective := EffectiveIn(scopes[s], idx, x);
      if effective >= 0 && scopes[s].start > bestStart {
        scope, from, bestStart := s, effective, scopes[s].start;
      }
      s := s + 1;
    }
    Resolved(kinds, names, idx, x);
    if scope >= 0 {
      forall u | bestStart < u <= idx ensures !Binds(kinds, names, u, idx, x) {
        TabulatedIfBinds(kinds, names, scopes, u, idx, x);
      }
      assert bestStart <= idx by { assert Binds(kinds, names, bestStart, idx, x); }
      ResolutionUnique(kinds, names, idx, x, bestStart);
    } else if Resolve(kinds, names, idx, x).Some? {
      TabulatedIfBinds(kinds, names, scopes, Resolve(kinds, names, idx, x).value.0, idx, x);
    }
  }

  lemma TabulatedIfBinds(kinds: seq<Kind>, names: seq<string>, scopes: seq<Scope>, u: int, idx: nat, x: string)
    requires |kinds| == |names| && idx < |kinds| && Tabulates(kinds, names, scopes, |kinds|, |kinds| - 1)
    ensures Binds(kinds, names, u, idx, x) ==> exists k :: 0 <= k < |scopes| && scopes[k].start == u
  {
  }

  /** Where `x` takes effect in the scope for a reference at `idx`; -1 if it does not. */
  method EffectiveIn(s: Scope, idx: nat, x: string) returns (from: int)
    requires Distinct(s.binds)
    ensures var inRange := s.start <= idx < s.end && !(s.exclLo <= idx < s.exclHi);
      var bound := Lookup(s.binds, x);
      from == if inRange && bound.Some? && bound.value <= idx then bound.value else -1
  {
    from := -1;
    if !(s.start <= idx < s.end) { return; }
    if s.exclLo <= idx < s.exclHi { return; }
    var b := 0;
    while b < |s.binds|
      invariant 0 <= b <= |s.binds|
      invariant
        var bound := Lookup(s.binds[..b], x);
        from == if bound.Some? && bound.value <= idx then bound.value else -1
    {
      if s.binds[b].name == x { LookupPrefix(s.binds, b, x); }
      assert s.binds[..b + 1][..b] == s.binds[..b];
      if s.binds[b].name == x && s.binds[b].from <= idx { from := s.binds[b].from; }
      b := b + 1;
    }
    assert s.binds[..b] == s.binds;
  }

  lemma LookupPrefix(binds: seq<Bind>, b: nat, x: string)
    requires Distinct(binds) && b < |binds| && binds[b].name == x
    ensures Lookup(binds[..b], x) == None
  {
    LookupNone(binds[..b], x);
  }

  lemma DescribedBinds(kinds: seq<Kind>, names: seq<string>, s: Scope, idx: nat, x: string)
    requires |kinds| == |names| && idx < |kinds| && Describes(kinds, names, s, |kinds| - 1)
    ensures Distinct(s.binds)
    ensures var inRange := s.start <= idx < s.end && !(s.exclLo <= idx < s.exclHi);
      var bound := Lookup(s.binds, x);
      && (Binds(kinds, names, s.start, idx, x) <==> inRange && bound.Some? && bound.value <= idx)
      && BindingOf(kinds, names, s.start, x) == bound
  {
    hide BracketDepth, ScopeEnd, IsParam, InIterable;
    assert Lookup(s.binds, x) == BoundBefore(kinds, names, s.start, x, |kinds| - 1);
  }

  /** The rename: the tokens to edit, in order, for the binding the cursor stands on. */
  method RenameEdits(kinds: seq<Kind>, names: seq<string>, cursor: nat) returns (edits: seq<nat>)
    requires |kinds| == |names| && cursor < |kinds| && kinds[cursor].Ident?
    ensures forall a, b :: 0 <= a < b < |edits| ==> edits[a] < edits[b]
    ensures var oldName := names[cursor];
      forall j :: j in edits <==> Edited(kinds, names, oldName, Resolve(kinds, names, cursor, oldName), j)
  {
    hide Resolve, Tabulates;
    var oldName := names[cursor];
    var scopes := BuildScopes(kinds, names);
    var cursorScope, cursorFrom := ResolveBinding(kinds, names, scopes, cursor, oldName);
    ghost var b := Resolve(kinds, names, cursor, oldName);
    edits := [];
    var j := 0;
    while j < |kinds|
      invariant 0 <= j <= |kinds|
      invariant forall k :: k in edits <==> k < j && Edited(kinds, names, oldName, b, k)
      invariant forall a :: 0 <= a < |edits| ==> edits[a] < j
      invariant forall a, c :: 0 <= a < c < |edits| ==> edits[a] < edits[c]
    {
      if kinds[j].Ident? && names[j] == oldName && !(j > 0 && kinds[j - 1].Dot?) {
        var scope, from := ResolveBinding(kinds, names, scopes, j, oldName);
        SameIdentity(kinds, names, scopes, scope, cursorScope);
        if scope == cursorScope && from == cursorFrom {
          edits := edits + [j];
        }
      }
      j := j + 1;
    }
  }

  /** Entries of the table are the same scope exactly when they start at the same token. */
  lemma SameIdentity(kinds: seq<Kind>, names: seq<string>, scopes: seq<Scope>, a: int, b: int)
    requires |kinds| == |names| && kinds != [] && Tabulates(kinds, names, scopes, |kinds|, |kinds| - 1)
    ensures 0 <= a < |scopes| && 0 <= b < |scopes| && scopes[a].start == scopes[b].start ==> a == b
  {
    hide Describes;
  }
}
