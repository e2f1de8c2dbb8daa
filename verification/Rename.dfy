/** When scope-aware rename is an alpha-renaming: it changes names, and neither bindings nor which names are one. */
module Rename {
  import opened Basics
  import opened Scopes

  // ---- The edits ----

  /** A member access: an identifier right after a dot. */
  predicate IsMember(kinds: seq<Kind>, j: int)
    requires 0 <= j < |kinds|
  {
    j > 0 && kinds[j - 1].Dot?
  }

  /** An identifier that stands for a binding. */
  predicate IsReference(kinds: seq<Kind>, j: int) {
    0 <= j < |kinds| && kinds[j].Ident? && !IsMember(kinds, j)
  }

  /** The tokens the rename edits: references spelled `oldName` that resolve to binding `b`. */
  predicate Edited(kinds: seq<Kind>, names: seq<string>, oldName: string, b: Binding, j: int)
    requires |kinds| == |names|
  {
    IsReference(kinds, j) && names[j] == oldName && Resolve(kinds, names, j, oldName) == b
  }

  /** The texts after the edits. */
  function Renamed(kinds: seq<Kind>, names: seq<string>, oldName: string, b: Binding, newName: string): (r: seq<string>)
    requires |kinds| == |names|
    ensures |r| == |names|
  {
    seq(|names|, j requires 0 <= j < |names| => if Edited(kinds, names, oldName, b, j) then newName else names[j])
  }

  /** What stands after a dot is never edited, nor is any token but identifiers spelled with the old name; what is
      edited is spelled with the new one. */
  lemma OthersStay(kinds: seq<Kind>, names: seq<string>, oldName: string, b: Binding, newName: string, j: nat)
    requires |kinds| == |names| && j < |kinds|
    ensures var after := Renamed(kinds, names, oldName, b, newName)[j];
      && (after == names[j] || after == newName)
      && (!kinds[j].Ident? || names[j] != oldName || (j > 0 && kinds[j - 1].Dot?) ==> after == names[j])
  {
    hide Resolve;
  }

  // ---- Well-formed token streams ----

  /** Tokens between a scope's keyword and its body open no scope and declare no local, and the
      names it declares there are no member accesses. */
  predicate HeaderClean(kinds: seq<Kind>, i: nat)
    requires i < |kinds|
  {
    && (forall j :: i < j < IndentFrom(kinds, i) ==> !OpensScope(kinds, j) && !kinds[j].Local?)
    && (forall j :: j in ParamTokens(kinds, i) ==>
      i < j < IndentFrom(kinds, i) && IsReference(kinds, j) && !InIterable(kinds, i, j))
  }

  predicate WellNested(kinds: seq<Kind>) {
    forall i :: 0 <= i < |kinds| && OpensScope(kinds, i) ==> HeaderClean(kinds, i)
  }

  // ---- Declarations resolve to what they declare ----

  lemma ParamResolvesToItself(kinds: seq<Kind>, names: seq<string>, i: nat, j: nat)
    requires |kinds| == |names| && WellNested(kinds) && i < |kinds| && OpensScope(kinds, i)
    requires j in ParamTokens(kinds, i)
    ensures IsReference(kinds, j) && Resolve(kinds, names, j, names[j]) == Some((i, i))
    ensures BindingOf(kinds, names, i, names[j]) == Some(i)
  {
    hide ParamTokens, BracketDepth, InIterable;
    assert HeaderClean(kinds, i);
    assert IsParam(kinds, names, i, names[j]);
    assert Binds(kinds, names, i, j, names[j]);
    assert forall u :: i < u <= j ==> !OpensScope(kinds, u);
    ResolutionUnique(kinds, names, j, names[j], i);
  }

  lemma LocalResolvesToItsScope(kinds: seq<Kind>, names: seq<string>, i: nat, m: nat)
    requires |kinds| == |names| && WellNested(kinds) && DeclaresLocal(kinds, i, m)
    ensures IsReference(kinds, m + 1)
    ensures BindingOf(kinds, names, i, names[m + 1]).Some?
    ensures Resolve(kinds, names, m + 1, names[m + 1]) == Some((i, BindingOf(kinds, names, i, names[m + 1]).value))
  {
    hide ParamTokens, BracketDepth, IsParam, ScopeEnd;
    var idx := m + 1;
    var x := names[idx];
    assert OpensScope(kinds, i) && i <= m < ScopeEnd(kinds, i);
    assert HeaderClean(kinds, i);
    assert m >= IndentFrom(kinds, i);
    assert Binds(kinds, names, i, idx, x);
    assert forall u :: i < u <= idx && OpensScope(kinds, u) ==> idx >= ScopeEnd(kinds, u);
    ResolutionUnique(kinds, names, idx, x, i);
  }

  // ---- What the edits do to bindings ----

  /** The same tokens name the parameters, so `x` is a parameter after the edits exactly when some
      token naming one is spelled `x` after them. */
  lemma ParamAfter(kinds: seq<Kind>, names: seq<string>, oldName: string, b: Binding, newName: string, i: nat,
                   x: string)
    requires |kinds| == |names| && WellNested(kinds) && i < |kinds| && OpensScope(kinds, i) && oldName != newName
    ensures var names' := Renamed(kinds, names, oldName, b, newName);
      IsParam(kinds, names', i, x) <==>
        if x == newName then
          IsParam(kinds, names, i, newName)
          || (b == Some((i, i)) && !HasImplicitN(kinds, i) && IsParam(kinds, names, i, oldName))
        else if x == oldName then IsParam(kinds, names, i, oldName) && (b != Some((i, i)) || HasImplicitN(kinds, i))
        else IsParam(kinds, names, i, x)
  {
    hide ParamTokens, BracketDepth, InIterable, Resolve, BindingOf;
    var names' := Renamed(kinds, names, oldName, b, newName);
    forall j | j in ParamTokens(kinds, i)
      ensures j < |names| && names'[j] == if names[j] == oldName && b == Some((i, i)) then newName else names[j]
    {
      assert HeaderClean(kinds, i);
      ParamResolvesToItself(kinds, names, i, j);
    }
  }

  /** The binding `b` is the one the scope opened at `i` gives `oldName`. */
  predicate Gives(kinds: seq<Kind>, names: seq<string>, i: nat, oldName: string, b: Binding)
    requires |kinds| == |names| && i < |kinds|
  {
    b.Some? && b.value.0 == i && BindingOf(kinds, names, i, oldName) == Some(b.value.1)
  }

  /** What the name in a local declaration is after the edits. */
  lemma LocalNameAfter(kinds: seq<Kind>, names: seq<string>, oldName: string, b: Binding, newName: string, i: nat,
                       m: nat)
    requires |kinds| == |names| && WellNested(kinds) && DeclaresLocal(kinds, i, m)
    ensures 0 <= i < |kinds| && m + 1 < |kinds|
    ensures Renamed(kinds, names, oldName, b, newName)[m + 1]
         == if names[m + 1] == oldName && Gives(kinds, names, i, oldName, b) then newName else names[m + 1]
  {
    hide ParamTokens, BracketDepth, InIterable, Resolve, IsParam, BindingOf;
    LocalResolvesToItsScope(kinds, names, i, m);
  }

  lemma FirstLocalStep(kinds: seq<Kind>, names: seq<string>, i: nat, x: string, m: nat)
    requires |kinds| == |names| && m < |kinds|
    ensures FirstLocal(kinds, names, i, x, m) ==
      if m == 0 then None
      else if FirstLocal(kinds, names, i, x, m - 1).Some? then FirstLocal(kinds, names, i, x, m - 1)
      else if DeclaresLocal(kinds, i, m - 1) && names[m] == x then Some(m)
      else None
  {
  }

  function Earlier(a: Option<nat>, b: Option<nat>): Option<nat> {
    if a.None? then b else if b.None? then a else Some(Min(a.value, b.value))
  }

  lemma {:induction false} LocalAfter(kinds: seq<Kind>, names: seq<string>, oldName: string, b: Binding,
                                      newName: string, i: nat, x: string, m: nat)
    requires |kinds| == |names| && WellNested(kinds) && m < |kinds| && i < |kinds| && oldName != newName
    ensures FirstLocal(kinds, Renamed(kinds, names, oldName, b, newName), i, x, m)
         == if x == newName && Gives(kinds, names, i, oldName, b) then
           Earlier(FirstLocal(kinds, names, i, oldName, m), FirstLocal(kinds, names, i, newName, m))
            else if x == oldName && Gives(kinds, names, i, oldName, b) then None
            else FirstLocal(kinds, names, i, x, m)
    decreases m
  {
    hide DeclaresLocal, Renamed, Gives, WellNested, FirstLocal;
    FirstLocalStep(kinds, Renamed(kinds, names, oldName, b, newName), i, x, m);
    FirstLocalStep(kinds, names, i, x, m);
    if x == newName {
      FirstLocalStep(kinds, names, i, oldName, m);
    }
    if m > 0 {
      LocalAfter(kinds, names, oldName, b, newName, i, x, m - 1);
      if DeclaresLocal(kinds, i, m - 1) {
        LocalNameAfter(kinds, names, oldName, b, newName, i, m - 1);
      }
    }
  }

  /** The binding belongs to a scope's implicit parameter, which no token declares. */
  predicate IsImplicit(kinds: seq<Kind>, oldName: string, b: Binding) {
    b.Some? && oldName == "n" && b.value.0 < |kinds| && HasImplicitN(kinds, b.value.0)
  }

  /** Every scope binds after the edits what it bound before, except that the scope of `b` no longer binds the old
      name, and binds the new one from where it bound either. */
  lemma BindingAfter(kinds: seq<Kind>, names: seq<string>, oldName: string, b: Binding, newName: string, i: nat,
                     x: string)
    requires |kinds| == |names| && WellNested(kinds) && i < |kinds| && OpensScope(kinds, i)
    requires oldName != newName && !IsImplicit(kinds, oldName, b)
    ensures var names' := Renamed(kinds, names, oldName, b, newName);
      BindingOf(kinds, names', i, x)
      == if x == newName && Gives(kinds, names, i, oldName, b) then
        Earlier(BindingOf(kinds, names, i, oldName), BindingOf(kinds, names, i, newName))
         else if x == oldName && Gives(kinds, names, i, oldName, b) then None
         else BindingOf(kinds, names, i, x)
  {
    hide ParamTokens, BracketDepth, InIterable, Resolve, DeclaresLocal, FirstLocal, IsParam, Renamed, HasImplicitN;
    ParamAfter(kinds, names, oldName, b, newName, i, x);
    LocalAfter(kinds, names, oldName, b, newName, i, x, |kinds| - 1);
    FirstLocalLater(kinds, names, i, oldName);
    FirstLocalLater(kinds, names, i, newName);
    if HasImplicitN(kinds, i) && IsParam(kinds, names, i, oldName) {
      ImplicitHasNoOther(kinds, names, i, oldName);
    }
  }

  /** The implicit parameter is the only one. */
  lemma ImplicitHasNoOther(kinds: seq<Kind>, names: seq<string>, i: nat, x: string)
    requires |kinds| == |names| && i < |kinds| && HasImplicitN(kinds, i) && IsParam(kinds, names, i, x)
    ensures x == "n"
  {
  }

  /** A local takes effect after its scope has started. */
  lemma FirstLocalLater(kinds: seq<Kind>, names: seq<string>, i: nat, x: string)
    requires |kinds| == |names| && i < |kinds|
    ensures var f := FirstLocal(kinds, names, i, x, |kinds| - 1); f.Some? ==> f.value > i
  {
  }

  // ---- What is to be kept, and when it is ----

  /** Every reference resolves after the edits to the binding it resolved to before. */
  ghost predicate KeepsBindings(kinds: seq<Kind>, names: seq<string>, names': seq<string>)
    requires |kinds| == |names| == |names'|
  {
    forall j :: 0 <= j < |kinds| && IsReference(kinds, j) ==>
      Resolve(kinds, names', j, names'[j]) == Resolve(kinds, names, j, names[j])
  }

  /** Two references are to one variable: the same name, bound by the same scope from the same place on. Parameters of
      one scope differ in their names only, and so do globals. */
  predicate SameVariable(kinds: seq<Kind>, names: seq<string>, j: nat, k: nat)
    requires |kinds| == |names| && j < |kinds| && k < |kinds|
  {
    names[j] == names[k] && Resolve(kinds, names, j, names[j]) == Resolve(kinds, names, k, names[k])
  }

  /** Alpha-renaming: bindings are kept, and references are to one variable after the edits if they were before. */
  ghost predicate KeepsVariables(kinds: seq<Kind>, names: seq<string>, names': seq<string>)
    requires |kinds| == |names| == |names'|
  {
    && KeepsBindings(kinds, names, names')
    && forall j: nat, k: nat :: j < |kinds| && k < |kinds| && IsReference(kinds, j) && IsReference(kinds, k) ==>
      (SameVariable(kinds, names, j, k) <==> SameVariable(kinds, names', j, k))
  }

  /** The scope of a binding; the global scope is outside all others. */
  function ScopeOf(b: Binding): int {
    if b.None? then -1 else b.value.0
  }

  /** Binding `b` is in effect at token `j`, though an inner one may hide it. */
  predicate Covers(kinds: seq<Kind>, b: Binding, j: nat) {
    b.None? || (Reaches(kinds, b.value.0, j) && b.value.1 <= j)
  }

  /** At token `j` the new name is not captured: a token to be edited stands where no scope from that of `b` inwards
      binds the new name, and a token spelled with the new name, where `b` is in effect, belongs to a scope further
      in. */
  predicate CaptureFreeAt(kinds: seq<Kind>, names: seq<string>, oldName: string, b: Binding, newName: string, j: nat)
    requires |kinds| == |names| && j < |kinds|
  {
    var s := Resolve(kinds, names, j, newName);
    && (Edited(kinds, names, oldName, b, j) ==> s.None? || s.value.0 < ScopeOf(b))
    && (names[j] == newName && Covers(kinds, b, j) ==> ScopeOf(s) > ScopeOf(b))
  }

  predicate CaptureFree(kinds: seq<Kind>, names: seq<string>, oldName: string, b: Binding, newName: string)
    requires |kinds| == |names|
  {
    forall j: nat :: j < |kinds| && IsReference(kinds, j) ==> CaptureFreeAt(kinds, names, oldName, b, newName, j)
  }

  // ---- Without capture, everything is kept ----

  /** What a resolution says. */
  lemma Resolved(kinds: seq<Kind>, names: seq<string>, j: nat, x: string)
    requires |kinds| == |names| && j < |kinds|
    ensures match Resolve(kinds, names, j, x)
      case None => forall u :: 0 <= u <= j ==> !Binds(kinds, names, u, j, x)
      case Some((i, f)) =>
        && i <= j && Binds(kinds, names, i, j, x) && BindingOf(kinds, names, i, x) == Some(f)
        && forall u :: i < u <= j ==> !Binds(kinds, names, u, j, x)
  {
  }

  /** `b` is the resolution if it binds, and nothing further in does. */
  lemma ResolvesTo(kinds: seq<Kind>, names: seq<string>, j: nat, x: string, b: Binding)
    requires |kinds| == |names| && j < |kinds|
    requires forall u :: ScopeOf(b) < u <= j ==> !Binds(kinds, names, u, j, x)
    requires b.Some? ==>
      && b.value.0 <= j && Binds(kinds, names, b.value.0, j, x)
      && BindingOf(kinds, names, b.value.0, x) == Some(b.value.1)
    ensures Resolve(kinds, names, j, x) == b
  {
    hide Binds, BindingOf;
    if b.Some? {
      ResolutionUnique(kinds, names, j, x, b.value.0);
    }
  }

  /** An edited reference resolves to the renamed binding. */
  lemma EditedKept(kinds: seq<Kind>, names: seq<string>, oldName: string, b: Binding, newName: string, j: nat)
    requires |kinds| == |names| && WellNested(kinds) && j < |kinds| && Edited(kinds, names, oldName, b, j)
    requires oldName != newName && !IsImplicit(kinds, oldName, b)
    requires CaptureFreeAt(kinds, names, oldName, b, newName, j)
    ensures Resolve(kinds, Renamed(kinds, names, oldName, b, newName), j, newName) == b
  {
    hide BindingOf, Reaches, Resolve, Renamed, WellNested, IsImplicit, IsReference;
    Resolved(kinds, names, j, oldName);
    Resolved(kinds, names, j, newName);
    var names' := Renamed(kinds, names, oldName, b, newName);
    forall u: nat | u <= j && Reaches(kinds, u, j)
      ensures BindingOf(kinds, names', u, newName)
           == if Gives(kinds, names, u, oldName, b)
              then Earlier(BindingOf(kinds, names, u, oldName), BindingOf(kinds, names, u, newName))
              else BindingOf(kinds, names, u, newName)
      ensures Binds(kinds, names', u, j, newName) ==>
        Gives(kinds, names, u, oldName, b) || Binds(kinds, names, u, j, newName)
    {
      ReachesMeans(kinds, u, j);
      BindingAfter(kinds, names, oldName, b, newName, u, newName);
    }
    assert b.Some? ==> !Binds(kinds, names, b.value.0, j, newName);
    ResolvesTo(kinds, names', j, newName, b);
  }

  lemma ReachesMeans(kinds: seq<Kind>, i: int, j: int)
    requires Reaches(kinds, i, j)
    ensures 0 <= i < |kinds| && OpensScope(kinds, i) && i <= j
  {
  }

  /** A reference spelled `oldName` that is to another binding still is. */
  lemma OldKept(kinds: seq<Kind>, names: seq<string>, oldName: string, b: Binding, newName: string, j: nat)
    requires |kinds| == |names| && WellNested(kinds) && j < |kinds| && Resolve(kinds, names, j, oldName) != b
    requires oldName != newName && !IsImplicit(kinds, oldName, b)
    ensures Resolve(kinds, Renamed(kinds, names, oldName, b, newName), j, oldName) == Resolve(kinds, names, j, oldName)
  {
    hide BindingOf, Reaches, Resolve, Renamed, WellNested, IsImplicit, IsReference;
    Resolved(kinds, names, j, oldName);
    var names' := Renamed(kinds, names, oldName, b, newName);
    forall u: nat | u <= j && Reaches(kinds, u, j)
      ensures BindingOf(kinds, names', u, oldName)
           == if Gives(kinds, names, u, oldName, b) then None else BindingOf(kinds, names, u, oldName)
      ensures Binds(kinds, names', u, j, oldName) ==> Binds(kinds, names, u, j, oldName)
    {
      ReachesMeans(kinds, u, j);
      BindingAfter(kinds, names, oldName, b, newName, u, oldName);
    }
    ResolvesTo(kinds, names', j, oldName, Resolve(kinds, names, j, oldName));
  }

  /** A reference spelled `newName` already is to what it was. */
  lemma NewKept(kinds: seq<Kind>, names: seq<string>, oldName: string, b: Binding, newName: string, j: nat)
    requires |kinds| == |names| && WellNested(kinds) && j < |kinds| && names[j] == newName
    requires oldName != newName && !IsImplicit(kinds, oldName, b)
    requires CaptureFreeAt(kinds, names, oldName, b, newName, j)
    ensures Resolve(kinds, Renamed(kinds, names, oldName, b, newName), j, newName) == Resolve(kinds, names, j, newName)
  {
    hide BindingOf, Reaches, Resolve, Renamed, WellNested, IsImplicit, IsReference;
    Resolved(kinds, names, j, newName);
    var names' := Renamed(kinds, names, oldName, b, newName);
    forall u: nat | u <= j && Reaches(kinds, u, j)
      ensures BindingOf(kinds, names', u, newName)
           == if Gives(kinds, names, u, oldName, b)
              then Earlier(BindingOf(kinds, names, u, oldName), BindingOf(kinds, names, u, newName))
              else BindingOf(kinds, names, u, newName)
      ensures Binds(kinds, names', u, j, newName) ==>
        (Gives(kinds, names, u, oldName, b) && Covers(kinds, b, j)) || Binds(kinds, names, u, j, newName)
    {
      ReachesMeans(kinds, u, j);
      BindingAfter(kinds, names, oldName, b, newName, u, newName);
    }
    ResolvesTo(kinds, names', j, newName, Resolve(kinds, names, j, newName));
  }

  /** References of other names are to what they were. */
  lemma OtherKept(kinds: seq<Kind>, names: seq<string>, oldName: string, b: Binding, newName: string, j: nat, x: string)
    requires |kinds| == |names| && WellNested(kinds) && j < |kinds| && x != oldName && x != newName
    requires oldName != newName && !IsImplicit(kinds, oldName, b)
    ensures Resolve(kinds, Renamed(kinds, names, oldName, b, newName), j, x) == Resolve(kinds, names, j, x)
  {
    hide BindingOf, Reaches, Resolve, Renamed, WellNested, IsImplicit, IsReference;
    Resolved(kinds, names, j, x);
    var names' := Renamed(kinds, names, oldName, b, newName);
    forall u: nat | u <= j && Reaches(kinds, u, j)
      ensures BindingOf(kinds, names', u, x) == BindingOf(kinds, names, u, x)
      ensures Binds(kinds, names', u, j, x) ==> Binds(kinds, names, u, j, x)
    {
      ReachesMeans(kinds, u, j);
      BindingAfter(kinds, names, oldName, b, newName, u, x);
    }
    ResolvesTo(kinds, names', j, x, Resolve(kinds, names, j, x));
  }

  lemma ReferenceKept(kinds: seq<Kind>, names: seq<string>, oldName: string, b: Binding, newName: string, j: nat)
    requires |kinds| == |names| && WellNested(kinds) && j < |kinds| && IsReference(kinds, j)
    requires oldName != newName && !IsImplicit(kinds, oldName, b)
    requires CaptureFreeAt(kinds, names, oldName, b, newName, j)
    ensures var names' := Renamed(kinds, names, oldName, b, newName);
      Resolve(kinds, names', j, names'[j]) == Resolve(kinds, names, j, names[j])
  {
    hide Resolve, IsReference, WellNested, IsImplicit, CaptureFreeAt;
    if names[j] == oldName {
      if Edited(kinds, names, oldName, b, j) {
        EditedKept(kinds, names, oldName, b, newName, j);
      } else {
        OldKept(kinds, names, oldName, b, newName, j);
      }
    } else if names[j] == newName {
      NewKept(kinds, names, oldName, b, newName, j);
    } else {
      OtherKept(kinds, names, oldName, b, newName, j, names[j]);
    }
  }

  /** No reference of another variable that is spelled `newName` has binding `b`. */
  lemma VariablesApart(kinds: seq<Kind>, names: seq<string>, oldName: string, b: Binding, newName: string, k: nat)
    requires |kinds| == |names| && k < |kinds| && CaptureFreeAt(kinds, names, oldName, b, newName, k)
    requires Resolve(kinds, names, k, names[k]) == b
    ensures names[k] != newName
  {
    hide BindingOf, Reaches, Resolve;
    Resolved(kinds, names, k, newName);
  }

  lemma CaptureFreeKeeps(kinds: seq<Kind>, names: seq<string>, oldName: string, b: Binding, newName: string)
    requires |kinds| == |names| && WellNested(kinds) && oldName != newName && !IsImplicit(kinds, oldName, b)
    requires CaptureFree(kinds, names, oldName, b, newName)
    ensures KeepsVariables(kinds, names, Renamed(kinds, names, oldName, b, newName))
  {
    hide Resolve, IsReference, WellNested, IsImplicit, CaptureFreeAt;
    var names' := Renamed(kinds, names, oldName, b, newName);
    forall j: nat | j < |kinds| && IsReference(kinds, j)
      ensures Resolve(kinds, names', j, names'[j]) == Resolve(kinds, names, j, names[j])
      ensures Resolve(kinds, names, j, names[j]) == b ==> names[j] != newName
    {
      assert CaptureFreeAt(kinds, names, oldName, b, newName, j);
      ReferenceKept(kinds, names, oldName, b, newName, j);
      if Resolve(kinds, names, j, names[j]) == b {
        VariablesApart(kinds, names, oldName, b, newName, j);
      }
    }
  }

  // ---- With capture, something is not kept ----

  /** Renaming the implicit parameter of a scope breaks the reference it started from: the new
      name is not bound where the old one was. */
  lemma ImplicitBroken(kinds: seq<Kind>, names: seq<string>, oldName: string, newName: string, j: nat)
    requires |kinds| == |names| && WellNested(kinds) && j < |kinds| && IsReference(kinds, j) && names[j] == oldName
    requires oldName != newName && IsImplicit(kinds, oldName, Resolve(kinds, names, j, oldName))
    ensures var b := Resolve(kinds, names, j, oldName);
      var names' := Renamed(kinds, names, oldName, b, newName);
      names'[j] == newName && Resolve(kinds, names', j, newName) != b
  {
    hide ParamTokens, BracketDepth, InIterable, HeaderClean, FirstLocal, ScopeEnd;
    var b := Resolve(kinds, names, j, oldName);
    var names' := Renamed(kinds, names, oldName, b, newName);
    Resolved(kinds, names, j, oldName);
    Resolved(kinds, names', j, newName);
    var i := b.value.0;
    ParamAfter(kinds, names, oldName, b, newName, i, newName);
    FirstLocalLater(kinds, names', i, newName);
    if IsParam(kinds, names, i, newName) {
      ImplicitHasNoOther(kinds, names, i, newName);
    }
  }

  /** What a scope binds, other than an implicit parameter, some token of its own declares. */
  lemma Declared(kinds: seq<Kind>, names: seq<string>, i: nat, x: string) returns (k: nat)
    requires |kinds| == |names| && WellNested(kinds) && i < |kinds| && OpensScope(kinds, i)
    requires BindingOf(kinds, names, i, x).Some? && !(HasImplicitN(kinds, i) && x == "n")
    ensures k < |kinds| && IsReference(kinds, k) && names[k] == x
    ensures Resolve(kinds, names, k, x) == Some((i, BindingOf(kinds, names, i, x).value))
  {
    hide Resolve, ParamTokens, WellNested, DeclaresLocal, IsReference, HasImplicitN;
    if IsParam(kinds, names, i, x) {
      k :| k in ParamTokens(kinds, i) && k < |names| && names[k] == x;
      ParamResolvesToItself(kinds, names, i, k);
    } else {
      k := BindingOf(kinds, names, i, x).value;
      LocalResolvesToItsScope(kinds, names, i, k - 1);
    }
  }

  /** A scope whose parameter is the implicit `n` binds every other name later. */
  lemma ImplicitIsFirst(kinds: seq<Kind>, names: seq<string>, i: nat, x: string)
    requires |kinds| == |names| && i < |kinds| && HasImplicitN(kinds, i) && x != "n"
    ensures BindingOf(kinds, names, i, "n") == Some(i)
    ensures BindingOf(kinds, names, i, x).Some? ==> BindingOf(kinds, names, i, x).value > i
  {
    hide FirstLocal;
    FirstLocalLater(kinds, names, i, x);
  }

  /** If everything is kept, an edited token stood where no scope from that of `b` inwards binds the new name. */
  lemma EditedUncaptured(kinds: seq<Kind>, names: seq<string>, oldName: string, b: Binding, newName: string, j: nat)
    requires |kinds| == |names| && WellNested(kinds) && oldName != newName && !IsImplicit(kinds, oldName, b)
    requires KeepsVariables(kinds, names, Renamed(kinds, names, oldName, b, newName))
    requires j < |kinds| && Edited(kinds, names, oldName, b, j)
    ensures var s := Resolve(kinds, names, j, newName); s.None? || s.value.0 < ScopeOf(b)
  {
    hide Resolve, BindingOf, Reaches, IsReference, WellNested, IsImplicit, HasImplicitN;
    var names' := Renamed(kinds, names, oldName, b, newName);
    var s := Resolve(kinds, names, j, newName);
    if s.Some? && s.value.0 >= ScopeOf(b) {
      var i := s.value.0;
      Resolved(kinds, names, j, newName);
      Resolved(kinds, names, j, oldName);
      Resolved(kinds, names', j, newName);
      ReachesMeans(kinds, i, j);
      BindingAfter(kinds, names, oldName, b, newName, i, newName);
      assert Binds(kinds, names', i, j, newName);
      assert b.Some? && b.value.0 == i;
      if HasImplicitN(kinds, i) && newName == "n" {
        ImplicitIsFirst(kinds, names, i, oldName);
      }
      var k := Declared(kinds, names, i, newName);
      Resolved(kinds, names', k, newName);
      assert false;
    }
  }

  /** If everything is kept, a token spelled with the new name, where `b` is in effect, was of a scope further in. */
  lemma NewUncaptured(kinds: seq<Kind>, names: seq<string>, oldName: string, b: Binding, newName: string, j: nat,
                      cursor: nat)
    requires |kinds| == |names| && WellNested(kinds) && oldName != newName && !IsImplicit(kinds, oldName, b)
    requires KeepsVariables(kinds, names, Renamed(kinds, names, oldName, b, newName))
    requires cursor < |kinds| && Edited(kinds, names, oldName, b, cursor)
    requires j < |kinds| && IsReference(kinds, j) && names[j] == newName && Covers(kinds, b, j)
    ensures ScopeOf(Resolve(kinds, names, j, newName)) > ScopeOf(b)
  {
    hide Resolve, BindingOf, Reaches, IsReference, WellNested, IsImplicit;
    var names' := Renamed(kinds, names, oldName, b, newName);
    if ScopeOf(Resolve(kinds, names, j, newName)) <= ScopeOf(b) {
      if b.Some? {
        var i := b.value.0;
        Resolved(kinds, names, cursor, oldName);
        ReachesMeans(kinds, i, j);
        BindingAfter(kinds, names, oldName, b, newName, i, newName);
        assert Binds(kinds, names', i, j, newName);
        Resolved(kinds, names', j, newName);
        Resolved(kinds, names', cursor, newName);
      }
      assert false;
    }
  }

  // ---- The theorem ----

  /** Renaming what the cursor stands on, to any name, keeps every binding and every variable if and only if the name
      stays the same, or the cursor's binding is no scope's implicit parameter and the new name is not captured. */
  lemma RenameIsAlphaRenaming(kinds: seq<Kind>, names: seq<string>, cursor: nat, newName: string)
    requires |kinds| == |names| && WellNested(kinds) && cursor < |kinds| && IsReference(kinds, cursor)
    ensures var oldName := names[cursor];
      var b := Resolve(kinds, names, cursor, oldName);
      KeepsVariables(kinds, names, Renamed(kinds, names, oldName, b, newName)) <==>
      newName == oldName || (!IsImplicit(kinds, oldName, b) && CaptureFree(kinds, names, oldName, b, newName))
  {
    hide Resolve, IsReference, WellNested, Renamed, Covers;
    var oldName := names[cursor];
    var b := Resolve(kinds, names, cursor, oldName);
    if newName == oldName {
      RenamedToItself(kinds, names, oldName, b);
    } else if IsImplicit(kinds, oldName, b) {
      ImplicitBroken(kinds, names, oldName, newName, cursor);
    } else {
      if KeepsVariables(kinds, names, Renamed(kinds, names, oldName, b, newName)) {
        forall j: nat | j < |kinds| && IsReference(kinds, j)
          ensures CaptureFreeAt(kinds, names, oldName, b, newName, j)
        {
          if Edited(kinds, names, oldName, b, j) {
            EditedUncaptured(kinds, names, oldName, b, newName, j);
          }
          if names[j] == newName && Covers(kinds, b, j) {
            NewUncaptured(kinds, names, oldName, b, newName, j, cursor);
          }
        }
      }
      if CaptureFree(kinds, names, oldName, b, newName) {
        CaptureFreeKeeps(kinds, names, oldName, b, newName);
      }
    }
  }

  lemma RenamedToItself(kinds: seq<Kind>, names: seq<string>, oldName: string, b: Binding)
    requires |kinds| == |names|
    ensures Renamed(kinds, names, oldName, b, oldName) == names
  {
  }

  /** A name that no token is spelled with, and that is not `n`, is never captured: renaming to it keeps every binding
      and every variable if and only if the cursor's binding is no implicit parameter. */
  lemma FreshNamesAreNotCaptured(kinds: seq<Kind>, names: seq<string>, cursor: nat, newName: string)
    requires |kinds| == |names| && WellNested(kinds) && cursor < |kinds| && IsReference(kinds, cursor)
    requires newName !in names && newName != "n"
    ensures var oldName := names[cursor];
      var b := Resolve(kinds, names, cursor, oldName);
      var names' := Renamed(kinds, names, oldName, b, newName);
      && (KeepsBindings(kinds, names, names') <==> !IsImplicit(kinds, oldName, b))
      && (KeepsVariables(kinds, names, names') <==> !IsImplicit(kinds, oldName, b))
  {
    hide Resolve, IsReference, WellNested, Renamed, Covers, BindingOf, Reaches;
    var oldName := names[cursor];
    var b := Resolve(kinds, names, cursor, oldName);
    forall j: nat | j < |kinds| && IsReference(kinds, j)
      ensures CaptureFreeAt(kinds, names, oldName, b, newName, j)
    {
      assert names[j] in names;
      Resolved(kinds, names, j, newName);
      if Resolve(kinds, names, j, newName).Some? {
        NewNotBound(kinds, names, Resolve(kinds, names, j, newName).value.0, newName);
      }
    }
    RenameIsAlphaRenaming(kinds, names, cursor, newName);
    if IsImplicit(kinds, oldName, b) {
      ImplicitBroken(kinds, names, oldName, newName, cursor);
    }
  }

  lemma NewNotBound(kinds: seq<Kind>, names: seq<string>, i: nat, newName: string)
    requires |kinds| == |names| && i < |kinds| && newName !in names && newName != "n"
    ensures BindingOf(kinds, names, i, newName).None?
  {
  }

  // ---- Where a rename goes wrong ----

  /** `define f`, a newline, a body that is the one token `n`, and the end of the stream: the cursor on `n`, and the
      new name "m". */
  lemma ImplicitBrokenIsInhabited(kinds: seq<Kind>, names: seq<string>)
    requires kinds == [Define, Ident, OtherToken, Newline, Indent, Ident, Dedent, Newline, OtherToken]
    requires names == ["", "f", "", "", "", "n", "", "", ""]
    ensures WellNested(kinds) && IsReference(kinds, 5) && "m" !in names
    ensures
      var b := Resolve(kinds, names, 5, "n");
      IsImplicit(kinds, "n", b) && !KeepsBindings(kinds, names, Renamed(kinds, names, "n", b, "m"))
  {
    assert ParamTokens(kinds, 0) == [];
    FreshNamesAreNotCaptured(kinds, names, 5, "m");
  }

  /** `define f(y)`, a newline, a body that is the one token `f`, and the end of the stream: the cursor on that `f`,
      which is global, and the new name "y". The parameter captures the reference. */
  lemma CaptureIsInhabited(kinds: seq<Kind>, names: seq<string>)
    requires CapturingKinds(kinds) && names == ["", "f", "", "y", "", "", "", "", "f", "", "", ""]
    ensures WellNested(kinds) && IsReference(kinds, 8) && Resolve(kinds, names, 8, "f") == None
    ensures !CaptureFree(kinds, names, "f", None, "y")
    ensures !KeepsVariables(kinds, names, Renamed(kinds, names, "f", None, "y"))
  {
    hide Resolve, ParamTokens, FirstLocal, ScopeEnd, InIterable, OpensScope, WellNested, KeepsVariables, Renamed;
    OneScope(kinds);
    assert 3 in ParamTokens(kinds, 0) && names[3] == "y";
    assert FirstLocal(kinds, names, 0, "f", |kinds| - 1) == None;
    ResolvesTo(kinds, names, 8, "y", Some((0, 0)));
    ResolvesTo(kinds, names, 8, "f", None);
    assert !CaptureFreeAt(kinds, names, "f", None, "y", 8);
    RenameIsAlphaRenaming(kinds, names, 8, "y");
  }

  ghost predicate CapturingKinds(kinds: seq<Kind>) {
    kinds == [Define, Ident, LParen, Ident, RParen, OtherToken, Newline, Indent, Ident, Dedent, Newline, OtherToken]
  }

  lemma OneScope(kinds: seq<Kind>)
    requires CapturingKinds(kinds)
    ensures WellNested(kinds) && ParamTokens(kinds, 0) == [3] && Reaches(kinds, 0, 8)
    ensures forall i :: OpensScope(kinds, i) <==> i == 0
  {
    hide ParamTokens, BracketDepth, IndentFrom, DedentAfter;
    OneScopeExtent(kinds);
  }

  lemma OneScopeExtent(kinds: seq<Kind>)
    requires CapturingKinds(kinds)
    ensures IndentFrom(kinds, 0) == 7 && ScopeEnd(kinds, 0) == 10 && ParamTokens(kinds, 0) == [3]
  {
    assert IndentFrom(kinds, 6) == 7 && IndentFrom(kinds, 4) == 7 && IndentFrom(kinds, 2) == 7;
    assert DedentAfter(kinds, 9, 1) == 10 && DedentAfter(kinds, 7, 0) == 10;
    assert ParamScan(kinds, 4, false, 0) == [];
    assert ParamTokens(kinds, 0) == [3] + [];
  }
}
