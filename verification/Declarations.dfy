/** Which tokens declare names, and how far scopes reach, said of the token stream without any scan over it. */
module Declarations {
  import opened Basics
  import opened Scopes

  /** Opening less closing brackets among the tokens `lo..hi`. */
  function Nesting(kinds: seq<Kind>, lo: nat, hi: nat): int
    requires hi <= |kinds|
    decreases hi
  {
    if hi <= lo then 0 else
    Nesting(kinds, lo, hi - 1)
    + (if kinds[hi - 1].Opens() then 1 else if kinds[hi - 1].Closes() then -1 else 0)
  }

  // ---- Parameters of a `define` ----

  /** The parameter list that starts at `lo` goes on up to `j`: neither its closing parenthesis nor a newline is
      before. */
  ghost predicate ListReaches(kinds: seq<Kind>, lo: nat, j: nat)
    requires j <= |kinds|
  {
    forall k :: lo <= k < j ==> !kinds[k].Newline? && !(kinds[k].RParen? && Nesting(kinds, lo, k) == 0)
  }

  /** A comma between items of the list: outside inner brackets. */
  predicate IsSeparator(kinds: seq<Kind>, lo: nat, c: int) {
    lo <= c < |kinds| && kinds[c].Comma? && Nesting(kinds, lo, c) == 0
  }

  predicate IsOuterIdent(kinds: seq<Kind>, lo: nat, j: int) {
    lo <= j < |kinds| && kinds[j].Ident? && Nesting(kinds, lo, j) == 0
  }

  /** Between every identifier of the list before `j` and `j` there is a separator. */
  ghost predicate ItemIsFresh(kinds: seq<Kind>, lo: nat, j: nat) {
    forall i :: i < j && IsOuterIdent(kinds, lo, i) ==> exists c :: i < c < j && IsSeparator(kinds, lo, c)
  }

  /** Token `j` is the first identifier, outside inner brackets, of an item of the list. */
  ghost predicate NamesParam(kinds: seq<Kind>, lo: nat, j: nat) {
    IsOuterIdent(kinds, lo, j) && ListReaches(kinds, lo, j) && ItemIsFresh(kinds, lo, j)
  }

  lemma ItemStep(kinds: seq<Kind>, lo: nat, p: nat)
    requires lo <= p < |kinds|
    ensures ItemIsFresh(kinds, lo, p + 1) <==>
      IsSeparator(kinds, lo, p) || (ItemIsFresh(kinds, lo, p) && !IsOuterIdent(kinds, lo, p))
  {
    if IsSeparator(kinds, lo, p) {
      forall i | i < p + 1 && IsOuterIdent(kinds, lo, i)
        ensures exists c :: i < c < p + 1 && IsSeparator(kinds, lo, c)
      {
        assert i < p;
      }
    } else if ItemIsFresh(kinds, lo, p + 1) {
      forall i | i < p && IsOuterIdent(kinds, lo, i)
        ensures exists c :: i < c < p && IsSeparator(kinds, lo, c)
      {
        var c :| i < c < p + 1 && IsSeparator(kinds, lo, c);
      }
    }
  }

  lemma {:induction false} ParamScanMeans(kinds: seq<Kind>, lo: nat, p: nat, pending: bool, depth: int)
    requires lo <= p <= |kinds| && depth == Nesting(kinds, lo, p)
    requires ListReaches(kinds, lo, p) && (pending <==> ItemIsFresh(kinds, lo, p))
    ensures forall j: nat :: j in ParamScan(kinds, p, pending, depth) <==> p <= j && NamesParam(kinds, lo, j)
    decreases |kinds| - p
  {
    hide ItemIsFresh;
    if p == |kinds| || (depth == 0 && kinds[p].RParen?) || kinds[p].Newline? {
    } else {
      ItemStep(kinds, lo, p);
      var pending' := if depth == 0 && kinds[p].Comma? then true
                      else if depth == 0 && kinds[p].Ident? then false else pending;
      ParamScanMeans(kinds, lo, p + 1, pending', Nesting(kinds, lo, p + 1));
    }
  }

  /** The tokens that name parameters of the `define` at `i`: past the function's name, if any, there is an opening
      parenthesis, and they name parameters of the list behind it. */
  lemma ParamsOfDefine(kinds: seq<Kind>, i: nat, j: nat)
    requires i < |kinds| && kinds[i].Define?
    ensures
      var paren := if i + 1 < |kinds| && kinds[i + 1].Ident? then i + 2 else i + 1;
      j in ParamTokens(kinds, i) <==> paren < |kinds| && kinds[paren].LParen? && NamesParam(kinds, paren + 1, j)
  {
    hide ParamScan;
    var paren := ListStart(kinds, i);
    if paren < |kinds| {
      assert ItemIsFresh(kinds, paren + 1, paren + 1);
      ParamScanMeans(kinds, paren + 1, paren + 1, true, 0);
    }
  }

  // ---- Variables and iterable of a `for` ----

  /** The header of the `for` at `i` goes on up to `j`: neither its `in` nor a newline is before. */
  ghost predicate HeaderReaches(kinds: seq<Kind>, i: nat, j: nat) {
    forall k :: i < k < j && k < |kinds| ==> !kinds[k].In? && !kinds[k].Newline?
  }

  lemma {:induction false} StopMeans(kinds: seq<Kind>, j: nat)
    requires j <= |kinds|
    ensures var k := HeaderStop(kinds, j);
      && (k < |kinds| ==> kinds[k].In? || kinds[k].Newline?)
      && forall l :: j <= l < k ==> !kinds[l].In? && !kinds[l].Newline?
    decreases |kinds| - j
  {
    if j < |kinds| && !kinds[j].In? && !kinds[j].Newline? {
      StopMeans(kinds, j + 1);
    }
  }

  lemma {:induction false} IdentsMean(kinds: seq<Kind>, lo: nat, hi: nat)
    requires lo <= hi <= |kinds|
    ensures forall j: nat :: j in Idents(kinds, lo, hi) <==> lo <= j < hi && kinds[j].Ident?
    decreases hi - lo
  {
    if lo < hi {
      IdentsMean(kinds, lo + 1, hi);
    }
  }

  /** The tokens that name variables of the `for` at `i` are the identifiers before its `in`, or before the end of its
      line. */
  lemma VariablesOfFor(kinds: seq<Kind>, i: nat, j: nat)
    requires i < |kinds| && !kinds[i].Define?
    ensures j in ParamTokens(kinds, i) <==> i < j < |kinds| && kinds[j].Ident? && HeaderReaches(kinds, i, j)
  {
    hide Idents, HeaderStop;
    StopMeans(kinds, i + 1);
    IdentsMean(kinds, i + 1, HeaderStop(kinds, i + 1));
  }

  /** A token is in the iterable of the `for` at `i` if it stands behind the `in` that ends the header, and no token
      from there to it, itself included, is an INDENT. */
  lemma IterableMeans(kinds: seq<Kind>, i: nat, idx: nat)
    requires i < |kinds| && idx < |kinds|
    ensures InIterable(kinds, i, idx) <==>
      && kinds[i].For? && (forall k :: i <= k <= idx ==> !kinds[k].Indent?)
      && exists m :: i < m < idx && kinds[m].In? && HeaderReaches(kinds, i, m)
  {
    hide HeaderStop, IndentFrom;
    StopMeans(kinds, i + 1);
    var stop, body := HeaderStop(kinds, i + 1), IndentFrom(kinds, i);
    if InIterable(kinds, i, idx) {
      assert i < stop < idx && kinds[stop].In? && HeaderReaches(kinds, i, stop);
    }
    forall m | i < m < idx && kinds[m].In? && HeaderReaches(kinds, i, m) ensures m == stop {
    }
  }

  // ---- How far a scope reaches ----

  /** INDENTs less DEDENTs among the tokens `lo..hi`. */
  function Balance(kinds: seq<Kind>, lo: nat, hi: nat): int
    requires hi <= |kinds|
    decreases hi
  {
    if hi <= lo then 0 else
    Balance(kinds, lo, hi - 1) + (if kinds[hi - 1].Indent? then 1 else if kinds[hi - 1].Dedent? then -1 else 0)
  }

  /** Behind the DEDENT before `e`, as many INDENTs as DEDENTs have been met from `lo` on. */
  predicate Closes(kinds: seq<Kind>, lo: nat, e: int) {
    lo < e <= |kinds| && kinds[e - 1].Dedent? && Balance(kinds, lo, e) == 0
  }

  lemma {:induction false} DedentMeans(kinds: seq<Kind>, lo: nat, k: nat)
    requires lo <= k <= |kinds| && forall e :: e <= k ==> !Closes(kinds, lo, e)
    ensures var e := DedentAfter(kinds, k, Balance(kinds, lo, k));
      && (Closes(kinds, lo, e) || e == |kinds|)
      && forall e' :: e' < e ==> !Closes(kinds, lo, e')
    decreases |kinds| - k
  {
    if k < |kinds| && !Closes(kinds, lo, k + 1) {
      DedentMeans(kinds, lo, k + 1);
    }
  }

  /** A scope opened at `i` ends behind the first DEDENT that balances the INDENTs from its body's INDENT on, which is
      the first INDENT from `i` on; without such, at the end of the stream. */
  lemma ScopeEndMeans(kinds: seq<Kind>, i: nat)
    requires i < |kinds|
    ensures var body, e := IndentFrom(kinds, i), ScopeEnd(kinds, i);
      && (body < |kinds| ==> kinds[body].Indent?) && (forall k :: i <= k < body ==> !kinds[k].Indent?)
      && (Closes(kinds, body, e) || e == |kinds|)
      && forall e' :: e' < e ==> !Closes(kinds, body, e')
  {
    hide DedentAfter, Balance, IndentFrom;
    BalanceOfNothing(kinds, IndentFrom(kinds, i));
    DedentMeans(kinds, IndentFrom(kinds, i), IndentFrom(kinds, i));
  }

  lemma BalanceOfNothing(kinds: seq<Kind>, lo: nat)
    requires lo <= |kinds|
    ensures Balance(kinds, lo, lo) == 0
  {
  }

  // ---- When a `for` is a statement ----

  /** How many more opening than closing brackets the tokens from `lo` to `i`, both included, have. */
  function Surplus(kinds: seq<Kind>, lo: nat, i: nat): int
    requires i < |kinds|
  {
    Nesting(kinds, lo, i + 1)
  }

  lemma SurplusStep(kinds: seq<Kind>, lo: nat, i: nat)
    requires 0 < i < |kinds|
    ensures var here := if kinds[i].Opens() then 1 else if kinds[i].Closes() then -1 else 0;
      Surplus(kinds, lo, i) == if lo < i then Surplus(kinds, lo, i - 1) + here else if lo == i then here else 0
  {
    assert lo == i ==> Nesting(kinds, lo, i) == 0;
  }

  /** The bracket depth behind token `i`, where superfluous closing brackets are ignored, is the largest surplus of any
      stretch of tokens that ends there, the empty one included. */
  lemma {:induction false} BracketDepthMeans(kinds: seq<Kind>, i: nat)
    requires i < |kinds|
    ensures forall lo: nat :: Surplus(kinds, lo, i) <= BracketDepth(kinds, i)
    ensures exists lo: nat :: Surplus(kinds, lo, i) == BracketDepth(kinds, i)
    decreases i
  {
    hide Surplus;
    assert Surplus(kinds, i + 1, i) == 0 by { EmptySurplus(kinds, i); }
    if i == 0 {
      FirstSurplus(kinds);
    } else {
      BracketDepthMeans(kinds, i - 1);
      forall lo: nat ensures Surplus(kinds, lo, i) <= BracketDepth(kinds, i) {
        SurplusStep(kinds, lo, i);
      }
      var lo: nat :| Surplus(kinds, lo, i - 1) == BracketDepth(kinds, i - 1);
      SurplusStep(kinds, lo, i);
      SurplusStep(kinds, i, i);
      EmptySurplus(kinds, i - 1);
    }
  }

  lemma EmptySurplus(kinds: seq<Kind>, i: nat)
    requires i < |kinds|
    ensures forall lo: nat :: lo > i ==> Surplus(kinds, lo, i) == 0
  {
  }

  lemma FirstSurplus(kinds: seq<Kind>)
    requires kinds != []
    ensures Surplus(kinds, 0, 0) == if kinds[0].Opens() then 1 else if kinds[0].Closes() then -1 else 0
    ensures forall lo: nat :: lo > 0 ==> Surplus(kinds, lo, 0) == 0
  {
    assert Nesting(kinds, 0, 0) == 0;
  }

  // ---- What a name resolves to ----

  /** What a resolution is, spelled out: a `define`, or a `for` outside brackets, whose extent the reference is in, and
      not in the iterable of that `for`; it has the name as a parameter, maybe the implicit one, or as a local, declared
      right behind a `local` that is in no scope further in, and not behind the reference. */
  lemma ResolutionMeans(kinds: seq<Kind>, names: seq<string>, idx: nat, x: string, i: nat, f: nat)
    requires |kinds| == |names| && idx < |kinds| && Resolve(kinds, names, idx, x) == Some((i, f))
    ensures i <= idx < ScopeEnd(kinds, i) && f <= idx
    ensures kinds[i].Define? || (kinds[i].For? && BracketDepth(kinds, i) == 0)
    ensures !(kinds[i].For? && (forall k :: i <= k <= idx ==> !kinds[k].Indent?)
              && exists m :: i < m < idx && kinds[m].In? && HeaderReaches(kinds, i, m))
    ensures
      || (f == i && exists j: nat :: j in ParamTokens(kinds, i) && j < |names| && names[j] == x)
      || (f == i && kinds[i].Define? && ParamTokens(kinds, i) == [] && x == "n")
      || (f > i && kinds[f].Ident? && names[f] == x && kinds[f - 1].Local? && Innermost(kinds, f - 1) == i)
  {
    hide ParamTokens, ScopeEnd, BracketDepth, InIterable, InnermostFrom;
    IterableMeans(kinds, i, idx);
    assert Binds(kinds, names, i, idx, x);
  }
}
