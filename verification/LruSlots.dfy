/** The least-recently-used slot table that encodes local names in a training corpus. */
module LruSlots {
  import opened Basics

  /** The table's arrays: the name in each slot, when each slot was last used (0: never), and
      the clock. */
  datatype Table = Table(names: seq<Option<string>>, used: seq<nat>, clock: nat) {
    ghost predicate Valid() {
      && |names| == |used| > 0
      && (forall j :: 0 <= j < |used| ==> used[j] <= clock && (used[j] == 0 <==> names[j].None?))
      && (forall i, j :: 0 <= i < j < |names| && names[i].Some? ==> names[i] != names[j])
    }

    predicate Holds(x: string) {
      exists j :: 0 <= j < |names| && names[j] == Some(x)
    }
  }

  /** Slot `hit` is where `x` goes: its slot if it has one, else the first of the least recently used. */
  ghost predicate Picks(t: Table, x: string, hit: nat)
    requires t.Valid()
  {
    && hit < |t.names|
    && (t.Holds(x) ==> t.names[hit] == Some(x))
    && (!t.Holds(x) ==> forall j :: 0 <= j < |t.used| ==>
      t.used[hit] <= t.used[j] && (t.used[j] == t.used[hit] ==> hit <= j))
  }

  /** The table after `x` has been put, or found, in slot `hit`. */
  function Touched(t: Table, x: string, hit: nat): Table
    requires hit < |t.names| == |t.used|
  {
    Table(t.names[hit := Some(x)], t.used[hit := t.clock + 1], t.clock + 1)
  }

  class SlotTable {
    const names: array<Option<string>>
    const used: array<nat>
    var clock: nat

    ghost function View(): Table
      reads this, names, used
    {
      Table(names[..], used[..], clock)
    }

    ghost predicate Valid()
      reads this, names, used
    {
      names.Length == used.Length && View().Valid()
    }

    constructor (count: nat)
      requires count > 0
      ensures Valid() && fresh(names) && fresh(used) && names.Length == count
      ensures forall x :: !View().Holds(x)
    {
      names := new Option<string>[count](_ => None);
      used := new nat[count](_ => 0);
      clock := 0;
    }

    /** The slot of one occurrence of a local name. */
    method Assign(x: string) returns (hit: nat)
      requires Valid()
      modifies this`clock, names, used
      ensures Valid()
      ensures Picks(old(View()), x, hit) && View() == Touched(old(View()), x, hit)
    {
      ghost var t := View();
      hit := 0;
      while hit < names.Length && names[hit] != Some(x)
        invariant hit <= names.Length && forall j :: 0 <= j < hit ==> names[j] != Some(x)
        invariant View() == t
      {
        hit := hit + 1;
      }
      if hit == names.Length {
        assert !t.Holds(x);
        hit := 0;
        var j := 1;
        while j < used.Length
          invariant 0 < j <= used.Length && hit < j && View() == t
          invariant forall i :: 0 <= i < j ==> t.used[hit] <= t.used[i] && (t.used[i] == t.used[hit] ==> hit <= i)
        {
          if used[j] < used[hit] { hit := j; }
          j := j + 1;
        }
        names[hit] := Some(x);
      } else {
        assert t.names[hit] == Some(x);
      }
      clock := clock + 1;
      used[hit] := clock;
      assert names[..] == t.names[hit := Some(x)] && used[..] == t.used[hit := t.clock + 1];
      TouchedValid(t, x, hit);
    }
  }

  lemma TouchedValid(t: Table, x: string, hit: nat)
    requires t.Valid() && Picks(t, x, hit)
    ensures Touched(t, x, hit).Valid()
  {
  }

  // ---- Runs of occurrences ----

  /** One occurrence of `x`. On an unsound table anything could happen. */
  ghost predicate Assigns(t: Table, x: string, hit: nat, after: Table) {
    t.Valid() ==> Picks(t, x, hit) && after == Touched(t, x, hit)
  }

  /** `tables` and `slots` are what the run of occurrences `xs` goes through from `tables[0]`. */
  ghost predicate IsRun(xs: seq<string>, tables: seq<Table>, slots: seq<nat>) {
    && |slots| == |xs| && |tables| == |xs| + 1 && tables[0].Valid()
    && forall a :: 0 <= a < |xs| ==> Assigns(tables[a], xs[a], slots[a], tables[a + 1])
  }

  function Distinct(xs: seq<string>): set<string> {
    set x | x in xs
  }

  /** After the first `t` occurrences: each sits in the slot it was given, more recently used than
      anything before the run, which began at clock `start`; and every slot used in the run was
      given to one of them. */
  ghost predicate Faithful(xs: seq<string>, slots: seq<nat>, t: nat, now: Table, start: nat)
    requires |slots| == |xs| && t <= |xs|
  {
    && now.Valid() && start <= now.clock
    && (forall a :: 0 <= a < t ==>
        slots[a] < |now.names| && now.names[slots[a]] == Some(xs[a]) && now.used[slots[a]] > start)
    && (forall j :: 0 <= j < |now.used| && now.used[j] > start ==> exists a :: 0 <= a < t && slots[a] == j)
  }

  lemma {:induction false} DistinctSize(names: seq<string>)
    requires forall i, j :: 0 <= i < j < |names| ==> names[i] != names[j]
    ensures |set x | x in names| == |names|
  {
    if names != [] {
      var last := |names| - 1;
      DistinctSize(names[..last]);
      assert (set x | x in names) == (set x | x in names[..last]) + {names[last]};
    }
  }

  /** A name that is not in the table finds a slot that the run has not used, as long as the run
      has at most as many distinct names as there are slots. */
  lemma OldSlotLeft(xs: seq<string>, now: Table, start: nat, t: nat)
    requires now.Valid() && t < |xs| && !now.Holds(xs[t])
    requires |Distinct(xs)| <= |now.names|
    requires forall j :: 0 <= j < |now.used| && now.used[j] > start ==> now.names[j].Some? && now.names[j].value in xs
    ensures exists j :: 0 <= j < |now.used| && now.used[j] <= start
  {
    if forall j :: 0 <= j < |now.used| ==> now.used[j] > start {
      AllHeld(xs, now, start);
      var names := seq(|now.names|, j requires 0 <= j < |now.names| => now.names[j].value);
      DistinctSize(names);
      var held := set x | x in names;
      forall x | x in held ensures x in Distinct(xs) - {xs[t]} {
        var j :| 0 <= j < |names| && names[j] == x;
        assert now.names[j] == Some(x);
      }
      assert xs[t] in Distinct(xs);
      SubsetSize(held, Distinct(xs) - {xs[t]});
    }
  }

  lemma AllHeld(xs: seq<string>, now: Table, start: nat)
    requires now.Valid() && forall j :: 0 <= j < |now.used| ==> now.used[j] > start
    requires forall j :: 0 <= j < |now.used| && now.used[j] > start ==> now.names[j].Some? && now.names[j].value in xs
    ensures forall j :: 0 <= j < |now.names| ==> now.names[j].Some? && now.names[j].value in xs
  {
    forall j | 0 <= j < |now.names| ensures now.names[j].Some? && now.names[j].value in xs {
      assert now.used[j] > start;
    }
  }

  lemma {:induction false} SubsetSize(a: set<string>, b: set<string>)
    requires a <= b
    ensures |a| <= |b|
    decreases a
  {
    if a != {} {
      var x :| x in a;
      SubsetSize(a - {x}, b - {x});
    }
  }

  /** The slot that the t-th occurrence is put in, if it is not in the table, was not used in the run. */
  lemma EvictsOnlyOld(xs: seq<string>, slots: seq<nat>, t: nat, now: Table, start: nat)
    requires |slots| == |xs| && t < |xs| && Faithful(xs, slots, t, now, start)
    requires Picks(now, xs[t], slots[t]) && !now.Holds(xs[t]) && |Distinct(xs)| <= |now.names|
    ensures now.used[slots[t]] <= start
  {
    forall j | 0 <= j < |now.used| && now.used[j] > start
      ensures now.names[j].Some? && now.names[j].value in xs
    {
      var a :| 0 <= a < t && slots[a] == j;
    }
    OldSlotLeft(xs, now, start, t);
  }

  lemma StaysFaithful(xs: seq<string>, slots: seq<nat>, t: nat, now: Table, start: nat)
    requires |slots| == |xs| && t < |xs| && Faithful(xs, slots, t, now, start)
    requires Picks(now, xs[t], slots[t]) && |Distinct(xs)| <= |now.names|
    ensures Faithful(xs, slots, t + 1, Touched(now, xs[t], slots[t]), start)
  {
    hide Distinct;
    var after, hit := Touched(now, xs[t], slots[t]), slots[t];
    TouchedValid(now, xs[t], hit);
    if !now.Holds(xs[t]) { EvictsOnlyOld(xs, slots, t, now, start); }
    hide Picks;
    forall j | 0 <= j < |after.used| && after.used[j] > start ensures exists a :: 0 <= a < t + 1 && slots[a] == j {
      if j == hit {
        assert slots[t] == j;
      } else {
        var a :| 0 <= a < t && slots[a] == j;
        assert 0 <= a < t + 1;
      }
    }
  }

  /** Every table of a run is sound, and as large as the first. */
  lemma {:induction false} RunStaysSound(xs: seq<string>, tables: seq<Table>, slots: seq<nat>, t: nat)
    requires IsRun(xs, tables, slots) && t <= |xs|
    ensures tables[t].Valid() && |tables[t].names| == |tables[0].names|
    ensures forall a :: 0 <= a < t ==> slots[a] < |tables[0].names|
  {
    if t > 0 {
      RunStaysSound(xs, tables, slots, t - 1);
      assert Assigns(tables[t - 1], xs[t - 1], slots[t - 1], tables[t]);
      TouchedValid(tables[t - 1], xs[t - 1], slots[t - 1]);
    }
  }

  lemma {:induction false} RunIsFaithful(xs: seq<string>, tables: seq<Table>, slots: seq<nat>, t: nat)
    requires IsRun(xs, tables, slots) && t <= |xs| && |Distinct(xs)| <= |tables[0].names|
    ensures Faithful(xs, slots, t, tables[t], tables[0].clock) && |tables[t].names| == |tables[0].names|
  {
    hide Faithful, Distinct;
    if t > 0 {
      RunIsFaithful(xs, tables, slots, t - 1);
      RunStaysSound(xs, tables, slots, t - 1);
      assert Assigns(tables[t - 1], xs[t - 1], slots[t - 1], tables[t]);
      StaysFaithful(xs, slots, t - 1, tables[t - 1], tables[0].clock);
    } else {
      NothingYet(xs, slots, tables[0]);
    }
  }

  lemma NothingYet(xs: seq<string>, slots: seq<nat>, now: Table)
    requires |slots| == |xs| && now.Valid()
    ensures Faithful(xs, slots, 0, now, now.clock)
  {
  }

  /** Two occurrences of the run are spelled alike exactly when they are given the same slot. */
  ghost predicate SlotsTellNamesApart(xs: seq<string>, slots: seq<nat>)
    requires |slots| == |xs|
  {
    forall a, b :: 0 <= a < |xs| && 0 <= b < |xs| ==> (slots[a] == slots[b] <==> xs[a] == xs[b])
  }

  /** Whatever the table held before the run, its slots tell its names apart if and only if it has
      at most as many distinct names as there are slots. */
  lemma SlotsFaithfulIffFewNames(xs: seq<string>, tables: seq<Table>, slots: seq<nat>)
    requires IsRun(xs, tables, slots)
    ensures SlotsTellNamesApart(xs, slots) <==> |Distinct(xs)| <= |tables[0].names|
  {
    if |Distinct(xs)| <= |tables[0].names| {
      RunIsFaithful(xs, tables, slots, |xs|);
    } else if SlotsTellNamesApart(xs, slots) {
      RunStaysSound(xs, tables, slots, |xs|);
      var given := set j | j in slots;
      forall x | x in Distinct(xs) ensures exists a :: 0 <= a < |xs| && xs[a] == x && slots[a] in given {
        var a :| 0 <= a < |xs| && xs[a] == x;
        assert slots[a] in given;
      }
      NamesNoMoreThanSlots(xs, slots, Distinct(xs), given);
      SlotsBelow(given, |tables[0].names|);
    }
  }

  lemma {:induction false} SlotsBelow(given: set<nat>, n: nat)
    requires forall j :: j in given ==> j < n
    ensures |given| <= n
  {
    if n == 0 {
      assert given == {};
    } else {
      SlotsBelow(given - {n - 1}, n - 1);
    }
  }

  /** If equal slots mean equal names, names no more than the slots they were given. */
  lemma {:induction false} NamesNoMoreThanSlots(xs: seq<string>, slots: seq<nat>, names: set<string>, given: set<nat>)
    requires |slots| == |xs| && SlotsTellNamesApart(xs, slots)
    requires forall x :: x in names ==> exists a :: 0 <= a < |xs| && xs[a] == x && slots[a] in given
    ensures |names| <= |given|
    decreases names
  {
    if names != {} {
      var x :| x in names;
      var a :| 0 <= a < |xs| && xs[a] == x && slots[a] in given;
      forall y | y in names - {x} ensures exists b :: 0 <= b < |xs| && xs[b] == y && slots[b] in given - {slots[a]} {
        var b :| 0 <= b < |xs| && xs[b] == y && slots[b] in given;
        assert slots[b] != slots[a];
      }
      NamesNoMoreThanSlots(xs, slots, names - {x}, given - {slots[a]});
    }
  }

  /** Encode a run of occurrences, whatever the table holds from before it. */
  method AssignRun(table: SlotTable, xs: seq<string>) returns (slots: seq<nat>)
    requires table.Valid()
    modifies table`clock, table.names, table.used
    ensures table.Valid() && |slots| == |xs|
    ensures forall a :: 0 <= a < |xs| ==> slots[a] < table.names.Length
    ensures SlotsTellNamesApart(xs, slots) <==> |Distinct(xs)| <= table.names.Length
  {
    ghost var tables := [table.View()];
    slots := [];
    var t := 0;
    while t < |xs|
      invariant 0 <= t <= |xs| && table.Valid()
      invariant IsRun(xs[..t], tables, slots)
      invariant tables[0] == old(table.View()) && tables[t] == table.View()
    {
      var hit := table.Assign(xs[t]);
      ghost var before, given := tables, slots;
      slots := slots + [hit];
      tables := tables + [table.View()];
      OneMoreOccurrence(xs, before, given, t, hit, table.View());
      t := t + 1;
    }
    assert xs[..t] == xs;
    RunStaysSound(xs, tables, slots, |xs|);
    SlotsFaithfulIffFewNames(xs, tables, slots);
  }

  lemma OneMoreOccurrence(xs: seq<string>, tables: seq<Table>, slots: seq<nat>, t: nat, hit: nat, after: Table)
    requires t < |xs| && IsRun(xs[..t], tables, slots) && tables[t].Valid()
    requires Picks(tables[t], xs[t], hit) && after == Touched(tables[t], xs[t], hit)
    ensures IsRun(xs[..t + 1], tables + [after], slots + [hit])
  {
    hide Picks;
    var ys := xs[..t + 1];
    assert forall a :: 0 <= a < t ==> ys[a] == xs[..t][a];
  }

  // ---- Token ids ----

  /** What a token of the stream stands for: a plain token type, a builtin's name, a local's
      slot, or a small integer literal. */
  datatype Token = Plain(tokenType: nat) | BuiltinName(index: nat) | LocalSlot(slot: nat) | Literal(value: nat)

  /** The stream's vocabulary: token types, exact builtin names, slots and exact integers. */
  datatype Vocabulary = Vocabulary(base: nat, builtins: nat, slots: nat, integers: nat) {
    predicate Has(t: Token) {
      match t
      case Plain(k) => k < base
      case BuiltinName(i) => i < builtins
      case LocalSlot(j) => j < slots
      case Literal(v) => v < integers
    }

    function IdOf(t: Token): nat {
      match t
      case Plain(k) => k
      case BuiltinName(i) => base + i
      case LocalSlot(j) => base + builtins + j
      case Literal(v) => base + builtins + slots + v
    }
  }

  /** Ids of different tokens never collide, and fill the vocabulary without gaps. */
  lemma IdsNeverCollide(v: Vocabulary, a: Token, b: Token)
    requires v.Has(a) && v.Has(b) && v.IdOf(a) == v.IdOf(b)
    ensures a == b
  {
  }

  lemma EveryIdUsed(v: Vocabulary, id: nat) returns (t: Token)
    requires id < v.base + v.builtins + v.slots + v.integers
    ensures v.Has(t) && v.IdOf(t) == id
  {
    t := if id < v.base then Plain(id)
         else if id < v.base + v.builtins then BuiltinName(id - v.base)
         else if id < v.base + v.builtins + v.slots then LocalSlot(id - v.base - v.builtins)
         else Literal(id - v.base - v.builtins - v.slots);
  }
}
