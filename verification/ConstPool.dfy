/** The constant pool and its open-addressing deduplication index, proved equal to the linear
    scan they replace. */
module ConstPool {
  import opened Constants

  // ---- The specification: a linear scan ----

  /** The first index at or after `i` holding a constant equal to `v`; the pool's length if none. */
  function Scan(pool: seq<Constant>, v: Constant, i: nat): (r: nat)
    requires i <= |pool|
    ensures i <= r <= |pool|
    ensures forall k :: i <= k < r ==> !ConstEqual(v, pool[k])
    ensures r < |pool| ==> ConstEqual(v, pool[r])
    decreases |pool| - i
  {
    if i == |pool| || ConstEqual(v, pool[i]) then i else Scan(pool, v, i + 1)
  }

  /** Add `v`: a deduplicating add returns the first equal entry if there is one; otherwise,
      and always for a positional add, `v` is appended. */
  function Added(pool: seq<Constant>, v: Constant, dedup: bool): (seq<Constant>, nat) {
    var at := Scan(pool, v, 0);
    if dedup && at < |pool| then (pool, at) else (pool + [v], |pool|)
  }

  ghost predicate NoDuplicates(pool: seq<Constant>) {
    forall i, j :: 0 <= i < j < |pool| ==> !ConstEqual(pool[j], pool[i])
  }

  /** A pool built by deduplicating adds alone, from the empty pool. */
  function Built(values: seq<Constant>): seq<Constant> {
    if values == [] then [] else Added(Built(values[..|values| - 1]), values[|values| - 1], true).0
  }

  lemma {:induction false} BuiltHasNoDuplicates(values: seq<Constant>)
    ensures NoDuplicates(Built(values))
  {
    if values != [] {
      BuiltHasNoDuplicates(values[..|values| - 1]);
    }
  }

  /** Equality is not reflexive on NaN, so every NaN gets an entry of its own; on everything
      else that is hashable the add finds or leaves an equal entry. */
  lemma AddedEntry(pool: seq<Constant>, v: Constant, dedup: bool)
    ensures var (after, at) := Added(pool, v, dedup);
      && at < |after| && pool <= after
      && (ConstEqual(v, after[at]) <==> v.Hashable() && !(v.Num? && IsNaN(v.bits)))
      && (!dedup || !ConstEqual(v, v) ==> at == |pool|)
  {
  }

  // ---- Hashing ----

  /** The pool's hash, for any mixing of bit patterns and of strings: -0.0 is folded into +0.0 first. */
  function HashOf(mix: Double -> nat, fnv: string -> nat, v: Constant): nat {
    match v
    case Num(d) => mix(if IsZero(d) then 0 else d)
    case Str(s) => fnv(s)
    case Other(_) => 0
  }

  /** Folding is what makes the hash respect the equality, whatever the mixing. */
  lemma EqualHashesEqual(mix: Double -> nat, fnv: string -> nat, a: Constant, b: Constant)
    requires ConstEqual(a, b)
    ensures HashOf(mix, fnv, a) == HashOf(mix, fnv, b)
  {
  }

  /** `x & (cap - 1)` for a table of `cap` slots, a power of two. */
  function Masked(x: nat, cap: nat): (s: nat)
    requires cap > 0
    ensures s < cap
    ensures x < cap ==> s == x
    ensures x == cap ==> s == 0
  {
    x % cap
  }

  /** The k-th slot probed from slot `home` in a table of `cap` slots. */
  function Slot(home: nat, k: nat, cap: nat): (s: nat)
    requires home < cap && k <= cap
    ensures s < cap
  {
    if home + k < cap then home + k else home + k - cap
  }

  function Home(mix: Double -> nat, fnv: string -> nat, v: Constant, cap: nat): (s: nat)
    requires cap > 0
    ensures s < cap
  {
    Masked(HashOf(mix, fnv, v), cap)
  }

  // ---- The index ----

  /** What the index has to do with the pool. Slot contents are pool indices plus one, 0 when
      empty; `dist[i]` says how many filled slots a probe for entry i passes before its own. */
  ghost predicate Indexed(mix: Double -> nat, fnv: string -> nat, table: seq<nat>, pool: seq<Constant>,
                          dist: seq<nat>) {
    && |dist| == |pool| && |table| > 0
    && (forall i :: 0 <= i < |pool| && pool[i].Hashable() ==>
        Placed(table, Home(mix, fnv, pool[i], |table|), dist[i], i))
    && (forall s :: 0 <= s < |table| && table[s] != 0 ==>
        table[s] <= |pool| && pool[table[s] - 1].Hashable()
        && dist[table[s] - 1] < |table|
        && s == Slot(Home(mix, fnv, pool[table[s] - 1], |table|), dist[table[s] - 1], |table|))
    && (forall i, j ::
        (0 <= i < j < |pool| && pool[i].Hashable() && pool[j].Hashable()
         && Home(mix, fnv, pool[i], |table|) == Home(mix, fnv, pool[j], |table|)) ==>
        dist[i] < dist[j])
  }

  /** Probing from `home` meets only filled slots before the `d`-th, which holds entry i. */
  ghost predicate Placed(table: seq<nat>, home: nat, d: nat, i: nat)
    requires home < |table|
  {
    && d < |table|
    && table[Slot(home, d, |table|)] == i + 1
    && AllFilled(table, home, d)
  }

  ghost predicate AllFilled(table: seq<nat>, home: nat, d: nat)
    requires home < |table| && d <= |table|
  {
    forall k :: 0 <= k < d ==> table[Slot(home, k, |table|)] != 0
  }

  function Hashables(pool: seq<Constant>): (n: nat)
    ensures n <= |pool|
  {
    if pool == [] then 0 else Hashables(pool[..|pool| - 1]) + if pool[|pool| - 1].Hashable() then 1 else 0
  }

  /** Where the i-th of the others is, when the k-th is left out. */
  function Skipping(i: nat, k: nat): nat {
    if i < k then i else i + 1
  }

  /** Distinct hashable entries of the pool number at most `Hashables(pool)`. */
  lemma {:induction false} EntriesFit(pool: seq<Constant>, entries: seq<nat>)
    requires forall i :: 0 <= i < |entries| ==> entries[i] < |pool| && pool[entries[i]].Hashable()
    requires forall i, j :: 0 <= i < j < |entries| ==> entries[i] != entries[j]
    ensures |entries| <= Hashables(pool)
  {
    assert entries != [] ==> entries[0] < |pool|;
    if pool == [] {
      assert entries == [];
    } else {
      var last := |pool| - 1;
      if last in entries {
        var k :| 0 <= k < |entries| && entries[k] == last;
        var rest := entries[..k] + entries[k + 1..];
        forall i | 0 <= i < |rest|
          ensures rest[i] < last && pool[..last][rest[i]].Hashable()
          ensures rest[i] == entries[Skipping(i, k)]
        {
          assert entries[Skipping(i, k)] != entries[k];
        }
        EntriesFit(pool[..last], rest);
      } else {
        assert forall i :: 0 <= i < |entries| ==> entries[i] != last && entries[i] < last;
        EntriesFit(pool[..last], entries);
      }
    }
  }

  /** A table with more slots than hashable entries has an empty slot on every probe path. */
  lemma NotAllFilled(mix: Double -> nat, fnv: string -> nat, table: seq<nat>, pool: seq<Constant>, dist: seq<nat>,
                     home: nat)
    requires Indexed(mix, fnv, table, pool, dist) && Hashables(pool) < |table| && home < |table|
    ensures !AllFilled(table, home, |table|)
  {
    if AllFilled(table, home, |table|) {
      var cap := |table|;
      var entries: seq<nat> := seq(cap, k requires 0 <= k < cap => table[Slot(home, k, cap)] - 1);
      forall i, j | 0 <= i < j < cap ensures entries[i] != entries[j] {
        assert Slot(home, i, cap) != Slot(home, j, cap);
      }
      EntriesFit(pool, entries);
    }
  }

  /** Putting a new hashable entry into the first empty slot of its probe path keeps the index. */
  lemma IndexedInsert(mix: Double -> nat, fnv: string -> nat, table: seq<nat>, pool: seq<Constant>, dist: seq<nat>,
                      v: Constant, k: nat)
    requires Indexed(mix, fnv, table, pool, dist) && v.Hashable() && k < |table|
    requires AllFilled(table, Home(mix, fnv, v, |table|), k)
    requires table[Slot(Home(mix, fnv, v, |table|), k, |table|)] == 0
    ensures Indexed(mix, fnv, table[Slot(Home(mix, fnv, v, |table|), k, |table|) := |pool| + 1], pool + [v], dist + [k])
  {
    hide Home, HashOf;
    var home := Home(mix, fnv, v, |table|);
    forall i | 0 <= i < |pool| && pool[i].Hashable() && Home(mix, fnv, pool[i], |table|) == home
      ensures dist[i] < k
    {
      // Entry i's own path is filled up to and including its slot, so the first gap comes after it.
      assert Placed(table, home, dist[i], i);
    }
  }

  /** A constant that is not hashable leaves the index as it is. */
  lemma IndexedSkip(mix: Double -> nat, fnv: string -> nat, table: seq<nat>, pool: seq<Constant>, dist: seq<nat>,
                    v: Constant)
    requires Indexed(mix, fnv, table, pool, dist) && !v.Hashable()
    ensures Indexed(mix, fnv, table, pool + [v], dist + [0])
  {
    hide Home, HashOf, Placed;
  }

  /** The first k slots probed from `home` are filled with entries not equal to `v`. */
  ghost predicate Passed(table: seq<nat>, pool: seq<Constant>, home: nat, v: Constant, k: nat)
    requires home < |table| && k <= |table|
  {
    forall j :: 0 <= j < k ==>
      var e := table[Slot(home, j, |table|)]; 0 < e <= |pool| && !ConstEqual(v, pool[e - 1])
  }

  /** An entry equal to `v` sits on the probe path of `v`. */
  lemma EqualOnPath(mix: Double -> nat, fnv: string -> nat, table: seq<nat>, pool: seq<Constant>, dist: seq<nat>,
                    v: Constant, i: nat)
    requires Indexed(mix, fnv, table, pool, dist) && i < |pool| && ConstEqual(v, pool[i])
    ensures |dist| == |pool| && Placed(table, Home(mix, fnv, v, |table|), dist[i], i)
  {
    EqualHashesEqual(mix, fnv, v, pool[i]);
    assert pool[i].Hashable() && Home(mix, fnv, pool[i], |table|) == Home(mix, fnv, v, |table|);
    hide Home, HashOf, Placed;
  }

  /** Of two entries equal to `v` the earlier one is nearer on the probe path. */
  lemma EarlierIsNearer(mix: Double -> nat, fnv: string -> nat, table: seq<nat>, pool: seq<Constant>, dist: seq<nat>,
                        v: Constant, i: nat, j: nat)
    requires Indexed(mix, fnv, table, pool, dist) && i < j < |pool| && ConstEqual(v, pool[i]) && ConstEqual(v, pool[j])
    ensures |dist| == |pool| && dist[i] < dist[j]
  {
    EqualHashesEqual(mix, fnv, v, pool[i]);
    EqualHashesEqual(mix, fnv, v, pool[j]);
    assert pool[i].Hashable() && pool[j].Hashable();
    assert Home(mix, fnv, pool[i], |table|) == Home(mix, fnv, pool[j], |table|);
    hide Home, HashOf, Placed;
  }

  /** Slots of one probe path are distinct. */
  lemma SlotsApart(home: nat, j: nat, k: nat, cap: nat)
    requires home < cap && j < cap && k < cap && Slot(home, j, cap) == Slot(home, k, cap)
    ensures j == k
  {
  }

  /** The first equal entry met while probing is the first equal entry of the pool. */
  lemma FirstProbedIsFirst(mix: Double -> nat, fnv: string -> nat, table: seq<nat>, pool: seq<Constant>,
                           dist: seq<nat>, v: Constant, k: nat)
    requires Indexed(mix, fnv, table, pool, dist) && v.Hashable() && k < |table|
    requires Passed(table, pool, Home(mix, fnv, v, |table|), v, k)
    requires
      var e := table[Slot(Home(mix, fnv, v, |table|), k, |table|)];
      e == 0 || (e <= |pool| && ConstEqual(v, pool[e - 1]))
    ensures var e := table[Slot(Home(mix, fnv, v, |table|), k, |table|)];
      Scan(pool, v, 0) == if e == 0 then |pool| else e - 1
  {
    hide HashOf, Home, Indexed, ConstEqual, Slot;
    var home := Home(mix, fnv, v, |table|);
    var e := table[Slot(home, k, |table|)];
    var first := Scan(pool, v, 0);
    if first < |pool| {
      EqualOnPath(mix, fnv, table, pool, dist, v, first);
      PathEndsAfter(table, pool, home, v, k, dist[first], first);
    }
    if e != 0 {
      EqualOnPath(mix, fnv, table, pool, dist, v, e - 1);
      PathEndsAfter(table, pool, home, v, k, dist[e - 1], e - 1);
      InItsSlot(mix, fnv, table, pool, dist, v, k, e - 1);
      if first < e - 1 {
        EarlierIsNearer(mix, fnv, table, pool, dist, v, first, e - 1);
      }
    }
  }

  /** An entry equal to `v` lies no nearer on the probe path than what was passed, and no farther than a gap. */
  lemma PathEndsAfter(table: seq<nat>, pool: seq<Constant>, home: nat, v: Constant, k: nat, d: nat, i: nat)
    requires home < |table| && k < |table| && Passed(table, pool, home, v, k)
    requires i < |pool| && ConstEqual(v, pool[i]) && Placed(table, home, d, i)
    ensures d >= k && table[Slot(home, k, |table|)] != 0
  {
    hide ConstEqual, Slot;
  }

  /** The entry in the k-th slot of its own probe path is at distance k. */
  lemma InItsSlot(mix: Double -> nat, fnv: string -> nat, table: seq<nat>, pool: seq<Constant>, dist: seq<nat>,
                  v: Constant, k: nat, i: nat)
    requires Indexed(mix, fnv, table, pool, dist) && k < |table| && i < |pool| && ConstEqual(v, pool[i])
    requires table[Slot(Home(mix, fnv, v, |table|), k, |table|)] == i + 1
    ensures |dist| == |pool| && dist[i] == k
  {
    EqualHashesEqual(mix, fnv, v, pool[i]);
    var home := Home(mix, fnv, v, |table|);
    assert Home(mix, fnv, pool[i], |table|) == home;
    hide Home, HashOf, Placed, Slot;
    assert Slot(home, k, |table|) == Slot(home, dist[i], |table|);
    SlotsApart(home, k, dist[i], |table|);
  }

  lemma EntryInPool(mix: Double -> nat, fnv: string -> nat, table: seq<nat>, pool: seq<Constant>, dist: seq<nat>,
                    s: nat)
    requires Indexed(mix, fnv, table, pool, dist) && s < |table| && table[s] != 0
    ensures table[s] <= |pool|
  {
  }

  // ---- The pool ----

  const FIRST_CAP: nat := 64

  class Pool {
    var constants: seq<Constant>
    var table: array<nat>  // `const_dedup`; empty until the first hashable add
    const mix: Double -> nat
    const fnv: string -> nat
    ghost var dist: seq<nat>

    /** The index describes the pool, and is at most half full. */
    ghost predicate Valid()
      reads this, table
    {
      && (table.Length == 0 || (table.Length >= FIRST_CAP && Indexed(mix, fnv, table[..], constants, dist)))
      && 2 * Hashables(constants) <= table.Length
    }

    constructor (mix: Double -> nat, fnv: string -> nat)
      ensures Valid() && fresh(table) && constants == []
    {
      this.mix := mix;
      this.fnv := fnv;
      constants, dist := [], [];
      table := new nat[0];
    }

    /** Store entry `index`, the constant `v`, at the first empty slot of its probe path. */
    method Insert(v: Constant, index: nat, ghost pool: seq<Constant>, ghost before: seq<nat>) returns (ghost k: nat)
      requires v.Hashable() && index == |pool|
      requires table.Length > 0 && Indexed(mix, fnv, table[..], pool, before) && Hashables(pool) < table.Length
      modifies table
      ensures Indexed(mix, fnv, table[..], pool + [v], before + [k])
    {
      hide HashOf, Home, Indexed;
      ghost var home := Home(mix, fnv, v, table.Length);
      ghost var filled := table[..];
      var s := Home(mix, fnv, v, table.Length);
      k := 0;
      while table[s] != 0
        invariant k < table.Length && s == Slot(home, k, table.Length)
        invariant table[..] == filled && AllFilled(filled, home, k)
        decreases table.Length - k
      {
        assert AllFilled(filled, home, k + 1);
        if k + 1 == table.Length {
          NotAllFilled(mix, fnv, filled, pool, before, home);
        }
        s := Masked(s + 1, table.Length);
        k := k + 1;
      }
      IndexedInsert(mix, fnv, filled, pool, before, v, k);
      var entry: nat := index + 1;
      table[s] := entry;
      assert table[..] == filled[s := entry];
    }

    /** Enter constant `i` again, if it is hashable. */
    method Reenter(i: nat)
      requires i < |constants| && 0 < table.Length && Hashables(constants) < table.Length
      requires Indexed(mix, fnv, table[..], constants[..i], dist)
      modifies this`dist, table
      ensures Indexed(mix, fnv, table[..], constants[..i + 1], dist)
    {
      hide Indexed, HashOf, Home;
      var v := constants[i];
      ghost var before := constants[..i];
      assert constants[..i + 1] == before + [v];
      HashablesPrefix(constants, i);
      hide Hashables;
      if v.Hashable() {
        ghost var k := Insert(v, i, before, dist);
        dist := dist + [k];
      } else {
        IndexedSkip(mix, fnv, table[..], before, dist, v);
        dist := dist + [0];
      }
    }

    /** Double the table and enter every hashable constant again, in pool order. */
    method Grow()
      requires Valid()
      modifies this`table, this`dist
      ensures Valid() && fresh(table) && constants == old(constants)
      ensures table.Length == if old(table.Length) == 0 then FIRST_CAP else 2 * old(table.Length)
    {
      var cap := if table.Length == 0 then FIRST_CAP else table.Length * 2;
      table := new nat[cap](_ => 0);
      dist := [];
      assert Indexed(mix, fnv, table[..], constants[..0], dist);
      hide Indexed, Hashables;
      for i := 0 to |constants|
        invariant constants == old(constants) && fresh(table) && table.Length == cap
        invariant Indexed(mix, fnv, table[..], constants[..i], dist)
      {
        Reenter(i);
      }
      assert constants[..|constants|] == constants;
    }

    /** Probe for a constant equal to `v`: the pool index of the first one, or the pool's
        length. A positional add probes to the first empty slot without comparing. */
    method Find(v: Constant, dedup: bool) returns (at: nat)
      requires Valid() && table.Length > 0 && v.Hashable()
      ensures at == if dedup then Scan(constants, v, 0) else |constants|
    {
      hide HashOf, Home, Indexed, Placed, ConstEqual, Scan;
      ghost var filled := table[..];
      var home := Home(mix, fnv, v, table.Length);
      var s, k: nat := home, 0;
      while table[s] != 0
        invariant k < table.Length && s == Slot(home, k, table.Length)
        invariant AllFilled(filled, home, k)
        invariant dedup ==> Passed(filled, constants, home, v, k)
        decreases table.Length - k
      {
        EntryInPool(mix, fnv, filled, constants, dist, s);
        if dedup && ConstEqual(v, constants[table[s] - 1]) {
          FirstProbedIsFirst(mix, fnv, filled, constants, dist, v, k);
          return table[s] - 1;
        }
        assert AllFilled(filled, home, k + 1);
        if k + 1 == table.Length {
          NotAllFilled(mix, fnv, filled, constants, dist, home);
        }
        s := Masked(s + 1, table.Length);
        k := k + 1;
      }
      if dedup {
        FirstProbedIsFirst(mix, fnv, filled, constants, dist, v, k);
      }
      return |constants|;
    }

    /** Add a constant. The new pool and the returned index are exactly the linear scan's, for
        any interleaving of deduplicating and positional adds. */
    method Add(v: Constant, dedup: bool) returns (at: nat)
      requires Valid()
      modifies this`constants, this`table, this`dist, table
      ensures Valid() && (table == old(table) || fresh(table))
      ensures (constants, at) == Added(old(constants), v, dedup)
    {
      hide HashOf, Home, Indexed, Hashables, Scan;
      if v.Hashable() {
        if (|constants| + 1) * 2 > table.Length {
          Grow();
        }
        at := Find(v, dedup);
        if at < |constants| {
          return at;
        }
      }
      HashablesAppend(constants, v);
      if v.Hashable() {
        ghost var k := Insert(v, |constants|, constants, dist);
        dist := dist + [k];
      } else {
        if table.Length > 0 {
          IndexedSkip(mix, fnv, table[..], constants, dist, v);
        }
        dist := dist + [0];
      }
      at := |constants|;
      constants := constants + [v];
    }
  }

  lemma HashablesAppend(pool: seq<Constant>, v: Constant)
    ensures Hashables(pool + [v]) == Hashables(pool) + if v.Hashable() then 1 else 0
    ensures Hashables(pool) <= |pool|
  {
    assert (pool + [v])[..|pool|] == pool;
  }

  lemma {:induction false} HashablesPrefix(pool: seq<Constant>, i: nat)
    requires i <= |pool|
    ensures Hashables(pool[..i]) <= Hashables(pool)
    decreases |pool|
  {
    if i == |pool| {
      assert pool[..i] == pool;
    } else {
      var last := |pool| - 1;
      HashablesPrefix(pool[..last], i);
      assert pool[..last][..i] == pool[..i];
    }
  }
}
