/** Which entries an object has, from its members: repeated keys keep their first place and take their last value. */
module JsonMembers {
  import opened Bytes
  import opened Json
  import opened JsonGrammar

  // ---- Setting one key ----

  /** The entry at `j` is the one for `key`. */
  predicate EntryFor<N>(d: seq<(seq<Byte>, Value<N>)>, key: seq<Byte>, j: int) {
    0 <= j < |d| && d[j].0 == key
  }

  ghost predicate Has<N>(d: seq<(seq<Byte>, Value<N>)>, key: seq<Byte>) {
    exists j :: EntryFor(d, key, j)
  }

  /** `r` is `d` with `key` set to `v`: all keys are at their places and all other values as they were; the key has the
      value, in its place if it had one, else at the end. */
  ghost predicate Sets<N>(d: seq<(seq<Byte>, Value<N>)>, key: seq<Byte>, v: Value<N>,
                          r: seq<(seq<Byte>, Value<N>)>) {
    && |r| == |d| + (if Has(d, key) then 0 else 1)
    && (forall j :: 0 <= j < |d| ==> r[j] == if d[j].0 == key then (key, v) else d[j])
    && (!Has(d, key) ==> r[|d|] == (key, v))
  }

  lemma {:induction false} DictSetSets<N>(d: seq<(seq<Byte>, Value<N>)>, key: seq<Byte>, v: Value<N>)
    requires DistinctKeys(d)
    ensures Sets(d, key, v, DictSet(d, key, v))
    decreases |d|
  {
    if d != [] {
      hide Sets, Has;
      if d[0].0 == key {
        SetsFirst(d, key, v);
      } else {
        DictSetSets(d[1..], key, v);
        SetsLater(d, key, v, DictSet(d[1..], key, v));
      }
    }
  }

  lemma SetsFirst<N>(d: seq<(seq<Byte>, Value<N>)>, key: seq<Byte>, v: Value<N>)
    requires DistinctKeys(d) && d != [] && d[0].0 == key
    ensures Sets(d, key, v, [(key, v)] + d[1..])
  {
    assert EntryFor(d, key, 0);
  }

  lemma HasLater<N>(d: seq<(seq<Byte>, Value<N>)>, key: seq<Byte>)
    requires d != [] && d[0].0 != key
    ensures Has(d, key) <==> Has(d[1..], key)
  {
    if Has(d[1..], key) {
      var j :| EntryFor(d[1..], key, j);
      assert EntryFor(d, key, j + 1);
    }
    if Has(d, key) {
      var j :| EntryFor(d, key, j);
      assert EntryFor(d[1..], key, j - 1);
    }
  }

  lemma SetsLater<N>(d: seq<(seq<Byte>, Value<N>)>, key: seq<Byte>, v: Value<N>, r: seq<(seq<Byte>, Value<N>)>)
    requires d != [] && d[0].0 != key && Sets(d[1..], key, v, r)
    ensures Sets(d, key, v, [d[0]] + r)
  {
    hide Has;
    HasLater(d, key);
    var rest, s := d[1..], [d[0]] + r;
    forall j | 0 <= j < |d| ensures s[j] == if d[j].0 == key then (key, v) else d[j] {
      if j > 0 {
        assert s[j] == r[j - 1] && d[j] == rest[j - 1];
      }
    }
  }

  // ---- Setting the keys of members in turn ----

  /** No later pair has the key of the pair at `i`. */
  predicate IsLast<N>(ps: seq<(seq<Byte>, Value<N>)>, i: int) {
    0 <= i < |ps| && forall h :: i < h < |ps| ==> ps[h].0 != ps[i].0
  }

  /** The pair is the last one with its key. */
  ghost predicate LastOf<N>(ps: seq<(seq<Byte>, Value<N>)>, e: (seq<Byte>, Value<N>)) {
    exists i :: IsLast(ps, i) && ps[i] == e
  }

  /** `a` occurs before every occurrence of `b`. */
  ghost predicate Precedes<N>(ps: seq<(seq<Byte>, Value<N>)>, a: seq<Byte>, b: seq<Byte>) {
    forall h :: EntryFor(ps, b, h) ==> exists i :: i < h && EntryFor(ps, a, i)
  }

  /** The entries `d` have the keys of the pairs `ps`, each once, in the order in which they first occur, and each key
      has the value of the last pair with it. */
  ghost predicate Gathers<N>(ps: seq<(seq<Byte>, Value<N>)>, d: seq<(seq<Byte>, Value<N>)>) {
    && DistinctKeys(d)
    && (forall i :: 0 <= i < |ps| ==> Has(d, ps[i].0))
    && (forall j :: 0 <= j < |d| ==> LastOf(ps, d[j]))
    && (forall j, l :: 0 <= j < l < |d| ==> Precedes(ps, d[j].0, d[l].0))
  }

  lemma KeysStayDistinct<N>(d: seq<(seq<Byte>, Value<N>)>, key: seq<Byte>, v: Value<N>, r: seq<(seq<Byte>, Value<N>)>)
    requires DistinctKeys(d) && Sets(d, key, v, r)
    ensures DistinctKeys(r)
  {
    assert forall j :: 0 <= j < |d| && d[j].0 == key ==> EntryFor(d, key, j);
  }

  lemma HasOneMore<N>(ps: seq<(seq<Byte>, Value<N>)>, d: seq<(seq<Byte>, Value<N>)>, key: seq<Byte>, v: Value<N>,
                      r: seq<(seq<Byte>, Value<N>)>, i: int)
    requires Gathers(ps, d) && Sets(d, key, v, r) && 0 <= i <= |ps|
    ensures Has(r, (ps + [(key, v)])[i].0)
  {
    var k := (ps + [(key, v)])[i].0;
    if Has(d, k) {
      var j :| EntryFor(d, k, j);
      assert EntryFor(r, k, j);
    } else {
      assert i == |ps|;
      assert EntryFor(r, key, |d|);
    }
  }

  lemma LastOneMore<N>(ps: seq<(seq<Byte>, Value<N>)>, d: seq<(seq<Byte>, Value<N>)>, key: seq<Byte>, v: Value<N>,
                       r: seq<(seq<Byte>, Value<N>)>, j: int)
    requires Gathers(ps, d) && Sets(d, key, v, r) && 0 <= j < |r|
    ensures LastOf(ps + [(key, v)], r[j])
  {
    hide Has, DistinctKeys, Precedes;
    var more := ps + [(key, v)];
    if r[j].0 == key {
      assert IsLast(more, |ps|) && more[|ps|] == r[j];
    } else {
      assert LastOf(ps, d[j]);
      var i :| IsLast(ps, i) && ps[i] == d[j];
      assert IsLast(more, i) && more[i] == r[j];
    }
  }

  lemma Occurs<N>(ps: seq<(seq<Byte>, Value<N>)>, e: (seq<Byte>, Value<N>)) returns (h: int)
    requires LastOf(ps, e)
    ensures EntryFor(ps, e.0, h)
  {
    h :| IsLast(ps, h) && ps[h] == e;
  }

  /** One more pair with a key that occurs already, or that is new, keeps what occurs first. */
  lemma PrecedesOneMore<N>(ps: seq<(seq<Byte>, Value<N>)>, e: (seq<Byte>, Value<N>), a: seq<Byte>, b: seq<Byte>, i: int)
    requires EntryFor(ps, a, i) && (Precedes(ps, a, b) || !Has(ps, b))
    ensures Precedes(ps + [e], a, b)
  {
    var more := ps + [e];
    assert EntryFor(more, a, i);
    forall h | EntryFor(more, b, h) ensures exists g :: g < h && EntryFor(more, a, g) {
      if h < |ps| {
        assert EntryFor(ps, b, h);
        var g :| g < h && EntryFor(ps, a, g);
        assert EntryFor(more, a, g);
      }
    }
  }

  lemma OnlyKnownKeys<N>(ps: seq<(seq<Byte>, Value<N>)>, d: seq<(seq<Byte>, Value<N>)>, key: seq<Byte>)
    requires Gathers(ps, d)
    ensures Has(ps, key) ==> Has(d, key)
  {
  }

  lemma OrderOneMore<N>(ps: seq<(seq<Byte>, Value<N>)>, d: seq<(seq<Byte>, Value<N>)>, key: seq<Byte>, v: Value<N>,
                        r: seq<(seq<Byte>, Value<N>)>, j: int, l: int)
    requires Gathers(ps, d) && Sets(d, key, v, r) && 0 <= j < l < |r|
    ensures Precedes(ps + [(key, v)], r[j].0, r[l].0)
  {
    hide DistinctKeys, Precedes, LastOf;
    var i := Occurs(ps, d[j]);
    OnlyKnownKeys(ps, d, key);
    PrecedesOneMore(ps, (key, v), r[j].0, r[l].0, i);
  }

  lemma GathersOneMore<N>(ps: seq<(seq<Byte>, Value<N>)>, d: seq<(seq<Byte>, Value<N>)>, key: seq<Byte>, v: Value<N>)
    requires Gathers(ps, d)
    ensures Gathers(ps + [(key, v)], DictSet(d, key, v))
  {
    hide DictSet, Sets, Has, LastOf, Precedes;
    var more, r := ps + [(key, v)], DictSet(d, key, v);
    DictSetSets(d, key, v);
    KeysStayDistinct(d, key, v, r);
    forall i | 0 <= i < |more| ensures Has(r, more[i].0) {
      HasOneMore(ps, d, key, v, r, i);
    }
    forall j | 0 <= j < |r| ensures LastOf(more, r[j]) {
      LastOneMore(ps, d, key, v, r, j);
    }
    forall j, l | 0 <= j < l < |r| ensures Precedes(more, r[j].0, r[l].0) {
      OrderOneMore(ps, d, key, v, r, j, l);
    }
  }

  /** The keys and values of members, in order. */
  function Pairs<N>(k: Codec<N>, s: seq<Byte>, members: seq<Member>): (ps: seq<(seq<Byte>, Value<N>)>)
    ensures |ps| == |members|
  {
    seq(|members|, i requires 0 <= i < |members| =>
      (TextOf(s, members[i].key), MemberMeaning(k, s, members[i])))
  }

  lemma {:induction false} MembersGather<N>(k: Codec<N>, s: seq<Byte>, members: seq<Member>,
                                            ps: seq<(seq<Byte>, Value<N>)>, before: seq<(seq<Byte>, Value<N>)>)
    requires Gathers(ps, before)
    ensures Gathers(ps + Pairs(k, s, members), MembersMeaning(k, s, members, before))
    decreases members
  {
    hide Gathers, DictSet;
    if members == [] {
      assert ps + Pairs(k, s, members) == ps;
    } else {
      var key, v := TextOf(s, members[0].key), MemberMeaning(k, s, members[0]);
      GathersOneMore(ps, before, key, v);
      MembersGather(k, s, members[1..], ps + [(key, v)], DictSet(before, key, v));
      assert ps + [(key, v)] + Pairs(k, s, members[1..]) == ps + Pairs(k, s, members);
    }
  }

  /** The entries of the dictionary that an object stands for are gathered from the object's members. */
  lemma ObjectsGather<N>(k: Codec<N>, s: seq<Byte>, t: Tree)
    requires t.Object?
    ensures Meaning(k, s, t).Dict? && Gathers(Pairs(k, s, t.members), Meaning(k, s, t).entries)
  {
    hide MembersMeaning;
    var none: seq<(seq<Byte>, Value<N>)> := [];
    MembersGather(k, s, t.members, none, none);
    assert none + Pairs(k, s, t.members) == Pairs(k, s, t.members);
  }

  // ---- The members determine the entries ----

  lemma {:induction false} NotBothWays<N>(ps: seq<(seq<Byte>, Value<N>)>, a: seq<Byte>, b: seq<Byte>, h: int)
    requires EntryFor(ps, a, h)
    ensures !(Precedes(ps, a, b) && Precedes(ps, b, a))
    decreases h
  {
    if Precedes(ps, a, b) && Precedes(ps, b, a) {
      var i :| i < h && EntryFor(ps, b, i);
      NotBothWays(ps, b, a, i);
    }
  }

  /** The key at `j` occurs in the pairs, and so has a place in whatever else they gather to. */
  lemma Placed<N>(ps: seq<(seq<Byte>, Value<N>)>, d: seq<(seq<Byte>, Value<N>)>, e: seq<(seq<Byte>, Value<N>)>, j: int)
    returns (h: int, p: int)
    requires Gathers(ps, d) && Gathers(ps, e) && 0 <= j < |d|
    ensures EntryFor(ps, d[j].0, h) && EntryFor(e, d[j].0, p)
  {
    hide Precedes, LastOf, DistinctKeys;
    h := Occurs(ps, d[j]);
    assert Has(e, ps[h].0);
    p :| EntryFor(e, d[j].0, p);
  }

  lemma {:induction false} SameKeys<N>(ps: seq<(seq<Byte>, Value<N>)>, d: seq<(seq<Byte>, Value<N>)>,
                                       e: seq<(seq<Byte>, Value<N>)>, n: nat)
    requires Gathers(ps, d) && Gathers(ps, e) && n <= |d|
    ensures n <= |e| && forall j :: 0 <= j < n ==> d[j].0 == e[j].0
    decreases n
  {
    hide Has, LastOf, Precedes;
    if n > 0 {
      SameKeys(ps, d, e, n - 1);
      var j := n - 1;
      var h, p := Placed(ps, d, e, j);
      assert p >= j;
      if p != j {
        var g, q := Placed(ps, e, d, j);
        assert q > j;
        NotBothWays(ps, d[j].0, e[j].0, h);
      }
    }
  }

  lemma GatheredOnce<N>(ps: seq<(seq<Byte>, Value<N>)>, d: seq<(seq<Byte>, Value<N>)>, e: seq<(seq<Byte>, Value<N>)>)
    requires Gathers(ps, d) && Gathers(ps, e)
    ensures d == e
  {
    SameKeys(ps, d, e, |d|);
    SameKeys(ps, e, d, |e|);
    hide Has, Precedes;
    forall j | 0 <= j < |d| ensures d[j] == e[j] {
      assert LastOf(ps, d[j]) && LastOf(ps, e[j]);
      var h :| IsLast(ps, h) && ps[h] == d[j];
      var g :| IsLast(ps, g) && ps[g] == e[j];
      assert !(h < g) && !(g < h);
    }
  }
}
