/** The arena: bump allocation in blocks, one mark, reset to it. */
module Arena {
  const BLOCK_SIZE: nat := 16 * 1024 * 1024
  const MAX_BLOCKS: nat := 64

  /** Where an allocation is: bytes of a block, or memory of its own from the system. */
  datatype Place = InBlock(block: nat, start: nat, size: nat) | Overflow(id: nat)

  /** The fields of the arena; pointers of the system are numbers. `overflows` counts the blocks that
      the system has handed out for overflow, and the `freed` fields list what has been given back to it. */
  datatype State = State(
    blockCount: nat, current: nat, offset: nat,
    markBlock: nat, markOffset: nat, active: bool, total: nat,
    strings: seq<nat>, markStrings: nat, freedStrings: seq<nat>,
    fallbacks: seq<nat>, markFallbacks: nat, freedFallbacks: seq<nat>, overflows: nat)

  const INITIAL := State(1, 0, 0, 0, 0, false, 0, [], 0, [], [], 0, [], 0)

  function Rounded(size: nat): (r: nat)
    ensures size <= r < size + 8 && r % 8 == 0
  {
    (size + 7) / 8 * 8
  }

  // ---- The operations on the fields ----

  function PlaceOf(s: State, size: nat): Place {
    var n := Rounded(size);
    if s.offset + n <= BLOCK_SIZE then InBlock(s.current, s.offset, n)
    else if s.current + 1 >= s.blockCount >= MAX_BLOCKS then Overflow(s.overflows)
    else InBlock(s.current + 1, 0, n)
  }

  function AfterAlloc(s: State, size: nat): State {
    match PlaceOf(s, size)
    case Overflow(id) =>
      s.(current := s.current + 1, fallbacks := s.fallbacks + [id], overflows := s.overflows + 1)
    case InBlock(block, start, n) =>
      s.(current := block, offset := start + n, total := s.total + n,
         blockCount := if block != s.current && block >= s.blockCount then s.blockCount + 1 else s.blockCount)
  }

  function AfterTrack(s: State, p: nat): State {
    s.(strings := s.strings + [p])
  }

  function AfterMark(s: State): State {
    s.(markBlock := s.current, markOffset := s.offset, markStrings := |s.strings|, markFallbacks := |s.fallbacks|,
      active := true)
  }

  function AfterReset(s: State): State
    requires s.markStrings <= |s.strings| && s.markFallbacks <= |s.fallbacks|
  {
    s.(current := s.markBlock, offset := s.markOffset, active := false,
       strings := s.strings[..s.markStrings], freedStrings := s.freedStrings + s.strings[s.markStrings..],
       fallbacks := s.fallbacks[..s.markFallbacks], freedFallbacks := s.freedFallbacks + s.fallbacks[s.markFallbacks..])
  }

  function AfterDestroy(s: State): State {
    State(0, 0, 0, 0, 0, false, 0,
          [], 0, s.freedStrings + s.strings, [], 0, s.freedFallbacks + s.fallbacks, s.overflows)
  }

  /** The per-thread arena. */
  class Arena {
    var blockCount: nat
    var current: nat
    var offset: nat
    var markBlock: nat
    var markOffset: nat
    var active: bool
    var total: nat
    var strings: seq<nat>
    var markStrings: nat
    var freedStrings: seq<nat>
    var fallbacks: seq<nat>
    var markFallbacks: nat
    var freedFallbacks: seq<nat>
    var overflows: nat

    function Fields(): State
      reads this
    {
      State(blockCount, current, offset, markBlock, markOffset, active, total,
            strings, markStrings, freedStrings, fallbacks, markFallbacks, freedFallbacks, overflows)
    }

    constructor ()
      ensures Fields() == INITIAL
    {
      blockCount, current, offset, markBlock, markOffset := 1, 0, 0, 0, 0;
      active, total := false, 0;
      strings, markStrings, freedStrings := [], 0, [];
      fallbacks, markFallbacks, freedFallbacks, overflows := [], 0, [], 0;
    }

    method Alloc(size: nat) returns (p: Place)
      modifies this
      ensures p == PlaceOf(old(Fields()), size) && Fields() == AfterAlloc(old(Fields()), size)
    {
      var n := (size + 7) / 8 * 8;
      if offset + n > BLOCK_SIZE {
        current := current + 1;
        if current >= blockCount {
          if blockCount >= MAX_BLOCKS {
            p := Overflow(overflows);
            overflows := overflows + 1;
            fallbacks := fallbacks + [p.id];
            return;
          }
          blockCount := blockCount + 1;
        }
        offset := 0;
      }
      p := InBlock(current, offset, n);
      offset := offset + n;
      total := total + n;
    }

    method TrackString(p: nat)
      modifies this
      ensures Fields() == AfterTrack(old(Fields()), p)
    {
      strings := strings + [p];
    }

    method MarkPos()
      modifies this
      ensures Fields() == AfterMark(old(Fields()))
    {
      markBlock := current;
      markOffset := offset;
      markStrings := |strings|;
      markFallbacks := |fallbacks|;
      active := true;
    }

    /** Gives the strings and the overflow blocks from the given ones on back to the system. */
    method FreeFrom(firstString: nat, firstFallback: nat)
      requires firstString <= |strings| && firstFallback <= |fallbacks|
      modifies this`freedStrings, this`freedFallbacks
      ensures freedStrings == old(freedStrings) + strings[firstString..]
      ensures freedFallbacks == old(freedFallbacks) + fallbacks[firstFallback..]
    {
      for i := firstString to |strings|
        invariant freedStrings == old(freedStrings) + strings[firstString..i] && freedFallbacks == old(freedFallbacks)
      {
        freedStrings := freedStrings + [strings[i]];
      }
      assert strings[firstString..|strings|] == strings[firstString..];
      for i := firstFallback to |fallbacks|
        invariant freedFallbacks == old(freedFallbacks) + fallbacks[firstFallback..i]
        invariant freedStrings == old(freedStrings) + strings[firstString..]
      {
        freedFallbacks := freedFallbacks + [fallbacks[i]];
      }
      assert fallbacks[firstFallback..|fallbacks|] == fallbacks[firstFallback..];
    }

    method ResetToMark()
      requires markStrings <= |strings| && markFallbacks <= |fallbacks|
      modifies this
      ensures Fields() == AfterReset(old(Fields()))
    {
      FreeFrom(markStrings, markFallbacks);
      strings := strings[..markStrings];
      fallbacks := fallbacks[..markFallbacks];
      current := markBlock;
      offset := markOffset;
      active := false;
    }

    method ClearPositions()
      modifies this
      ensures Fields() == old(Fields()).(blockCount := 0, current := 0, offset := 0, markBlock := 0, markOffset := 0,
        active := false)
    {
      blockCount, current, offset := 0, 0, 0;
      markBlock, markOffset, active := 0, 0, false;
    }

    /** Everything goes back to the system. */
    method Destroy()
      modifies this
      ensures Fields() == AfterDestroy(old(Fields()))
    {
      assert strings[0..] == strings && fallbacks[0..] == fallbacks;
      FreeFrom(0, 0);
      ClearPositions();
      strings, fallbacks := [], [];
      markStrings, markFallbacks, total := 0, 0, 0;
    }
  }

  // ---- Runs ----

  datatype Op = Alloc(size: nat) | Track(p: nat) | Mark | Reset

  /** An arena together with what its clients hold: the live allocations, how many were live at the mark,
      and every string ever tracked. */
  datatype Record = Record(s: State, live: seq<Place>, marked: nat, tracked: seq<nat>)

  const FRESH := Record(INITIAL, [], 0, [])

  /** The mark lies within what there is. */
  predicate MarkInside(r: Record) {
    r.s.markStrings <= |r.s.strings| && r.s.markFallbacks <= |r.s.fallbacks| && r.marked <= |r.live|
  }

  function After(r: Record, op: Op): (r': Record)
    requires MarkInside(r)
    ensures MarkInside(r')
  {
    match op
    case Alloc(size) => r.(s := AfterAlloc(r.s, size), live := r.live + [PlaceOf(r.s, size)])
    case Track(p) => r.(s := AfterTrack(r.s, p), tracked := r.tracked + [p])
    case Mark => r.(s := AfterMark(r.s), marked := |r.live|)
    case Reset => r.(s := AfterReset(r.s), live := r.live[..r.marked])
  }

  function Run(r: Record, ops: seq<Op>): (r': Record)
    requires MarkInside(r)
    ensures MarkInside(r')
    decreases |ops|
  {
    if ops == [] then r else After(Run(r, ops[..|ops| - 1]), ops[|ops| - 1])
  }

  // ---- What every run keeps ----

  function End(p: Place): nat
    requires p.InBlock?
  {
    p.start + p.size
  }

  /** An address the arena owns. */
  predicate InBounds(s: State, p: Place) {
    match p
    case InBlock(block, start, size) => block < s.blockCount && start % 8 == 0 && start + size <= BLOCK_SIZE
    case Overflow(id) => id in s.fallbacks
  }

  predicate Apart(p: Place, q: Place) {
    match (p, q)
    case (InBlock(b, _, _), InBlock(c, _, _)) => b != c || End(p) <= q.start || End(q) <= p.start
    case (Overflow(i), Overflow(j)) => i != j
    case _ => true
  }

  /** The place ends before this position of the bump pointer. */
  predicate Below(p: Place, block: nat, offset: nat) {
    p.InBlock? ==> p.block < block || (p.block == block && End(p) <= offset)
  }

  /** The overflow blocks among some places, in order. */
  function OverflowIds(live: seq<Place>): seq<nat> {
    if live == [] then []
    else
      var ids := OverflowIds(live[..|live| - 1]);
      if live[|live| - 1].Overflow? then ids + [live[|live| - 1].id] else ids
  }

  /** The bump pointer and the mark: the mark is not ahead, and only a full arena has run out of blocks. */
  predicate Positions(s: State) {
    && 1 <= s.blockCount <= MAX_BLOCKS
    && (s.current >= s.blockCount ==> s.blockCount == MAX_BLOCKS)
    && (s.markBlock >= s.blockCount ==> s.blockCount == MAX_BLOCKS)
    && s.offset % 8 == 0 && s.markOffset % 8 == 0
    && (s.markBlock < s.current || (s.markBlock == s.current && s.markOffset <= s.offset))
  }

  /** Everything live is the arena's, apart from all else that is live, and behind the bump pointer;
      what was live at the mark is behind the mark. */
  ghost predicate Sound(r: Record) {
    && Positions(r.s) && MarkInside(r)
    && (forall i :: 0 <= i < |r.s.fallbacks| ==> r.s.fallbacks[i] < r.s.overflows)
    && (forall i :: 0 <= i < |r.live| ==> InBounds(r.s, r.live[i]) && Below(r.live[i], r.s.current, r.s.offset))
    && (forall i :: 0 <= i < r.marked ==> Below(r.live[i], r.s.markBlock, r.s.markOffset))
    && (forall i, j :: 0 <= i < j < |r.live| ==> Apart(r.live[i], r.live[j]))
  }

  /** The overflow blocks held are those live, and those held at the mark those live at the mark;
      each ever handed out is held or was given back, and once; the same for the strings tracked. */
  ghost predicate Balanced(r: Record) {
    && MarkInside(r)
    && r.s.fallbacks == OverflowIds(r.live)
    && r.s.fallbacks[..r.s.markFallbacks] == OverflowIds(r.live[..r.marked])
    && multiset(r.s.fallbacks) + multiset(r.s.freedFallbacks) == multiset(Ids(r.s.overflows))
    && multiset(r.s.strings) + multiset(r.s.freedStrings) == multiset(r.tracked)
  }

  function Ids(n: nat): (ids: seq<nat>)
    ensures |ids| == n && forall i :: 0 <= i < n ==> ids[i] == i
  {
    seq(n, i => i)
  }

  /** An allocation that ends inside its block, and does not use the bump pointer once the blocks are used up. */
  predicate Allowed(s: State, size: nat) {
    var n := Rounded(size);
    if s.offset + n <= BLOCK_SIZE then s.current < s.blockCount
    else s.current + 1 >= s.blockCount >= MAX_BLOCKS || n <= BLOCK_SIZE
  }

  predicate AllowedIn(r: Record, op: Op) {
    op.Alloc? ==> Allowed(r.s, op.size)
  }

  /** Every allocation of the run is allowed where it happens. */
  predicate AllAllowed(r: Record, ops: seq<Op>)
    requires MarkInside(r)
    decreases |ops|
  {
    ops == [] || (AllAllowed(r, ops[..|ops| - 1]) && AllowedIn(Run(r, ops[..|ops| - 1]), ops[|ops| - 1]))
  }

  /** An allocation lands in memory that the arena owns exactly when it is allowed. */
  lemma InBoundsIffAllowed(s: State, size: nat)
    requires Positions(s)
    ensures InBounds(AfterAlloc(s, size), PlaceOf(s, size)) <==> Allowed(s, size)
  {
  }

  lemma AllocKeepsPositions(s: State, size: nat)
    requires Positions(s)
    ensures Positions(AfterAlloc(s, size))
  {
  }

  lemma {:induction false} OverflowsAreListed(live: seq<Place>, i: nat)
    requires i < |live| && live[i].Overflow?
    ensures live[i].id in OverflowIds(live)
  {
    if i < |live| - 1 {
      OverflowsAreListed(live[..|live| - 1], i);
    }
  }

  /** A new place is the arena's, behind the new position, ahead of the old one, and apart from all before it. */
  lemma NewPlace(r: Record, size: nat, q: Place)
    requires Sound(r) && Allowed(r.s, size)
    ensures
      var s, p := AfterAlloc(r.s, size), PlaceOf(r.s, size);
      && InBounds(s, p) && Below(p, s.current, s.offset)
      && (InBounds(r.s, q) && Below(q, r.s.current, r.s.offset) ==>
        InBounds(s, q) && Below(q, s.current, s.offset) && Apart(q, p))
  {
  }

  lemma AllocKeepsSound(r: Record, size: nat)
    requires Sound(r) && Allowed(r.s, size)
    ensures Sound(After(r, Alloc(size)))
  {
    AllocKeepsPositions(r.s, size);
    var p, after := PlaceOf(r.s, size), After(r, Alloc(size));
    NewPlace(r, size, p);
    forall i | 0 <= i < |r.live|
      ensures InBounds(after.s, r.live[i]) && Below(r.live[i], after.s.current, after.s.offset) && Apart(r.live[i], p)
    {
      NewPlace(r, size, r.live[i]);
    }
    hide InBounds, Below, Apart, Allowed, PlaceOf, Positions;
  }

  lemma ResetKeepsSound(r: Record)
    requires Sound(r) && Balanced(r)
    ensures Sound(After(r, Reset))
  {
    var after := After(r, Reset);
    assert Positions(after.s);
    assert after.live == r.live[..r.marked];
    assert after.s.fallbacks == OverflowIds(after.live);
    forall i | 0 <= i < r.marked ensures InBounds(after.s, after.live[i]) {
      if after.live[i].Overflow? {
        OverflowsAreListed(after.live, i);
      }
    }
    hide OverflowIds;
  }

  lemma StepKeepsSound(r: Record, op: Op)
    requires Sound(r) && Balanced(r) && AllowedIn(r, op)
    ensures Sound(After(r, op))
  {
    match op {
      case Alloc(size) => AllocKeepsSound(r, size);
      case Reset => ResetKeepsSound(r);
      case Track(_) => hide Apart, Below;
      case Mark => hide Apart;
    }
  }

  // ---- Balance ----

  lemma AllocKeepsBalance(r: Record, size: nat)
    requires Balanced(r)
    ensures Balanced(After(r, Alloc(size)))
  {
    var p, after := PlaceOf(r.s, size), After(r, Alloc(size));
    assert after.live[..|after.live| - 1] == r.live;
    assert after.live[..r.marked] == r.live[..r.marked];
    if p.Overflow? {
      assert Ids(r.s.overflows + 1) == Ids(r.s.overflows) + [r.s.overflows];
      assert after.s.fallbacks[..r.s.markFallbacks] == r.s.fallbacks[..r.s.markFallbacks];
    }
  }

  lemma ResetKeepsBalance(r: Record)
    requires Balanced(r)
    ensures Balanced(After(r, Reset))
  {
    var s := r.s;
    assert s.fallbacks == s.fallbacks[..s.markFallbacks] + s.fallbacks[s.markFallbacks..];
    assert s.strings == s.strings[..s.markStrings] + s.strings[s.markStrings..];
    var after := After(r, Reset);
    assert after.live[..r.marked] == after.live == r.live[..r.marked];
    assert after.s.fallbacks[..s.markFallbacks] == after.s.fallbacks;
    hide OverflowIds, Ids;
  }

  lemma StepKeepsBalance(r: Record, op: Op)
    requires Balanced(r)
    ensures Balanced(After(r, op))
  {
    match op {
      case Alloc(size) => AllocKeepsBalance(r, size);
      case Reset => ResetKeepsBalance(r);
      case Track(_) =>
      case Mark =>
        assert r.s.fallbacks[..|r.s.fallbacks|] == r.s.fallbacks && r.live[..|r.live|] == r.live;
    }
  }

  lemma {:induction false} RunsKeepBalance(r: Record, ops: seq<Op>)
    requires MarkInside(r) && Balanced(r)
    ensures Balanced(Run(r, ops))
    decreases |ops|
  {
    if ops != [] {
      RunsKeepBalance(r, ops[..|ops| - 1]);
      hide Balanced, AfterAlloc;
      StepKeepsBalance(Run(r, ops[..|ops| - 1]), ops[|ops| - 1]);
    }
  }

  lemma RunsAreBalanced(ops: seq<Op>)
    ensures Balanced(Run(FRESH, ops))
  {
    assert Ids(0) == [];
    RunsKeepBalance(FRESH, ops);
  }

  /** Over any run whatever, each string tracked and each overflow block is given back once by the time the arena is
      gone. */
  lemma EverythingIsFreedOnce(ops: seq<Op>)
    ensures
      var r := Run(FRESH, ops);
      var s := AfterDestroy(r.s);
      && multiset(s.freedStrings) == multiset(r.tracked)
      && multiset(s.freedFallbacks) == multiset(Ids(s.overflows))
  {
    RunsAreBalanced(ops);
  }

  /** Over any run whose allocations are allowed, what is live is in bounds, aligned and pairwise disjoint. */
  lemma {:induction false} RunsAreSound(ops: seq<Op>)
    requires AllAllowed(FRESH, ops)
    ensures Sound(Run(FRESH, ops))
    decreases |ops|
  {
    if ops != [] {
      RunsAreSound(ops[..|ops| - 1]);
      RunsAreBalanced(ops[..|ops| - 1]);
      hide Sound, Balanced, AfterAlloc;
      StepKeepsSound(Run(FRESH, ops[..|ops| - 1]), ops[|ops| - 1]);
    }
  }

  // ---- When every allocation is in bounds ----

  /** If the step allocates, it gets memory that the arena owns. */
  predicate LandsInBounds(r: Record, op: Op) {
    op.Alloc? ==> InBounds(AfterAlloc(r.s, op.size), PlaceOf(r.s, op.size))
  }

  predicate AllLandInBounds(r: Record, ops: seq<Op>)
    requires MarkInside(r)
    decreases |ops|
  {
    ops == [] || (AllLandInBounds(r, ops[..|ops| - 1]) && LandsInBounds(Run(r, ops[..|ops| - 1]), ops[|ops| - 1]))
  }

  lemma {:induction false} RunsKeepPositions(ops: seq<Op>)
    ensures Positions(Run(FRESH, ops).s)
    decreases |ops|
  {
    if ops != [] {
      RunsKeepPositions(ops[..|ops| - 1]);
      var r, op := Run(FRESH, ops[..|ops| - 1]), ops[|ops| - 1];
      if op.Alloc? {
        AllocKeepsPositions(r.s, op.size);
      }
    }
  }

  /** Over any run, every allocation lands in the arena's memory exactly when each was allowed where it happened. */
  lemma {:induction false} AllLandInBoundsIffAllAllowed(ops: seq<Op>)
    ensures AllLandInBounds(FRESH, ops) <==> AllAllowed(FRESH, ops)
    decreases |ops|
  {
    if ops != [] {
      var r, op := Run(FRESH, ops[..|ops| - 1]), ops[|ops| - 1];
      hide InBounds, Allowed, Positions, After;
      AllLandInBoundsIffAllAllowed(ops[..|ops| - 1]);
      RunsKeepPositions(ops[..|ops| - 1]);
      if op.Alloc? {
        InBoundsIffAllowed(r.s, op.size);
      }
    }
  }

  /** Every allocation takes `unit` bytes when rounded up. */
  predicate Uniform(ops: seq<Op>, unit: nat) {
    forall i :: 0 <= i < |ops| && ops[i].Alloc? ==> Rounded(ops[i].size) == unit
  }

  /** Where the blocks are used up, what is left of the last one is too little for one more unit. */
  predicate Spent(s: State, unit: nat) {
    && (s.current >= s.blockCount ==> s.offset + unit > BLOCK_SIZE)
    && (s.markBlock >= s.blockCount ==> s.markOffset + unit > BLOCK_SIZE)
  }

  lemma StepKeepsSpent(r: Record, op: Op, unit: nat)
    requires MarkInside(r) && Positions(r.s) && Spent(r.s, unit)
    requires (op.Alloc? ==> Rounded(op.size) == unit) && unit <= BLOCK_SIZE
    ensures AllowedIn(r, op) && Spent(After(r, op).s, unit)
  {
    hide Rounded;
  }

  /** With allocations of one size that fits a block, every run is allowed. */
  lemma {:induction false} UniformRunsAreAllowed(ops: seq<Op>, unit: nat)
    requires Uniform(ops, unit) && unit <= BLOCK_SIZE
    ensures AllAllowed(FRESH, ops) && Spent(Run(FRESH, ops).s, unit)
    decreases |ops|
  {
    if ops != [] {
      UniformRunsAreAllowed(ops[..|ops| - 1], unit);
      RunsKeepPositions(ops[..|ops| - 1]);
      hide AllowedIn, Spent, Positions, After;
      StepKeepsSpent(Run(FRESH, ops[..|ops| - 1]), ops[|ops| - 1], unit);
    }
  }

  function Repeated(op: Op, n: nat): seq<Op> {
    seq(n, _ => op)
  }

  const NEARLY: nat := BLOCK_SIZE - 8

  lemma {:induction false} NearlyFullBlocks(n: nat)
    requires 1 <= n <= MAX_BLOCKS
    ensures
      var s := Run(FRESH, Repeated(Alloc(NEARLY), n)).s;
      s.blockCount == n && s.current == n - 1 && s.offset == NEARLY
  {
    var ops := Repeated(Alloc(NEARLY), n);
    assert ops[..n - 1] == Repeated(Alloc(NEARLY), n - 1);
    assert Rounded(NEARLY) == NEARLY;
    hide Rounded;
    if n > 1 {
      NearlyFullBlocks(n - 1);
    }
  }

  /** A small allocation after an overflow takes a block that does not exist. */
  lemma MixedSizesLeaveTheArena()
    ensures
      var r := Run(FRESH, Repeated(Alloc(NEARLY), MAX_BLOCKS + 1));
      && PlaceOf(r.s, 8) == InBlock(MAX_BLOCKS, NEARLY, 8)
      && !LandsInBounds(r, Alloc(8))
  {
    var ops := Repeated(Alloc(NEARLY), MAX_BLOCKS + 1);
    assert ops[..MAX_BLOCKS] == Repeated(Alloc(NEARLY), MAX_BLOCKS);
    NearlyFullBlocks(MAX_BLOCKS);
  }

  // ---- What a reset undoes ----

  /** The mark of `now` is the state that `was` is, and all that was there then still is. */
  ghost predicate MarksState(was: Record, now: Record) {
    && MarkInside(now)
    && now.s.markBlock == was.s.current && now.s.markOffset == was.s.offset
    && now.s.markStrings == |was.s.strings| && was.s.strings <= now.s.strings
    && now.s.markFallbacks == |was.s.fallbacks| && was.s.fallbacks <= now.s.fallbacks
    && now.marked == |was.live| && was.live <= now.live
    && was.tracked <= now.tracked && was.s.overflows <= now.s.overflows
  }

  lemma {:induction false} RunsKeepTheMark(was: Record, ops: seq<Op>)
    requires MarkInside(was) && Mark !in ops
    ensures MarksState(was, Run(After(was, Mark), ops))
    decreases |ops|
  {
    if ops != [] {
      assert ops[|ops| - 1] in ops;
      RunsKeepTheMark(was, ops[..|ops| - 1]);
      hide PlaceOf;
    }
  }

  lemma ResetReturns(was: Record, now: Record)
    requires MarksState(was, now)
    ensures
      var r := After(now, Reset);
      && r.live == was.live && r.s.current == was.s.current && r.s.offset == was.s.offset
      && r.s.strings == was.s.strings && r.s.fallbacks == was.s.fallbacks
      && was.tracked <= r.tracked && was.s.overflows <= r.s.overflows
  {
  }

  lemma Cancel(a: multiset<nat>, b: multiset<nat>, c: multiset<nat>)
    requires a + b == a + c
    ensures b == c
  {
    assert b == (a + b) - a && c == (a + c) - a;
  }

  lemma BalanceMeans(r: Record)
    requires Balanced(r)
    ensures multiset(r.s.fallbacks) + multiset(r.s.freedFallbacks) == multiset(Ids(r.s.overflows))
    ensures multiset(r.s.strings) + multiset(r.s.freedStrings) == multiset(r.tracked)
  {
  }

  /** What was given back since, if the same things are held as then, is what was handed out since. */
  lemma FreedSince(held: multiset<nat>, freed: multiset<nat>, freed': multiset<nat>, all: seq<nat>, all': seq<nat>)
    requires held + freed == multiset(all) && held + freed' == multiset(all') && all <= all'
    ensures freed' == freed + multiset(all'[|all|..])
  {
    assert all' == all + all'[|all|..];
    Cancel(held, freed', freed + multiset(all'[|all|..]));
  }

  /** Mark, any run without a mark, reset: what is live, tracked and held is what it was at the mark, and so is the
      bump pointer; the strings given back since are exactly those tracked since, and the overflow blocks given back
      exactly those handed out since. */
  lemma ResetUndoesTheRun(before: seq<Op>, ops: seq<Op>)
    requires Mark !in ops
    ensures
      var was := Run(FRESH, before);
      var r := After(Run(After(was, Mark), ops), Reset);
      && r.live == was.live
      && r.s.current == was.s.current && r.s.offset == was.s.offset
      && r.s.strings == was.s.strings && r.s.fallbacks == was.s.fallbacks
      && was.tracked <= r.tracked && was.s.overflows <= r.s.overflows
      && multiset(r.s.freedStrings) == multiset(was.s.freedStrings) + multiset(r.tracked[|was.tracked|..])
      && multiset(r.s.freedFallbacks)
         == multiset(was.s.freedFallbacks) + multiset(Ids(r.s.overflows)[was.s.overflows..])
  {
    hide Balanced, After, Run, MarksState;
    var was := Run(FRESH, before);
    RunsAreBalanced(before);
    RunsKeepTheMark(was, ops);
    StepKeepsBalance(was, Mark);
    RunsKeepBalance(After(was, Mark), ops);
    var now := Run(After(was, Mark), ops);
    StepKeepsBalance(now, Reset);
    ResetReturns(was, now);
    var r := After(now, Reset);
    BalanceMeans(was);
    BalanceMeans(r);
    FreedSince(multiset(was.s.strings), multiset(was.s.freedStrings), multiset(r.s.freedStrings), was.tracked,
      r.tracked);
    FreedSince(multiset(was.s.fallbacks), multiset(was.s.freedFallbacks), multiset(r.s.freedFallbacks),
               Ids(was.s.overflows), Ids(r.s.overflows));
  }
}
