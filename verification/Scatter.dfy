/** Scatter-add and gather on flat buffers, over the reals. */
module Scatter {
  import opened Basics
  import opened Matmul

  /** An element of an argument: a list may hold things that are not numbers. */
  datatype Item = Number(v: real) | NotNumber

  /** An argument as the loops read it: its own elements, the very buffer being updated, or one number for all. */
  datatype Source = Listed(items: seq<Item>) | Self | Scalar(v: real)

  datatype Error =
    | IndicesAreNoVector
    | LengthsDiffer
    | RowsDiffer
    | IndexIsNoNumber(i: nat)
    | ValueIsNoNumber(i: nat)
    | IndexOutOfRange(i: nat)

  /** The destination: a vector, or a matrix that takes one index per row. */
  datatype Shape = Vector | Rows(rows: nat, cols: nat)

  /** The shape is that of a buffer of this size. */
  predicate Fits(shape: Shape, size: nat) {
    shape.Rows? ==> shape.rows > 0 && size == shape.rows * shape.cols
  }

  /** C's conversion of a double to an int: towards zero. */
  function Truncated(x: real): int {
    if x >= 0.0 then x.Floor else -((-x).Floor)
  }

  /** How many steps the indices ask for. */
  function Steps(d: seq<real>, ix: Source): nat {
    match ix
    case Listed(items) => |items|
    case Self => |d|
    case Scalar(_) => 0
  }

  predicate Has(s: Source, d: seq<real>, i: nat) {
    match s
    case Listed(items) => i < |items|
    case Self => i < |d|
    case Scalar(_) => true
  }

  function ItemAt(s: Source, d: seq<real>, i: nat): Item
    requires Has(s, d, i)
  {
    match s
    case Listed(items) => items[i]
    case Self => Number(d[i])
    case Scalar(v) => Number(v)
  }

  /** Where index `idx` leads in step `i`, if anywhere. */
  function Place(shape: Shape, size: nat, i: nat, idx: int): (p: Option<nat>)
    requires Fits(shape, size) && (shape.Rows? ==> i < shape.rows)
    ensures p.Some? ==> p.value < size
  {
    match shape
    case Vector => if 0 <= idx < size then Some(idx) else None
    case Rows(rows, cols) =>
      if 0 <= idx < cols then
        FlatInside(i, idx, rows, cols);
        Some(Flat(i, idx, cols))
      else None
  }

  /** The arguments line up: as many values as indices and, for a matrix, as many rows. */
  predicate LinedUp(shape: Shape, d: seq<real>, ix: Source, vs: Source) {
    && !ix.Scalar?
    && Fits(shape, |d|)
    && (shape.Rows? ==> shape.rows == Steps(d, ix))
    && (!vs.Scalar? ==> Steps(d, vs) == Steps(d, ix))
  }

  /** A step is wrong, or it adds a value at a place. */
  datatype Step = Wrong(error: Error) | Add(place: nat, v: real)

  function StepAt(shape: Shape, d: seq<real>, ix: Source, vs: Source, i: nat): (s: Step)
    requires LinedUp(shape, d, ix, vs) && i < Steps(d, ix)
    ensures s.Add? ==> s.place < |d|
  {
    match ItemAt(ix, d, i)
    case NotNumber => Wrong(IndexIsNoNumber(i))
    case Number(x) =>
      match ItemAt(vs, d, i)
      case NotNumber => Wrong(ValueIsNoNumber(i))
      case Number(v) =>
        match Place(shape, |d|, i, Truncated(x))
        case None => Wrong(IndexOutOfRange(i))
        case Some(p) => Add(p, v)
  }

  /** The first pass, from step `i` on: the first error, if any. */
  function FirstError(shape: Shape, d: seq<real>, ix: Source, vs: Source, i: nat): Option<Error>
    requires LinedUp(shape, d, ix, vs) && i <= Steps(d, ix)
    decreases Steps(d, ix) - i
  {
    if i == Steps(d, ix) then None else
    var s := StepAt(shape, d, ix, vs, i);
    if s.Wrong? then Some(s.error) else FirstError(shape, d, ix, vs, i + 1)
  }

  datatype Outcome = Outcome(data: seq<real>, error: Option<Error>)

  /** The second pass, from step `i` on, each step reading what the earlier ones have made of the buffer. */
  function Accumulated(shape: Shape, d: seq<real>, ix: Source, vs: Source, i: nat): (o: Outcome)
    requires LinedUp(shape, d, ix, vs) && i <= Steps(d, ix)
    ensures |o.data| == |d|
    decreases Steps(d, ix) - i
  {
    if i == Steps(d, ix) then Outcome(d, None) else
    var s := StepAt(shape, d, ix, vs, i);
    if s.Wrong? then Outcome(d, Some(s.error))
    else Accumulated(shape, d[s.place := d[s.place] + s.v], ix, vs, i + 1)
  }

  /** The whole of scatter_add. */
  function Scattered(shape: Shape, d: seq<real>, ix: Source, vs: Source): (o: Outcome)
    requires Fits(shape, |d|)
  {
    if ix.Scalar? then Outcome(d, Some(IndicesAreNoVector))
    else if !vs.Scalar? && Steps(d, vs) != Steps(d, ix) then Outcome(d, Some(LengthsDiffer))
    else if shape.Rows? && shape.rows != Steps(d, ix) then Outcome(d, Some(RowsDiffer))
    else
      var e := FirstError(shape, d, ix, vs, 0);
      if e.Some? then Outcome(d, e) else Accumulated(shape, d, ix, vs, 0)
  }

  /** Where the two passes are: the second has made `now` of the buffer that `was`. */
  ghost predicate Reached(shape: Shape, was: seq<real>, now: seq<real>, ix: Source, vs: Source, pass: int, i: int) {
    && LinedUp(shape, was, ix, vs) && |now| == |was| && LinedUp(shape, now, ix, vs)
    && 0 <= i <= Steps(was, ix) == Steps(now, ix)
    && (pass <= 0 ==> now == was && FirstError(shape, was, ix, vs, 0) == FirstError(shape, was, ix, vs, i))
    && (pass > 0 ==> FirstError(shape, was, ix, vs, 0).None?)
    && (pass > 0 ==> Accumulated(shape, was, ix, vs, 0) == Accumulated(shape, now, ix, vs, i))
  }

  lemma OneStep(shape: Shape, was: seq<real>, now: seq<real>, ix: Source, vs: Source, pass: int, i: int)
    requires Reached(shape, was, now, ix, vs, pass, i) && i < Steps(was, ix)
    ensures
      var s := StepAt(shape, now, ix, vs, i);
      && (s.Wrong? ==> Scattered(shape, was, ix, vs) == Outcome(now, Some(s.error)))
      && (s.Add? ==>
        var next := if pass <= 0 then now else now[s.place := now[s.place] + s.v];
        Reached(shape, was, next, ix, vs, pass, i + 1))
  {
    hide StepAt, Fits;
  }

  lemma NextPass(shape: Shape, was: seq<real>, now: seq<real>, ix: Source, vs: Source, pass: int)
    requires Reached(shape, was, now, ix, vs, pass, Steps(was, ix))
    ensures pass <= 0 ==> Reached(shape, was, now, ix, vs, 1, 0)
    ensures pass > 0 ==> Scattered(shape, was, ix, vs) == Outcome(now, None)
  {
    hide StepAt, Fits;
  }

  /** Two passes over the same steps; only the second writes. */
  method ScatterAdd(shape: Shape, d: array<real>, ix: Source, vs: Source) returns (error: Option<Error>)
    requires Fits(shape, d.Length)
    modifies d
    ensures Outcome(d[..], error) == Scattered(shape, old(d[..]), ix, vs)
  {
    ghost var was := d[..];
    if ix.Scalar? { return Some(IndicesAreNoVector); }
    var n := Steps(d[..], ix);
    var nv := if vs.Scalar? then n else Steps(d[..], vs);
    if nv != n { return Some(LengthsDiffer); }
    if shape.Rows? && shape.rows != n { return Some(RowsDiffer); }
    assert Reached(shape, was, d[..], ix, vs, 0, 0) by { hide StepAt, Fits; }
    hide Reached, StepAt, Scattered, FirstError, Accumulated, Fits;
    var pass := 0;
    while pass < 2
      invariant 0 <= pass <= 2 && n == Steps(was, ix)
      invariant pass < 2 ==> Reached(shape, was, d[..], ix, vs, pass, 0)
      invariant pass == 2 ==> Scattered(shape, was, ix, vs) == Outcome(d[..], None)
    {
      var i := 0;
      while i < n
        invariant 0 <= i <= n
        invariant Reached(shape, was, d[..], ix, vs, pass, i)
      {
        StillLinedUp(shape, was, d[..], ix, vs, pass, i);
        OneStep(shape, was, d[..], ix, vs, pass, i);
        var step := StepAt(shape, d[..], ix, vs, i);
        if step.Wrong? { return Some(step.error); }
        if pass == 1 {
          ghost var before := d[..];
          d[step.place] := d[step.place] + step.v;
          assert d[..] == before[step.place := before[step.place] + step.v];
        }
        i := i + 1;
      }
      NextPass(shape, was, d[..], ix, vs, pass);
      pass := pass + 1;
    }
    return None;
  }

  lemma StillLinedUp(shape: Shape, was: seq<real>, now: seq<real>, ix: Source, vs: Source, pass: int, i: int)
    requires Reached(shape, was, now, ix, vs, pass, i)
    ensures LinedUp(shape, now, ix, vs) && Steps(now, ix) == Steps(was, ix)
  {
  }

  // ---- All or nothing ----

  /** An argument that later steps read as it was: it is not the buffer, or the buffer is a matrix, which then has one
      column and of which each step changes only the row that it alone reads. */
  predicate Apart(shape: Shape, s: Source) {
    !s.Self? || shape.Rows?
  }

  predicate Aliased(shape: Shape, ix: Source, vs: Source) {
    shape.Rows? && (ix.Self? || vs.Self?)
  }

  /** If an argument is the buffer, a matrix, `e` is still what `d` was from row `i` on. */
  predicate KeptFrom(shape: Shape, d: seq<real>, e: seq<real>, ix: Source, vs: Source, i: nat) {
    Aliased(shape, ix, vs) ==> |e| == |d| && forall k :: i <= k < |d| ==> e[k] == d[k]
  }

  lemma OneFactor(r: nat, c: nat)
    requires r > 0 && r * c == r
    ensures c == 1
  {
    assert (c - 1) * r == 0;
  }

  /** A matrix that lines up with itself has one column, and step `i` leads to row `i`. */
  lemma OneColumn(shape: Shape, d: seq<real>, ix: Source, vs: Source, i: nat, idx: int)
    requires LinedUp(shape, d, ix, vs) && Aliased(shape, ix, vs) && i < Steps(d, ix)
    ensures i < |d| && (Place(shape, |d|, i, idx).Some? ==> Place(shape, |d|, i, idx).value == i)
  {
    OneFactor(shape.rows, shape.cols);
  }

  /** An update moves no step and makes none wrong. */
  lemma StepsStay(shape: Shape, d: seq<real>, e: seq<real>, ix: Source, vs: Source, i: nat)
    requires LinedUp(shape, d, ix, vs) && |d| == |e| && Apart(shape, ix) && i < Steps(d, ix)
    requires KeptFrom(shape, d, e, ix, vs, i) && StepAt(shape, d, ix, vs, i).Add?
    ensures LinedUp(shape, e, ix, vs) && Steps(e, ix) == Steps(d, ix)
    ensures
      var s, t := StepAt(shape, d, ix, vs, i), StepAt(shape, e, ix, vs, i);
      && t.Add? && t.place == s.place && (Apart(shape, vs) ==> t == s)
      && var next := e[t.place := e[t.place] + t.v];
      && LinedUp(shape, next, ix, vs) && Steps(next, ix) == Steps(d, ix) && KeptFrom(shape, d, next, ix, vs, i + 1)
  {
    if Aliased(shape, ix, vs) {
      OneColumn(shape, d, ix, vs, i, Truncated(ItemAt(ix, d, i).v));
    }
    hide Place, Truncated, Fits;
  }

  lemma StepsOn(shape: Shape, d: seq<real>, ix: Source, vs: Source, i: nat)
    requires LinedUp(shape, d, ix, vs) && i < Steps(d, ix) && StepAt(shape, d, ix, vs, i).Add?
    ensures var s := StepAt(shape, d, ix, vs, i);
      Accumulated(shape, d, ix, vs, i) == Accumulated(shape, d[s.place := d[s.place] + s.v], ix, vs, i + 1)
  {
    hide StepAt, LinedUp;
  }

  lemma {:induction false} SecondPassCannotFail(shape: Shape, d: seq<real>, e: seq<real>, ix: Source, vs: Source,
                                                i: nat)
    requires LinedUp(shape, d, ix, vs) && LinedUp(shape, e, ix, vs) && |d| == |e| && Apart(shape, ix)
    requires i <= Steps(d, ix) == Steps(e, ix)
    requires KeptFrom(shape, d, e, ix, vs, i) && FirstError(shape, d, ix, vs, i).None?
    ensures Accumulated(shape, e, ix, vs, i).error.None?
    decreases Steps(d, ix) - i
  {
    hide StepAt, Fits, KeptFrom, LinedUp, Apart, Truncated, Place;
    if i < Steps(d, ix) {
      StepsStay(shape, d, e, ix, vs, i);
      StepsOn(shape, e, ix, vs, i);
      var s := StepAt(shape, e, ix, vs, i);
      var next := e[s.place := e[s.place] + s.v];
      assert FirstError(shape, d, ix, vs, i + 1).None?;
      SecondPassCannotFail(shape, d, next, ix, vs, i + 1);
    }
  }

  /** A raise left the buffer as it was. */
  predicate AllOrNothing(shape: Shape, d: seq<real>, ix: Source, vs: Source)
    requires Fits(shape, |d|)
  {
    var o := Scattered(shape, d, ix, vs);
    o.error.Some? ==> o.data == d
  }

  /** With the buffer as its own indices, the first step moves the second index out of range. */
  lemma OwnIndicesHalfUpdate()
    ensures Scattered(Vector, [1.0, 0.0], Self, Scalar(5.0)) == Outcome([1.0, 5.0], Some(IndexOutOfRange(1)))
  {
    var d := [1.0, 0.0];
    assert Truncated(1.0) == 1 && Truncated(0.0) == 0 && Truncated(5.0) == 5;
    assert StepAt(Vector, d, Self, Scalar(5.0), 0) == Add(1, 5.0);
    assert StepAt(Vector, d, Self, Scalar(5.0), 1) == Add(0, 5.0);
    assert FirstError(Vector, d, Self, Scalar(5.0), 2).None?;
    var e := d[1 := 5.0];
    assert e == [1.0, 5.0];
    assert StepAt(Vector, e, Self, Scalar(5.0), 1) == Wrong(IndexOutOfRange(1));
    assert Accumulated(Vector, e, Self, Scalar(5.0), 1) == Outcome(e, Some(IndexOutOfRange(1)));
  }

  /** scatter_add is all-or-nothing, whatever the destination holds and whatever is added, exactly when the indices
      are not the destination itself or the destination is a matrix. */
  lemma AllOrNothingIffIndicesAreApart(shape: Shape, ix: Source)
    ensures (forall d: seq<real>, vs | Fits(shape, |d|) :: AllOrNothing(shape, d, ix, vs)) <==>
      !ix.Self? || shape.Rows?
  {
    if ix.Self? && shape.Vector? {
      OwnIndicesHalfUpdate();
      var d := [1.0, 0.0];
      assert Fits(shape, |d|) && !AllOrNothing(shape, d, ix, Scalar(5.0));
    } else {
      forall d: seq<real>, vs | Fits(shape, |d|) ensures AllOrNothing(shape, d, ix, vs) {
        if LinedUp(shape, d, ix, vs) && FirstError(shape, d, ix, vs, 0).None? {
          SecondPassCannotFail(shape, d, d, ix, vs, 0);
        }
      }
    }
  }

  // ---- Repeated indices accumulate ----

  /** The sum of the values that the steps from `i` on send to place `p`. */
  function Gain(shape: Shape, d: seq<real>, ix: Source, vs: Source, i: nat, p: nat): real
    requires LinedUp(shape, d, ix, vs) && i <= Steps(d, ix)
    decreases Steps(d, ix) - i
  {
    if i == Steps(d, ix) then 0.0 else
    var s := StepAt(shape, d, ix, vs, i);
    (if s.Add? && s.place == p then s.v else 0.0) + Gain(shape, d, ix, vs, i + 1, p)
  }

  lemma {:induction false} GainsArrive(shape: Shape, d: seq<real>, e: seq<real>, ix: Source, vs: Source, i: nat, p: nat)
    requires LinedUp(shape, d, ix, vs) && LinedUp(shape, e, ix, vs) && |d| == |e| && p < |d|
    requires Apart(shape, ix) && Apart(shape, vs) && i <= Steps(d, ix) == Steps(e, ix)
    requires KeptFrom(shape, d, e, ix, vs, i) && FirstError(shape, d, ix, vs, i).None?
    ensures Accumulated(shape, e, ix, vs, i).data[p] == e[p] + Gain(shape, d, ix, vs, i, p)
    decreases Steps(d, ix) - i
  {
    hide StepAt, Fits, KeptFrom, LinedUp, Apart, Truncated, Place;
    if i < Steps(d, ix) {
      StepsStay(shape, d, e, ix, vs, i);
      StepsOn(shape, e, ix, vs, i);
      var s := StepAt(shape, e, ix, vs, i);
      GainsArrive(shape, d, e[s.place := e[s.place] + s.v], ix, vs, i + 1, p);
    }
  }

  /** Each cell ends with its old value and every value the arguments, as they were, send to it. */
  ghost predicate Adds(shape: Shape, d: seq<real>, ix: Source, vs: Source)
    requires Fits(shape, |d|)
  {
    var o := Scattered(shape, d, ix, vs);
    && |o.data| == |d|
    && (o.error.None? ==> forall p: nat :: p < |d| ==> o.data[p] == d[p] + Gain(shape, d, ix, vs, 0, p))
  }

  /** With the buffer as its own values, the second step reads what the first has written. */
  lemma OwnValuesAreReread()
    ensures Scattered(Vector, [1.0, 1.0], Listed([Number(1.0), Number(1.0)]), Self) == Outcome([1.0, 4.0], None)
    ensures Gain(Vector, [1.0, 1.0], Listed([Number(1.0), Number(1.0)]), Self, 0, 1) == 2.0
  {
    var d, ix := [1.0, 1.0], Listed([Number(1.0), Number(1.0)]);
    assert Truncated(1.0) == 1;
    assert StepAt(Vector, d, ix, Self, 0) == Add(1, 1.0) && StepAt(Vector, d, ix, Self, 1) == Add(1, 1.0);
    assert FirstError(Vector, d, ix, Self, 2).None? && Gain(Vector, d, ix, Self, 2, 1) == 0.0;
    var e := d[1 := 2.0];
    assert StepAt(Vector, e, ix, Self, 1) == Add(1, 2.0);
    assert Accumulated(Vector, e, ix, Self, 1) == Accumulated(Vector, e[1 := 4.0], ix, Self, 2);
    assert e[1 := 4.0] == [1.0, 4.0];
  }

  /** Repeated indices accumulate the values given, whatever the destination holds and for all indices that are
      themselves read as they were, exactly when the values are not the destination or the destination is a matrix. */
  lemma AccumulatesIffValuesAreApart(shape: Shape, vs: Source)
    ensures
      (forall d: seq<real>, ix: Source | Fits(shape, |d|) && Apart(shape, ix) :: Adds(shape, d, ix, vs)) <==>
      !vs.Self? || shape.Rows?
  {
    if vs.Self? && shape.Vector? {
      OwnValuesAreReread();
      var d, ix := [1.0, 1.0], Listed([Number(1.0), Number(1.0)]);
      assert Scattered(shape, d, ix, vs).data[1] != d[1] + Gain(shape, d, ix, vs, 0, 1);
      assert Fits(shape, |d|) && Apart(shape, ix) && !Adds(shape, d, ix, vs);
    } else {
      forall d: seq<real>, ix: Source | Fits(shape, |d|) && Apart(shape, ix) ensures Adds(shape, d, ix, vs) {
        if Scattered(shape, d, ix, vs).error.None? {
          forall p: nat | p < |d| ensures Scattered(shape, d, ix, vs).data[p] == d[p] + Gain(shape, d, ix, vs, 0, p) {
            GainsArrive(shape, d, d, ix, vs, 0, p);
          }
        }
      }
    }
  }

  // ---- What a scatter-add is to do, said of indices and values alone ----

  /** The conversion drops the fraction. */
  lemma TruncatedMeans(x: real)
    ensures var t := Truncated(x);
      if x >= 0.0 then t as real <= x < (t + 1) as real else (t - 1) as real < x <= t as real
  {
  }

  /** An index leads from step `i` to cell `p`: of a vector, to the cell it names; of a matrix, to the column it names
      of row `i`, rows being stored one after the other. */
  predicate Leads(shape: Shape, size: nat, i: nat, x: real, p: nat) {
    match shape
    case Vector => p < size && Truncated(x) == p
    case Rows(_, cols) => 0 <= Truncated(x) < cols && p == i * cols + Truncated(x)
  }

  ghost predicate LeadsSomewhere(shape: Shape, size: nat, i: nat, x: real) {
    exists p: nat :: Leads(shape, size, i, x, p)
  }

  lemma PlaceMeans(shape: Shape, size: nat, i: nat, x: real)
    requires Fits(shape, size) && (shape.Rows? ==> i < shape.rows)
    ensures var place := Place(shape, size, i, Truncated(x));
      && (forall p: nat :: Leads(shape, size, i, x, p) <==> place == Some(p))
      && (LeadsSomewhere(shape, size, i, x) <==> place.Some?)
  {
    var place := Place(shape, size, i, Truncated(x));
    if place.Some? {
      assert Leads(shape, size, i, x, place.value);
    }
  }

  /** The i-th index and value are numbers, and the index leads somewhere. */
  ghost predicate PairInOrder(shape: Shape, size: nat, xs: seq<Item>, vs: seq<Item>, i: nat)
    requires i < |xs| == |vs|
  {
    xs[i].Number? && vs[i].Number? && LeadsSomewhere(shape, size, i, xs[i].v)
  }

  /** A pair of lists is in order: as many of one as of the other and, for a matrix, as it has rows, only numbers, and
      only indices that lead somewhere. */
  ghost predicate InOrder(shape: Shape, size: nat, xs: seq<Item>, vs: seq<Item>) {
    && |xs| == |vs| && (shape.Rows? ==> |xs| == shape.rows)
    && forall i :: 0 <= i < |xs| ==> PairInOrder(shape, size, xs, vs, i)
  }

  /** The sum of the values, from the i-th on, whose indices lead to cell `p`. */
  ghost function SumLedTo(shape: Shape, size: nat, xs: seq<Item>, vs: seq<Item>, i: nat, p: nat): real
    requires InOrder(shape, size, xs, vs) && i <= |xs|
    decreases |xs| - i
  {
    if i == |xs| then 0.0
    else
      assert PairInOrder(shape, size, xs, vs, i);
      (if Leads(shape, size, i, xs[i].v, p) then vs[i].v else 0.0) + SumLedTo(shape, size, xs, vs, i + 1, p)
  }

  lemma {:induction false} ErrorsMean(shape: Shape, d: seq<real>, xs: seq<Item>, vs: seq<Item>, i: nat)
    requires LinedUp(shape, d, Listed(xs), Listed(vs)) && i <= |xs|
    ensures FirstError(shape, d, Listed(xs), Listed(vs), i).None? <==>
      forall j :: i <= j < |xs| ==> PairInOrder(shape, |d|, xs, vs, j)
    decreases |xs| - i
  {
    hide Place, Truncated, Leads, LeadsSomewhere;
    if i < |xs| {
      ErrorsMean(shape, d, xs, vs, i + 1);
      if xs[i].Number? { PlaceMeans(shape, |d|, i, xs[i].v); }
      assert StepAt(shape, d, Listed(xs), Listed(vs), i).Add? <==> PairInOrder(shape, |d|, xs, vs, i);
    }
  }

  /** What is wrong with the i-th pair: the index is looked at first. */
  function FaultOf(xs: seq<Item>, vs: seq<Item>, i: nat): Error
    requires i < |xs| == |vs|
  {
    if xs[i].NotNumber? then IndexIsNoNumber(i) else if vs[i].NotNumber? then ValueIsNoNumber(i)
    else IndexOutOfRange(i)
  }

  /** The error raised is the fault of the first pair that is not in order. */
  lemma {:induction false} FirstErrorMeans(shape: Shape, d: seq<real>, xs: seq<Item>, vs: seq<Item>, i: nat, j: nat)
    requires LinedUp(shape, d, Listed(xs), Listed(vs)) && i <= j < |xs|
    requires !PairInOrder(shape, |d|, xs, vs, j) && forall l :: i <= l < j ==> PairInOrder(shape, |d|, xs, vs, l)
    ensures FirstError(shape, d, Listed(xs), Listed(vs), i) == Some(FaultOf(xs, vs, j))
    decreases j - i
  {
    hide Place, Truncated, Leads, LeadsSomewhere;
    if xs[i].Number? { PlaceMeans(shape, |d|, i, xs[i].v); }
    if i < j {
      assert PairInOrder(shape, |d|, xs, vs, i);
      FirstErrorMeans(shape, d, xs, vs, i + 1, j);
    }
  }

  lemma {:induction false} GainMeans(shape: Shape, d: seq<real>, xs: seq<Item>, vs: seq<Item>, i: nat, p: nat)
    requires Fits(shape, |d|) && InOrder(shape, |d|, xs, vs) && i <= |xs|
    ensures Gain(shape, d, Listed(xs), Listed(vs), i, p) == SumLedTo(shape, |d|, xs, vs, i, p)
    decreases |xs| - i
  {
    hide Place, Truncated, Leads;
    if i < |xs| {
      GainMeans(shape, d, xs, vs, i + 1, p);
      assert PairInOrder(shape, |d|, xs, vs, i);
      PlaceMeans(shape, |d|, i, xs[i].v);
    }
  }

  /** With lists of indices and values, scatter_add succeeds exactly when they are in order; every cell then has its
      old value and the sum of the values whose indices lead to it. */
  lemma ScatterMeans(shape: Shape, d: seq<real>, xs: seq<Item>, vs: seq<Item>)
    requires Fits(shape, |d|)
    ensures var o := Scattered(shape, d, Listed(xs), Listed(vs));
      && (o.error.None? <==> InOrder(shape, |d|, xs, vs))
      && (o.error.Some? ==> o.data == d)
      && (o.error.None? ==> |o.data| == |d| && forall p: nat :: p < |d| ==>
          o.data[p] == d[p] + SumLedTo(shape, |d|, xs, vs, 0, p))
  {
    hide LinedUp, PairInOrder, SumLedTo, Accumulated, FirstError;
    ListsLineUp(shape, d, xs, vs);
    if LinedUp(shape, d, Listed(xs), Listed(vs)) {
      ErrorsMean(shape, d, xs, vs, 0);
      if InOrder(shape, |d|, xs, vs) {
        SecondPassCannotFail(shape, d, d, Listed(xs), Listed(vs), 0);
        forall p: nat | p < |d|
          ensures Accumulated(shape, d, Listed(xs), Listed(vs), 0).data[p]
               == d[p] + SumLedTo(shape, |d|, xs, vs, 0, p)
        {
          GainsArrive(shape, d, d, Listed(xs), Listed(vs), 0, p);
          GainMeans(shape, d, xs, vs, 0, p);
        }
      }
    }
  }

  /** The error names the first pair that is not in order, unless the lists themselves do not line up. */
  lemma ScatterErrs(shape: Shape, d: seq<real>, xs: seq<Item>, vs: seq<Item>, j: nat)
    requires Fits(shape, |d|) && |xs| == |vs| && (shape.Rows? ==> |xs| == shape.rows) && j < |xs|
    requires !PairInOrder(shape, |d|, xs, vs, j) && forall l :: 0 <= l < j ==> PairInOrder(shape, |d|, xs, vs, l)
    ensures Scattered(shape, d, Listed(xs), Listed(vs)) == Outcome(d, Some(FaultOf(xs, vs, j)))
  {
    hide PairInOrder, Accumulated, FirstError;
    ListsLineUp(shape, d, xs, vs);
    FirstErrorMeans(shape, d, xs, vs, 0, j);
  }

  /** One number for all is that number for each. */
  lemma {:induction false} RepeatedSteps(shape: Shape, d: seq<real>, xs: seq<Item>, v: real, vs: seq<Item>, i: nat)
    requires LinedUp(shape, d, Listed(xs), Scalar(v)) && LinedUp(shape, d, Listed(xs), Listed(vs)) && i <= |xs|
    requires |vs| == |xs| && forall l :: 0 <= l < |vs| ==> vs[l] == Number(v)
    ensures FirstError(shape, d, Listed(xs), Scalar(v), i) == FirstError(shape, d, Listed(xs), Listed(vs), i)
    ensures Accumulated(shape, d, Listed(xs), Scalar(v), i) == Accumulated(shape, d, Listed(xs), Listed(vs), i)
    decreases |xs| - i
  {
    hide Place, Truncated;
    if i < |xs| {
      var s := StepAt(shape, d, Listed(xs), Scalar(v), i);
      assert s == StepAt(shape, d, Listed(xs), Listed(vs), i);
      RepeatedSteps(shape, d, xs, v, vs, i + 1);
      if s.Add? {
        RepeatedSteps(shape, d[s.place := d[s.place] + s.v], xs, v, vs, i + 1);
      }
    }
  }

  lemma ScalarIsRepeated(shape: Shape, d: seq<real>, xs: seq<Item>, v: real)
    requires Fits(shape, |d|)
    ensures Scattered(shape, d, Listed(xs), Scalar(v))
         == Scattered(shape, d, Listed(xs), Listed(seq(|xs|, _ => Number(v))))
  {
    var vs := seq(|xs|, _ => Number(v));
    if shape.Rows? ==> shape.rows == |xs| {
      RepeatedSteps(shape, d, xs, v, vs, 0);
    }
  }

  lemma ListsLineUp(shape: Shape, d: seq<real>, xs: seq<Item>, vs: seq<Item>)
    requires Fits(shape, |d|)
    ensures LinedUp(shape, d, Listed(xs), Listed(vs)) <==> |xs| == |vs| && (shape.Rows? ==> |xs| == shape.rows)
    ensures Steps(d, Listed(xs)) == |xs| && Steps(d, Listed(vs)) == |vs|
  {
  }

  // ---- Gather ----

  datatype Result = Ok(row: seq<real>) | Err(error: Error)

  function Zeros(n: nat): seq<real> {
    seq(n, _ => 0.0)
  }

  /** One element of every row from the i-th to the n-th. */
  function Picked(shape: Shape, t: seq<real>, ix: seq<Item>, n: nat, i: nat): (r: Result)
    requires shape.Rows? && Fits(shape, |t|) && i <= n <= |ix| && n <= shape.rows
    ensures r.Ok? ==> |r.row| == n - i
    decreases n - i
  {
    if i == n then Ok([]) else
    match ix[i]
    case NotNumber => Err(IndexIsNoNumber(i))
    case Number(x) =>
      match Place(shape, |t|, i, Truncated(x))
      case None => Err(IndexOutOfRange(i))
      case Some(p) =>
        var rest := Picked(shape, t, ix, n, i + 1);
        if rest.Ok? then Ok([t[p]] + rest.row) else rest
  }

  /** How many rows a gather answers for: a short index vector truncates. */
  function GatherCount(shape: Shape, t: seq<real>, ix: seq<Item>): (n: nat)
    ensures n <= |ix|
  {
    var rows := if shape.Rows? then shape.rows else |t|;
    if rows < |ix| then rows else |ix|
  }

  /** The whole of gather on a buffer and an index vector: a buffer that is no matrix answers zeros. */
  function Gathered(shape: Shape, t: seq<real>, ix: seq<Item>): Result
    requires Fits(shape, |t|)
  {
    var n := GatherCount(shape, t, ix);
    if shape.Vector? then Ok(Zeros(n)) else Picked(shape, t, ix, n, 0)
  }

  function Prepended(done: seq<real>, rest: Result): Result {
    if rest.Ok? then Ok(done + rest.row) else rest
  }

  /** The first `i` answers are in `out`. */
  ghost predicate Answered(shape: Shape, t: seq<real>, ix: seq<Item>, out: seq<real>, i: int)
    requires Fits(shape, |t|)
  {
    && 0 <= i <= GatherCount(shape, t, ix)
    && (shape.Vector? ==> out == Zeros(i))
    && (shape.Rows? ==> Gathered(shape, t, ix) == Prepended(out, Picked(shape, t, ix, GatherCount(shape, t, ix), i)))
  }

  lemma AnswerRow(shape: Shape, t: seq<real>, ix: seq<Item>, out: seq<real>, i: int)
    requires shape.Rows? && Fits(shape, |t|) && Answered(shape, t, ix, out, i) && i < GatherCount(shape, t, ix)
    ensures ix[i].NotNumber? ==> Gathered(shape, t, ix) == Err(IndexIsNoNumber(i))
    ensures ix[i].Number? && Place(shape, |t|, i, Truncated(ix[i].v)).None? ==>
      Gathered(shape, t, ix) == Err(IndexOutOfRange(i))
    ensures ix[i].Number? && Place(shape, |t|, i, Truncated(ix[i].v)).Some? ==>
      Answered(shape, t, ix, out + [t[Place(shape, |t|, i, Truncated(ix[i].v)).value]], i + 1)
  {
    hide Place, Truncated, Gathered;
    if ix[i].Number? && Place(shape, |t|, i, Truncated(ix[i].v)).Some? {
      var x := t[Place(shape, |t|, i, Truncated(ix[i].v)).value];
      var rest := Picked(shape, t, ix, GatherCount(shape, t, ix), i + 1);
      assert rest.Ok? ==> out + ([x] + rest.row) == (out + [x]) + rest.row;
    }
  }

  lemma AllAnswered(shape: Shape, t: seq<real>, ix: seq<Item>, out: seq<real>)
    requires Fits(shape, |t|) && Answered(shape, t, ix, out, GatherCount(shape, t, ix))
    ensures Gathered(shape, t, ix) == Ok(out)
  {
    assert out + [] == out;
  }

  method Gather(shape: Shape, t: array<real>, ix: seq<Item>) returns (r: Result)
    requires Fits(shape, t.Length)
    ensures r == Gathered(shape, t[..], ix)
  {
    var n := GatherCount(shape, t[..], ix);
    var out := [];
    assert Answered(shape, t[..], ix, out, 0);
    for i := 0 to n
      invariant Answered(shape, t[..], ix, out, i)
    {
      if shape.Vector? {
        out := out + [0.0];
      } else {
        AnswerRow(shape, t[..], ix, out, i);
        hide Answered, Place, Truncated, Gathered;
        if ix[i].NotNumber? { return Err(IndexIsNoNumber(i)); }
        var p := Place(shape, t.Length, i, Truncated(ix[i].v));
        if p.None? { return Err(IndexOutOfRange(i)); }
        out := out + [t[p.value]];
      }
    }
    AllAnswered(shape, t[..], ix, out);
    return Ok(out);
  }

  /** The i-th index is a number that leads somewhere. */
  ghost predicate IndexInOrder(shape: Shape, size: nat, ix: seq<Item>, i: nat)
    requires i < |ix|
  {
    ix[i].Number? && LeadsSomewhere(shape, size, i, ix[i].v)
  }

  /** The i-th answer is the cell that the i-th index leads to. */
  ghost predicate IsPick(shape: Shape, t: seq<real>, ix: seq<Item>, i: nat, x: real)
    requires i < |ix|
  {
    exists p: nat :: p < |t| && ix[i].Number? && Leads(shape, |t|, i, ix[i].v, p) && x == t[p]
  }

  lemma {:induction false} PicksMean(shape: Shape, t: seq<real>, ix: seq<Item>, n: nat, i: nat)
    requires shape.Rows? && Fits(shape, |t|) && i <= n <= |ix| && n <= shape.rows
    ensures var r := Picked(shape, t, ix, n, i);
      && (r.Ok? <==> forall j :: i <= j < n ==> IndexInOrder(shape, |t|, ix, j))
      && (r.Ok? ==> forall m :: 0 <= m < n - i ==> IsPick(shape, t, ix, i + m, r.row[m]))
    decreases n - i
  {
    hide Place, Truncated, Leads, LeadsSomewhere, IsPick;
    if i < n {
      PicksMean(shape, t, ix, n, i + 1);
      PickMeans(shape, t, ix, i);
      var r, rest := Picked(shape, t, ix, n, i), Picked(shape, t, ix, n, i + 1);
      if r.Ok? {
        forall m | 0 <= m < n - i ensures IsPick(shape, t, ix, i + m, r.row[m]) {
          if m > 0 {
            assert r.row[m] == rest.row[m - 1] && IsPick(shape, t, ix, i + 1 + (m - 1), rest.row[m - 1]);
          }
        }
      }
    }
  }

  lemma PickMeans(shape: Shape, t: seq<real>, ix: seq<Item>, i: nat)
    requires shape.Rows? && Fits(shape, |t|) && i < |ix| && i < shape.rows
    ensures IndexInOrder(shape, |t|, ix, i) <==>
      ix[i].Number? && Place(shape, |t|, i, Truncated(ix[i].v)).Some?
    ensures IndexInOrder(shape, |t|, ix, i) ==>
      IsPick(shape, t, ix, i, t[Place(shape, |t|, i, Truncated(ix[i].v)).value])
  {
    hide Place, Truncated, Leads, LeadsSomewhere;
    if ix[i].Number? { PlaceMeans(shape, |t|, i, ix[i].v); }
  }

  /** Gather takes one index per row, and the first of them if either are more. From a matrix it answers exactly when
      every index it takes leads somewhere, with the cells that they lead to, in order; from a vector, zeros. */
  lemma GatherMeans(shape: Shape, t: seq<real>, ix: seq<Item>)
    requires Fits(shape, |t|)
    ensures var rows := if shape.Rows? then shape.rows else |t|;
      var n: nat := if |ix| < rows then |ix| else rows;
      var r := Gathered(shape, t, ix);
      && (r.Ok? ==> |r.row| == n)
      && (shape.Rows? ==>
          && (r.Ok? <==> forall j :: 0 <= j < n ==> IndexInOrder(shape, |t|, ix, j))
          && (r.Ok? ==> forall j :: 0 <= j < n ==> IsPick(shape, t, ix, j, r.row[j])))
      && (shape.Vector? ==> r.Ok? && forall j :: 0 <= j < n ==> r.row[j] == 0.0)
  {
    hide IndexInOrder, IsPick, Picked;
    if shape.Rows? {
      PicksMean(shape, t, ix, GatherCount(shape, t, ix), 0);
    }
  }

  // ---- The adjoint ----

  function Times(x: real, y: real): real {
    x * y
  }

  /** The inner product of the first `n` elements. */
  function Inner(a: seq<real>, b: seq<real>, n: nat): real
    requires n <= |a| && n <= |b|
  {
    if n == 0 then 0.0 else Inner(a, b, n - 1) + Times(a[n - 1], b[n - 1])
  }

  lemma {:induction false} InnerOfUpdate(a: seq<real>, b: seq<real>, p: nat, v: real, n: nat)
    requires n <= |a| == |b| && p < |b|
    ensures Inner(a, b[p := b[p] + v], n) == Inner(a, b, n) + if p < n then Times(a[p], v) else 0.0
  {
    if n > 0 {
      InnerOfUpdate(a, b, p, v, n - 1);
      assert a[p] * (b[p] + v) == a[p] * b[p] + a[p] * v;
    }
  }

  lemma {:induction false} InnerOfZeros(a: seq<real>, n: nat)
    requires n <= |a|
    ensures Inner(a, Zeros(|a|), n) == 0.0
  {
    if n > 0 {
      InnerOfZeros(a, n - 1);
      assert a[n - 1] * 0.0 == 0.0;
    }
  }

  lemma {:induction false} InnerOfCons(x: real, a: seq<real>, y: real, b: seq<real>, n: nat)
    requires n <= |a| && n <= |b|
    ensures Inner([x] + a, [y] + b, n + 1) == Times(x, y) + Inner(a, b, n)
  {
    if n > 0 {
      InnerOfCons(x, a, y, b, n - 1);
    }
  }

  function Numbers(v: seq<real>): (items: seq<Item>)
    ensures |items| == |v|
  {
    seq(|v|, i requires 0 <= i < |v| => Number(v[i]))
  }

  /** The i-th step of a scatter-add picks where it adds. */
  lemma PickFollowsStep(shape: Shape, t: seq<real>, d: seq<real>, ix: seq<Item>, v: seq<real>, i: nat)
    requires shape.Rows? && Fits(shape, |t|) && |d| == |t| && |ix| == |v| == shape.rows && i < |ix|
    ensures
      var s := StepAt(shape, d, Listed(ix), Listed(Numbers(v)), i);
      var here, rest := Picked(shape, t, ix, |ix|, i), Picked(shape, t, ix, |ix|, i + 1);
      && (here.Ok? <==> s.Add? && rest.Ok?)
      && (s.Add? ==> s.v == v[i])
      && (here.Ok? ==> here.row == [t[s.place]] + rest.row)
  {
  }

  /** From row `i` on, the picks exist exactly when no step is wrong. */
  lemma {:induction false} PicksExistIfNoStepIsWrong(shape: Shape, t: seq<real>, d: seq<real>, ix: seq<Item>,
                                                     v: seq<real>, i: nat)
    requires shape.Rows? && Fits(shape, |t|) && |d| == |t| && |ix| == |v| == shape.rows && i <= |ix|
    ensures Picked(shape, t, ix, |ix|, i).Ok? <==> FirstError(shape, d, Listed(ix), Listed(Numbers(v)), i).None?
    decreases |ix| - i
  {
    if i < |ix| {
      PickFollowsStep(shape, t, d, ix, v, i);
      PicksExistIfNoStepIsWrong(shape, t, d, ix, v, i + 1);
      hide Picked, StepAt, Fits;
    }
  }

  /** What one more pick adds to the weight of the picks. */
  lemma WeightOfPick(shape: Shape, t: seq<real>, d: seq<real>, ix: seq<Item>, v: seq<real>, i: nat)
    requires shape.Rows? && Fits(shape, |t|) && |d| == |t| && |ix| == |v| == shape.rows && i < |ix|
    requires Picked(shape, t, ix, |ix|, i).Ok?
    ensures
      var s := StepAt(shape, d, Listed(ix), Listed(Numbers(v)), i);
      var here, rest := Picked(shape, t, ix, |ix|, i), Picked(shape, t, ix, |ix|, i + 1);
      && s.Add? && rest.Ok?
      && Inner(here.row, v[i..], |ix| - i) == Times(t[s.place], s.v) + Inner(rest.row, v[i + 1..], |ix| - i - 1)
  {
    PickFollowsStep(shape, t, d, ix, v, i);
    hide StepAt, Inner, Picked, Times;
    var s := StepAt(shape, d, Listed(ix), Listed(Numbers(v)), i);
    var rest := Picked(shape, t, ix, |ix|, i + 1);
    assert v[i..] == [v[i]] + v[i + 1..];
    InnerOfCons(t[s.place], rest.row, v[i], v[i + 1..], |ix| - i - 1);
  }

  /** From row `i` on, the picks weigh the values as the additions do. */
  lemma {:induction false} PicksWeighTheAdditions(shape: Shape, t: seq<real>, d: seq<real>, ix: seq<Item>,
                                                  v: seq<real>, i: nat)
    requires shape.Rows? && Fits(shape, |t|) && |d| == |t| && |ix| == |v| == shape.rows && i <= |ix|
    requires Picked(shape, t, ix, |ix|, i).Ok?
    ensures Inner(t, Accumulated(shape, d, Listed(ix), Listed(Numbers(v)), i).data, |t|)
         == Inner(t, d, |t|) + Inner(Picked(shape, t, ix, |ix|, i).row, v[i..], |ix| - i)
    decreases |ix| - i
  {
    if i < |ix| {
      WeightOfPick(shape, t, d, ix, v, i);
      hide StepAt, Inner, Picked, Fits, Times;
      var s := StepAt(shape, d, Listed(ix), Listed(Numbers(v)), i);
      InnerOfUpdate(t, d, s.place, s.v, |t|);
      PicksWeighTheAdditions(shape, t, d[s.place := d[s.place] + s.v], ix, v, i + 1);
    }
  }

  /** Scatter-add into zeros is the adjoint of gather: <gather(t, ix), v> == <t, scatter_add(0, ix, v)>,
      and with one index per row either both raise or neither does. */
  lemma ScatterIsAdjointOfGather(shape: Shape, t: seq<real>, ix: seq<Item>, v: seq<real>)
    requires shape.Rows? && Fits(shape, |t|) && |ix| == |v| == shape.rows
    ensures
      var scattered := Scattered(shape, Zeros(|t|), Listed(ix), Listed(Numbers(v)));
      var gathered := Gathered(shape, t, ix);
      && (gathered.Ok? <==> scattered.error.None?)
      && |scattered.data| == |t|
      && (gathered.Ok? ==> |gathered.row| == |v| && Inner(gathered.row, v, |v|) == Inner(t, scattered.data, |t|))
  {
    var zeros := Zeros(|t|);
    PicksExistIfNoStepIsWrong(shape, t, zeros, ix, v, 0);
    if Gathered(shape, t, ix).Ok? {
      PicksWeighTheAdditions(shape, t, zeros, ix, v, 0);
    }
    InnerOfZeros(t, |t|);
    assert v[0..] == v;
    if FirstError(shape, zeros, Listed(ix), Listed(Numbers(v)), 0).None? {
      SecondPassCannotFail(shape, zeros, zeros, Listed(ix), Listed(Numbers(v)), 0);
    }
  }
}
