/** The tiled matrix kernels: tiling keeps the order in which every cell's products are added,
    for operations about which nothing is assumed. */
module Matmul {
  import opened Basics

  const TILE: nat := 32

  /** Addition and multiplication, neither associative nor commutative nor anything else. */
  datatype Ops<!T> = Ops(add: (T, T) -> T, mul: (T, T) -> T, zero: T)

  /** The flat index of row `r`, column `c` in a matrix of `cols` columns. */
  function Flat(r: int, c: int, cols: nat): int {
    r * cols + c
  }

  lemma FlatInside(r: nat, c: nat, rows: nat, cols: nat)
    requires r < rows && c < cols
    ensures 0 <= Flat(r, c, cols) < rows * cols
  {
    assert r * cols <= (rows - 1) * cols;
    assert (rows - 1) * cols + cols == rows * cols;
  }

  lemma RowsApart(r: nat, r': nat, cols: nat)
    ensures r < r' ==> Flat(r, 0, cols) + cols <= Flat(r', 0, cols)
  {
    if r < r' {
      var d := r' - r;
      assert r' * cols == r * cols + d * cols;
      assert d * cols == (d - 1) * cols + cols;
    }
  }

  lemma FlatDistinct(r: nat, c: nat, r': nat, c': nat, cols: nat)
    requires c < cols && c' < cols && Flat(r, c, cols) == Flat(r', c', cols)
    ensures r == r' && c == c'
  {
    RowsApart(r, r', cols);
    RowsApart(r', r, cols);
    assert Flat(r, c, cols) == Flat(r, 0, cols) + c && Flat(r', c', cols) == Flat(r', 0, cols) + c';
    hide Flat;
  }

  /** Every cell of a matrix has a flat index of its own. */
  lemma Layout(rows: nat, cols: nat)
    ensures forall r, c :: 0 <= r < rows && 0 <= c < cols ==> 0 <= Flat(r, c, cols) < rows * cols
    ensures forall r, c, r', c' ::
      0 <= r < rows && 0 <= c < cols && 0 <= r' < rows && 0 <= c' < cols && Flat(r, c, cols) == Flat(r', c', cols) ==>
      r == r' && c == c'
  {
    forall r, c | 0 <= r < rows && 0 <= c < cols ensures 0 <= Flat(r, c, cols) < rows * cols {
      FlatInside(r, c, rows, cols);
    }
    forall r, c, r', c' | 0 <= r < rows && 0 <= c < cols && 0 <= r' < rows && 0 <= c' < cols &&
      Flat(r, c, cols) == Flat(r', c', cols)
      ensures r == r' && c == c'
    {
      FlatDistinct(r, c, r', c', cols);
    }
  }

  /** A matrix in a flat buffer: stored row by row or, transposed, column by column. */
  datatype Matrix<T> = Matrix(data: seq<T>, rows: nat, cols: nat, transposed: bool) {
    predicate Valid() {
      |data| == rows * cols
    }

    function IndexOf(r: nat, c: nat): (i: int)
      requires Valid() && r < rows && c < cols
      ensures 0 <= i < |data|
    {
      FlatInside(r, c, rows, cols);
      FlatInside(c, r, cols, rows);
      assert rows * cols == cols * rows;
      if transposed then Flat(c, r, rows) else Flat(r, c, cols)
    }

    function At(r: nat, c: nat): T
      requires Valid() && r < rows && c < cols
    {
      data[IndexOf(r, c)]
    }

    /** `m` holds the same cells. */
    ghost predicate SameCells(m: Matrix<T>)
      requires Valid() && m.Valid()
    {
      && m.rows == rows && m.cols == cols
      && forall r, c :: 0 <= r < rows && 0 <= c < cols ==> m.At(r, c) == At(r, c)
    }
  }

  /** The naive product: cell (i, j) after its first `c` products have been added, in ascending order. */
  function Dot<T>(ops: Ops<T>, a: Matrix<T>, b: Matrix<T>, i: nat, j: nat, c: nat): T
    requires a.Valid() && b.Valid() && a.cols == b.rows
    requires i < a.rows && j < b.cols && c <= a.cols
  {
    if c == 0 then ops.zero
    else ops.add(Dot(ops, a, b, i, j, c - 1), ops.mul(a.At(i, c - 1), b.At(c - 1, j)))
  }

  // ---- Progress through the tiles ----

  /** Where the six loops are: the current tile, and the position in it. */
  datatype Progress = Progress(i0: int, i1: int, j0: int, j1: int, k0: int, k1: int, i: int, kk: int, j: int)

  /** How many products of cell (r, c) have been added, of `all`. */
  function Done(p: Progress, all: int, r: int, c: int): int {
    if r < p.i0 then all
    else if r >= p.i1 then 0
    else if c < p.j0 then all
    else if c >= p.j1 then 0
    else if r < p.i then p.k1
    else if r > p.i then p.k0
    else if c < p.j then p.kk + 1
    else p.kk
  }

  /** Every cell holds the naive product as far as it has got. */
  ghost predicate Partial<T>(ops: Ops<T>, a: Matrix<T>, b: Matrix<T>, out: seq<T>, p: Progress)
    requires a.Valid() && b.Valid() && a.cols == b.rows && |out| == a.rows * b.cols
  {
    forall r, c :: 0 <= r < a.rows && 0 <= c < b.cols ==>
      && 0 <= Done(p, a.cols, r, c) <= a.cols
      && 0 <= Flat(r, c, b.cols) < |out|
      && out[Flat(r, c, b.cols)] == Dot(ops, a, b, r, c, Done(p, a.cols, r, c))
  }

  lemma SameProgress<T>(ops: Ops<T>, a: Matrix<T>, b: Matrix<T>, out: seq<T>, p: Progress, q: Progress)
    requires a.Valid() && b.Valid() && a.cols == b.rows && |out| == a.rows * b.cols
    requires Partial(ops, a, b, out, p)
    requires forall r, c :: 0 <= r < a.rows && 0 <= c < b.cols ==> Done(p, a.cols, r, c) == Done(q, a.cols, r, c)
    ensures Partial(ops, a, b, out, q)
  {
    hide Done, Flat, Dot;
  }

  /** Adding one product to one cell. */
  lemma OneProduct<T>(ops: Ops<T>, a: Matrix<T>, b: Matrix<T>, out: seq<T>, p: Progress)
    requires a.Valid() && b.Valid() && a.cols == b.rows && |out| == a.rows * b.cols
    requires 0 <= p.i0 <= p.i < p.i1 <= a.rows && 0 <= p.j0 <= p.j < p.j1 <= b.cols && 0 <= p.kk < a.cols
    requires Partial(ops, a, b, out, p)
    ensures var at := Flat(p.i, p.j, b.cols);
      && 0 <= at < |out|
      && Partial(ops, a, b, out[at := ops.add(out[at], ops.mul(a.At(p.i, p.kk), b.At(p.kk, p.j)))], p.(j := p.j + 1))
  {
    Layout(a.rows, b.cols);
    hide Flat, Matrix.IndexOf;
    var at, q := Flat(p.i, p.j, b.cols), p.(j := p.j + 1);
    var out' := out[at := ops.add(out[at], ops.mul(a.At(p.i, p.kk), b.At(p.kk, p.j)))];
    assert Done(p, a.cols, p.i, p.j) == p.kk;
    forall r, c | 0 <= r < a.rows && 0 <= c < b.cols
      ensures 0 <= Done(q, a.cols, r, c) <= a.cols
      ensures out'[Flat(r, c, b.cols)] == Dot(ops, a, b, r, c, Done(q, a.cols, r, c))
    {
      assert 0 <= Done(p, a.cols, r, c) <= a.cols;
      if r != p.i || c != p.j {
        assert Flat(r, c, b.cols) != at;
      }
    }
  }

  // ---- The kernels ----

  /** One tile: add the products `k0..k1` to the cells of rows `i0..i1` and columns `j0..j1`. */
  method AddTile<T>(ops: Ops<T>, a: Matrix<T>, b: Matrix<T>, out: array<T>, i0: nat, i1: nat, j0: nat, j1: nat,
                    k0: nat, k1: nat)
    requires a.Valid() && b.Valid() && a.cols == b.rows && out.Length == a.rows * b.cols
    requires i0 < i1 <= a.rows && j0 < j1 <= b.cols && k0 < k1 <= a.cols
    requires Partial(ops, a, b, out[..], Progress(i0, i1, j0, j1, k0, k1, i0, k0, j0))
    modifies out
    ensures Partial(ops, a, b, out[..], Progress(i0, i1, j0, j1, k0, k1, i1, k0, j0))
  {
    hide Partial, Flat, Dot;
    var i := i0;
    while i < i1
      invariant i0 <= i <= i1
      invariant Partial(ops, a, b, out[..], Progress(i0, i1, j0, j1, k0, k1, i, k0, j0))
    {
      var kk := k0;
      while kk < k1
        invariant k0 <= kk <= k1
        invariant Partial(ops, a, b, out[..], Progress(i0, i1, j0, j1, k0, k1, i, kk, j0))
      {
        var aik := a.At(i, kk);
        var j := j0;
        while j < j1
          invariant j0 <= j <= j1
          invariant Partial(ops, a, b, out[..], Progress(i0, i1, j0, j1, k0, k1, i, kk, j))
        {
          ghost var p, before := Progress(i0, i1, j0, j1, k0, k1, i, kk, j), out[..];
          OneProduct(ops, a, b, before, p);
          var at := Flat(i, j, b.cols);
          out[at] := ops.add(out[at], ops.mul(aik, b.At(kk, j)));
          assert out[..] == before[at := out[at]];
          j := j + 1;
        }
        SameProgress(ops, a, b, out[..], Progress(i0, i1, j0, j1, k0, k1, i, kk, j1),
          Progress(i0, i1, j0, j1, k0, k1, i, kk + 1, j0));
        kk := kk + 1;
      }
      SameProgress(ops, a, b, out[..], Progress(i0, i1, j0, j1, k0, k1, i, k1, j0),
        Progress(i0, i1, j0, j1, k0, k1, i + 1, k0, j0));
      i := i + 1;
    }
  }

  /** Cell (i, j) of the naive product, for every cell. */
  ghost predicate IsProduct<T>(ops: Ops<T>, a: Matrix<T>, b: Matrix<T>, out: seq<T>)
    requires a.Valid() && b.Valid() && a.cols == b.rows && |out| == a.rows * b.cols
  {
    forall r, c :: 0 <= r < a.rows && 0 <= c < b.cols ==>
      && 0 <= Flat(r, c, b.cols) < |out|
      && out[Flat(r, c, b.cols)] == Dot(ops, a, b, r, c, a.cols)
  }

  // The tiling shared by the three kernels, which differ only in how they index the operands:
  // bands of rows, blocks of columns in a band, and runs of products in a block.

  /** The innermost tile loop: all products of one block. */
  method AddBlock<T>(ops: Ops<T>, a: Matrix<T>, b: Matrix<T>, out: array<T>, i0: nat, i1: nat, j0: nat, j1: nat)
    requires a.Valid() && b.Valid() && a.cols == b.rows && out.Length == a.rows * b.cols
    requires i0 < i1 <= a.rows && j0 < j1 <= b.cols
    requires Partial(ops, a, b, out[..], Progress(i0, i1, j0, j1, 0, 0, i0, 0, j0))
    modifies out
    ensures Partial(ops, a, b, out[..], Progress(i0, i1, j0, j1, a.cols, a.cols, i0, a.cols, j0))
  {
    hide Partial, Flat, Dot;
    var k, k0 := a.cols, 0;
    while k0 < k
      invariant 0 <= k0
      invariant Partial(ops, a, b, out[..], Progress(i0, i1, j0, j1, Min(k0, k), Min(k0, k), i0, Min(k0, k), j0))
    {
      var k1 := Min(k0 + TILE, k);
      SameProgress(ops, a, b, out[..], Progress(i0, i1, j0, j1, k0, k0, i0, k0, j0),
        Progress(i0, i1, j0, j1, k0, k1, i0, k0, j0));
      AddTile(ops, a, b, out, i0, i1, j0, j1, k0, k1);
      SameProgress(ops, a, b, out[..], Progress(i0, i1, j0, j1, k0, k1, i1, k0, j0),
        Progress(i0, i1, j0, j1, k1, k1, i0, k1, j0));
      k0 := k0 + TILE;
    }
  }

  /** The middle tile loop: all columns of one band of rows. */
  method AddBand<T>(ops: Ops<T>, a: Matrix<T>, b: Matrix<T>, out: array<T>, i0: nat, i1: nat)
    requires a.Valid() && b.Valid() && a.cols == b.rows && out.Length == a.rows * b.cols
    requires i0 < i1 <= a.rows
    requires Partial(ops, a, b, out[..], Progress(i0, i1, 0, 0, 0, 0, 0, 0, 0))
    modifies out
    ensures Partial(ops, a, b, out[..], Progress(i1, i1, 0, 0, 0, 0, 0, 0, 0))
  {
    hide Partial, Flat, Dot;
    var n, k, j0 := b.cols, a.cols, 0;
    while j0 < n
      invariant 0 <= j0
      invariant Partial(ops, a, b, out[..], Progress(i0, i1, j0, j0, 0, 0, 0, 0, 0))
    {
      var j1 := Min(j0 + TILE, n);
      SameProgress(ops, a, b, out[..], Progress(i0, i1, j0, j0, 0, 0, 0, 0, 0),
        Progress(i0, i1, j0, j1, 0, 0, i0, 0, j0));
      AddBlock(ops, a, b, out, i0, i1, j0, j1);
      SameProgress(ops, a, b, out[..], Progress(i0, i1, j0, j1, k, k, i0, k, j0),
        Progress(i0, i1, j0 + TILE, j0 + TILE, 0, 0, 0, 0, 0));
      j0 := j0 + TILE;
    }
    SameProgress(ops, a, b, out[..], Progress(i0, i1, j0, j0, 0, 0, 0, 0, 0), Progress(i1, i1, 0, 0, 0, 0, 0, 0, 0));
  }

  /** The outermost tile loop: every band of rows, from a zeroed result. */
  method Tiled<T>(ops: Ops<T>, a: Matrix<T>, b: Matrix<T>, out: array<T>)
    requires a.Valid() && b.Valid() && a.cols == b.rows && out.Length == a.rows * b.cols
    modifies out
    ensures IsProduct(ops, a, b, out[..])
  {
    forall x | 0 <= x < out.Length { out[x] := ops.zero; }
    NothingAdded(ops, a, b, out[..]);
    hide Partial, Flat, Dot, IsProduct;
    var m, i0 := a.rows, 0;
    while i0 < m
      invariant 0 <= i0
      invariant Partial(ops, a, b, out[..], Progress(i0, i0, 0, 0, 0, 0, 0, 0, 0))
    {
      var i1 := Min(i0 + TILE, m);
      SameProgress(ops, a, b, out[..], Progress(i0, i0, 0, 0, 0, 0, 0, 0, 0), Progress(i0, i1, 0, 0, 0, 0, 0, 0, 0));
      AddBand(ops, a, b, out, i0, i1);
      SameProgress(ops, a, b, out[..], Progress(i1, i1, 0, 0, 0, 0, 0, 0, 0),
        Progress(i0 + TILE, i0 + TILE, 0, 0, 0, 0, 0, 0, 0));
      i0 := i0 + TILE;
    }
    AllDone(ops, a, b, out[..], i0);
  }

  lemma NothingAdded<T>(ops: Ops<T>, a: Matrix<T>, b: Matrix<T>, out: seq<T>)
    requires a.Valid() && b.Valid() && a.cols == b.rows && |out| == a.rows * b.cols
    requires forall x :: 0 <= x < |out| ==> out[x] == ops.zero
    ensures Partial(ops, a, b, out, Progress(0, 0, 0, 0, 0, 0, 0, 0, 0))
  {
    Layout(a.rows, b.cols);
    hide Flat;
  }

  lemma AllDone<T>(ops: Ops<T>, a: Matrix<T>, b: Matrix<T>, out: seq<T>, i0: int)
    requires a.Valid() && b.Valid() && a.cols == b.rows && |out| == a.rows * b.cols && i0 >= a.rows
    requires Partial(ops, a, b, out, Progress(i0, i0, 0, 0, 0, 0, 0, 0, 0))
    ensures IsProduct(ops, a, b, out)
  {
    hide Flat, Dot;
    forall r, c | 0 <= r < a.rows && 0 <= c < b.cols
      ensures 0 <= Flat(r, c, b.cols) < |out| && out[Flat(r, c, b.cols)] == Dot(ops, a, b, r, c, a.cols)
    {
      assert Done(Progress(i0, i0, 0, 0, 0, 0, 0, 0, 0), a.cols, r, c) == a.cols;
    }
  }

  lemma {:induction false} EqualCellsEqualDots<T>(ops: Ops<T>, a: Matrix<T>, a': Matrix<T>, b: Matrix<T>,
                                                  b': Matrix<T>, i: nat, j: nat, c: nat)
    requires a.Valid() && a'.Valid() && b.Valid() && b'.Valid() && a.cols == b.rows
    requires a.SameCells(a') && b.SameCells(b') && i < a.rows && j < b.cols && c <= a.cols
    ensures Dot(ops, a', b', i, j, c) == Dot(ops, a, b, i, j, c)
    decreases c
  {
    hide Matrix.At, Matrix.IndexOf;
    if c > 0 {
      EqualCellsEqualDots(ops, a, a', b, b', i, j, c - 1);
      assert a'.At(i, c - 1) == a.At(i, c - 1) && b'.At(c - 1, j) == b.At(c - 1, j);
    }
  }

  /** How a product's operands are stored does not matter, only their cells. */
  lemma EqualCellsEqualProducts<T>(ops: Ops<T>, a: Matrix<T>, a': Matrix<T>, b: Matrix<T>, b': Matrix<T>, out: seq<T>)
    requires a.Valid() && a'.Valid() && b.Valid() && b'.Valid() && a.cols == b.rows && |out| == a.rows * b.cols
    requires a.SameCells(a') && b.SameCells(b') && IsProduct(ops, a, b, out)
    ensures IsProduct(ops, a', b', out)
  {
    hide Dot, Flat, Matrix.At, Matrix.IndexOf;
    forall r, c | 0 <= r < a.rows && 0 <= c < b.cols
      ensures 0 <= Flat(r, c, b'.cols) < |out| && out[Flat(r, c, b'.cols)] == Dot(ops, a', b', r, c, a'.cols)
    {
      EqualCellsEqualDots(ops, a, a', b, b', r, c, a.cols);
    }
  }

  // ---- The identity matrix ----

  /** A cell is where row by row or column by column storage has it. */
  lemma StoredAt<T>(a: Matrix<T>, r: nat, c: nat)
    requires a.Valid() && r < a.rows && c < a.cols
    ensures var i := if a.transposed then c * a.rows + r else r * a.cols + c;
      0 <= i < |a.data| && a.At(r, c) == a.data[i]
  {
    var i := a.IndexOf(r, c);
  }

  /** What numbers have of zero and one. */
  ghost predicate Unital<T(!new)>(ops: Ops<T>, one: T) {
    && (forall x :: ops.add(ops.zero, x) == x && ops.add(x, ops.zero) == x)
    && (forall x :: ops.mul(x, one) == x && ops.mul(one, x) == x)
    && (forall x :: ops.mul(x, ops.zero) == ops.zero && ops.mul(ops.zero, x) == ops.zero)
  }

  ghost predicate IsIdentity<T>(ops: Ops<T>, one: T, e: Matrix<T>) {
    && e.Valid() && e.rows == e.cols
    && forall r, c :: 0 <= r < e.rows && 0 <= c < e.cols ==> e.At(r, c) == if r == c then one else ops.zero
  }

  lemma {:induction false} DotOfIdentity<T(!new)>(ops: Ops<T>, one: T, a: Matrix<T>, e: Matrix<T>, i: nat, j: nat,
                                                  c: nat)
    requires Unital(ops, one) && a.Valid() && IsIdentity(ops, one, e) && a.cols == e.rows
    requires i < a.rows && j < a.cols && c <= a.cols
    ensures Dot(ops, a, e, i, j, c) == if j < c then a.At(i, j) else ops.zero
    decreases c
  {
    hide Matrix.At;
    if c > 0 {
      DotOfIdentity(ops, one, a, e, i, j, c - 1);
      assert e.At(c - 1, j) == if c - 1 == j then one else ops.zero;
    }
  }

  lemma {:induction false} IdentityDots<T(!new)>(ops: Ops<T>, one: T, e: Matrix<T>, b: Matrix<T>, i: nat, j: nat,
                                                 c: nat)
    requires Unital(ops, one) && b.Valid() && IsIdentity(ops, one, e) && e.cols == b.rows
    requires i < b.rows && j < b.cols && c <= b.rows
    ensures Dot(ops, e, b, i, j, c) == if i < c then b.At(i, j) else ops.zero
    decreases c
  {
    hide Matrix.At;
    if c > 0 {
      IdentityDots(ops, one, e, b, i, j, c - 1);
      assert e.At(i, c - 1) == if i == c - 1 then one else ops.zero;
    }
  }

  /** A matrix times the identity is the matrix, stored row by row, on either side. */
  lemma ProductWithIdentity<T(!new)>(ops: Ops<T>, one: T, a: Matrix<T>, e: Matrix<T>, out: seq<T>, r: nat, c: nat)
    requires Unital(ops, one) && a.Valid() && IsIdentity(ops, one, e) && |out| == a.rows * a.cols
    requires r < a.rows && c < a.cols
    ensures 0 <= r * a.cols + c < |out|
    ensures a.cols == e.rows && IsProduct(ops, a, e, out) ==> out[r * a.cols + c] == a.At(r, c)
    ensures e.cols == a.rows && IsProduct(ops, e, a, out) ==> out[r * a.cols + c] == a.At(r, c)
  {
    hide Dot, Matrix.At;
    FlatInside(r, c, a.rows, a.cols);
    if a.cols == e.rows { DotOfIdentity(ops, one, a, e, r, c, a.cols); }
    if e.cols == a.rows { IdentityDots(ops, one, e, a, r, c, a.rows); }
  }

  /** `t` stores row by row the transpose of the `rows` by `cols` matrix that `data` stores row by row. */
  ghost predicate IsTranspose<T>(t: seq<T>, data: seq<T>, rows: nat, cols: nat) {
    && |data| == rows * cols && |t| == cols * rows
    && forall r, c :: 0 <= r < rows && 0 <= c < cols ==>
      && 0 <= Flat(r, c, cols) < |data| && 0 <= Flat(c, r, rows) < |t|
      && t[Flat(c, r, rows)] == data[Flat(r, c, cols)]
  }

  lemma TransposedCells<T>(t: seq<T>, data: seq<T>, rows: nat, cols: nat)
    requires IsTranspose(t, data, rows, cols)
    ensures Matrix(data, cols, rows, true).Valid()
    ensures Matrix(data, cols, rows, true).SameCells(Matrix(t, cols, rows, false))
  {
    assert rows * cols == cols * rows;
    hide Flat;
  }

  /** out (m x n) := a (m x k) times b (k x n). */
  method MatmulBuf<T>(ops: Ops<T>, a: array<T>, m: nat, k: nat, b: array<T>, n: nat, out: array<T>)
    requires a.Length == m * k && b.Length == k * n && out.Length == m * n && out != a && out != b
    modifies out
    ensures IsProduct(ops, Matrix(a[..], m, k, false), Matrix(b[..], k, n, false), out[..])
  {
    Tiled(ops, Matrix(a[..], m, k, false), Matrix(b[..], k, n, false), out);
  }

  /** out (k x n) := the transpose of a (m x k), times b (m x n). It is the plain product of the
      explicitly transposed operand, cell by cell and addition by addition. */
  method MatmulAtBuf<T>(ops: Ops<T>, a: array<T>, m: nat, k: nat, b: array<T>, n: nat, out: array<T>)
    requires a.Length == m * k && b.Length == m * n && out.Length == k * n && out != a && out != b
    modifies out
    ensures k * m == m * k && IsProduct(ops, Matrix(a[..], k, m, true), Matrix(b[..], m, n, false), out[..])
    ensures forall t :: IsTranspose(t, a[..], m, k) ==>
      IsProduct(ops, Matrix(t, k, m, false), Matrix(b[..], m, n, false), out[..])
  {
    assert m * k == k * m;
    var left, right := Matrix(a[..], k, m, true), Matrix(b[..], m, n, false);
    Tiled(ops, left, right, out);
    hide IsProduct, IsTranspose;
    forall t | IsTranspose(t, a[..], m, k)
      ensures Matrix(t, k, m, false).Valid() && IsProduct(ops, Matrix(t, k, m, false), right, out[..])
    {
      TransposedCells(t, a[..], m, k);
      EqualCellsEqualProducts(ops, left, Matrix(t, k, m, false), right, right, out[..]);
    }
  }

  /** out (m x n) := a (m x k) times the transpose of b (n x k). It is the plain product of the
      explicitly transposed operand, cell by cell and addition by addition. */
  method MatmulBtBuf<T>(ops: Ops<T>, a: array<T>, m: nat, k: nat, b: array<T>, n: nat, out: array<T>)
    requires a.Length == m * k && b.Length == n * k && out.Length == m * n && out != a && out != b
    modifies out
    ensures k * n == n * k && IsProduct(ops, Matrix(a[..], m, k, false), Matrix(b[..], k, n, true), out[..])
    ensures forall t :: IsTranspose(t, b[..], n, k) ==>
      IsProduct(ops, Matrix(a[..], m, k, false), Matrix(t, k, n, false), out[..])
  {
    assert n * k == k * n;
    var left, right := Matrix(a[..], m, k, false), Matrix(b[..], k, n, true);
    Tiled(ops, left, right, out);
    hide IsProduct, IsTranspose;
    forall t | IsTranspose(t, b[..], n, k)
      ensures Matrix(t, k, n, false).Valid() && IsProduct(ops, left, Matrix(t, k, n, false), out[..])
    {
      TransposedCells(t, b[..], n, k);
      EqualCellsEqualProducts(ops, left, left, right, Matrix(t, k, n, false), out[..]);
    }
  }
}
