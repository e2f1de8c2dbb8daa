/** Linear resampling over the reals. */
module Resample {
  import opened Buffers

  /** Where sample `i` of `m` falls among `n` samples. */
  function Position(n: nat, m: nat, i: nat): real
    requires i < m
  {
    if m > 1 then (i * (n - 1)) as real / (m - 1) as real else 0.0
  }

  lemma Quotient(x: real, d: real)
    requires d > 0.0
    ensures (x / d) * d == x
  {
  }

  lemma QuotientBounds(x: int, d: int, y: int)
    requires d > 0
    ensures x <= y * d <==> x as real / d as real <= y as real
    ensures x >= y * d <==> x as real / d as real >= y as real
  {
    var q := x as real / d as real;
    Quotient(x as real, d as real);
    assert (y * d) as real == y as real * d as real;
    if q <= y as real {
      assert q * d as real <= y as real * d as real;
    }
    if q >= y as real {
      assert q * d as real >= y as real * d as real;
    }
  }

  /** Every position lies between the first and the last sample. */
  lemma PositionInside(n: nat, m: nat, i: nat)
    requires n >= 1 && i < m
    ensures 0.0 <= Position(n, m, i) <= (n - 1) as real
  {
    if m > 1 {
      var x, d: nat := i * (n - 1), m - 1;
      assert x <= (n - 1) * d by { TimesMonotone(i, d, n - 1); }
      QuotientBounds(x, d, n - 1);
      QuotientBounds(x, d, 0);
    }
  }

  /** The samples on either side of a position. */
  function Low(n: nat, m: nat, i: nat): (lo: nat)
    requires n >= 1 && i < m
    ensures lo < n && lo as real <= Position(n, m, i) < (lo + 1) as real
  {
    PositionInside(n, m, i);
    Position(n, m, i).Floor
  }

  function High(n: nat, m: nat, i: nat): (hi: nat)
    requires n >= 1 && i < m
    ensures Low(n, m, i) <= hi < n
  {
    if Low(n, m, i) + 1 < n then Low(n, m, i) + 1 else n - 1
  }

  function Blend(a: real, b: real, t: real): real {
    a * (1.0 - t) + b * t
  }

  /** Sample `i` of `m`. */
  function SampleAt(src: seq<real>, m: nat, i: nat): real
    requires |src| >= 1 && i < m
  {
    var n := |src|;
    Blend(src[Low(n, m, i)], src[High(n, m, i)], Position(n, m, i) - Low(n, m, i) as real)
  }

  function Samples(src: seq<real>, m: nat): (out: seq<real>)
    requires |src| >= 1
    ensures |out| == m && forall i :: 0 <= i < m ==> out[i] == SampleAt(src, m, i)
  {
    seq(m, i requires 0 <= i < m => SampleAt(src, m, i))
  }

  function Resampled(src: seq<real>, m: int): Result {
    if m < 0 then Err(NegativeCount)
    else if m > MAX32 then Err(OverLimit)
    else if m == 0 then Ok([])
    else if |src| == 0 then Err(EmptySource)
    else Ok(Samples(src, m))
  }

  /** The position's floor, and the index behind it, need no clamps but the last sample's. */
  lemma Neighbours(n: nat, m: nat, i: nat)
    requires n >= 1 && i < m
    ensures Low(n, m, i) == Position(n, m, i).Floor
    ensures High(n, m, i) == if Low(n, m, i) + 1 > n - 1 then n - 1 else Low(n, m, i) + 1
  {
  }

  /** The loop with its clamps: none of them ever moves an index. */
  method ResampleLinear(src: array<real>, m: int) returns (r: Result)
    ensures r == Resampled(src[..], m)
  {
    if m < 0 { return Err(NegativeCount); }
    if m > MAX32 { return Err(OverLimit); }
    var n := src.Length;
    if n == 0 && m > 0 { return Err(EmptySource); }
    var out := new real[m];
    for i := 0 to m
      invariant forall k :: 0 <= k < i ==> out[k] == SampleAt(src[..], m, k)
    {
      var pos := 0.0;
      if m > 1 { pos := (i as real * (n - 1) as real) / (m - 1) as real; }
      assert pos == Position(n, m, i);
      hide Position, Blend;
      Neighbours(n, m, i);
      var lo := pos.Floor;
      var whole := lo as real;
      var hi := lo + 1;
      if hi > n - 1 { hi := n - 1; }
      if lo < 0 { lo := 0; }
      if lo > n - 1 { lo := n - 1; }
      if hi < 0 { hi := 0; }
      var t := pos - whole;
      assert lo == Low(n, m, i) && hi == High(n, m, i);
      out[i] := Blend(src[lo], src[hi], t);
    }
    hide SampleAt;
    if m > 0 {
      assert out[..] == Samples(src[..], m);
    }
    return Ok(out[..]);
  }

  // ---- What resampling keeps ----

  /** A sample that falls on a source sample is that sample. */
  lemma OnASample(src: seq<real>, m: nat, i: nat, k: nat)
    requires |src| >= 1 && i < m && k < |src| && Position(|src|, m, i) == k as real
    ensures SampleAt(src, m, i) == src[k]
  {
    assert Low(|src|, m, i) == k;
  }

  lemma PositionOnASample(n: nat, m: nat, i: nat, k: nat)
    requires n >= 1 && m >= 2 && i < m && i * (n - 1) == k * (m - 1)
    ensures Position(n, m, i) == k as real
  {
    QuotientBounds(i * (n - 1), m - 1, k);
  }

  lemma EndpointsStay(src: seq<real>, m: nat)
    requires |src| >= 1 && m >= 2
    ensures Samples(src, m)[0] == src[0] && Samples(src, m)[m - 1] == src[|src| - 1]
  {
    var n := |src|;
    PositionOnASample(n, m, 0, 0);
    OnASample(src, m, 0, 0);
    assert (m - 1) * (n - 1) == (n - 1) * (m - 1);
    PositionOnASample(n, m, m - 1, n - 1);
    OnASample(src, m, m - 1, n - 1);
  }

  lemma SameLengthIsIdentity(src: seq<real>)
    ensures Resampled(src, |src|) == if |src| <= MAX32 then Ok(src) else Err(OverLimit)
  {
    if 0 < |src| <= MAX32 {
      var n := |src|;
      forall i | 0 <= i < n ensures Samples(src, n)[i] == src[i] {
        if n > 1 {
          PositionOnASample(n, n, i, i);
        }
        OnASample(src, n, i, i);
      }
      assert Samples(src, n) == src;
    }
  }

  lemma PartOf(x: real, t: real)
    requires 0.0 <= x && 0.0 <= t <= 1.0
    ensures 0.0 <= x * t <= x
  {
    assert x * t + x * (1.0 - t) == x;
  }

  lemma BlendUp(a: real, d: real, t: real)
    requires 0.0 <= d && 0.0 <= t <= 1.0
    ensures a <= Blend(a, a + d, t) <= a + d
  {
    PartOf(d, t);
    assert Blend(a, a + d, t) == a + d * t;
  }

  lemma BlendDown(a: real, d: real, t: real)
    requires 0.0 <= d && 0.0 <= t <= 1.0
    ensures a - d <= Blend(a, a - d, t) <= a
  {
    PartOf(d, t);
    assert Blend(a, a - d, t) == a - d * t;
  }

  lemma BlendBetween(a: real, b: real, t: real)
    requires 0.0 <= t <= 1.0
    ensures a <= b ==> a <= Blend(a, b, t) <= b
    ensures b <= a ==> b <= Blend(a, b, t) <= a
  {
    hide Blend;
    if a <= b { BlendUp(a, b - a, t); }
    if b <= a { BlendDown(a, a - b, t); }
  }

  /** Every sample lies between its two neighbours in the source. */
  lemma BetweenNeighbours(src: seq<real>, m: nat, i: nat)
    requires |src| >= 1 && i < m
    ensures
      var a, b, x := src[Low(|src|, m, i)], src[High(|src|, m, i)], Samples(src, m)[i];
      (a <= b ==> a <= x <= b) && (b <= a ==> b <= x <= a)
  {
    BlendBetween(src[Low(|src|, m, i)], src[High(|src|, m, i)], Position(|src|, m, i) - Low(|src|, m, i) as real);
  }

  /** The source is a straight line. */
  predicate Straight(src: seq<real>, a: real, b: real) {
    forall k :: 0 <= k < |src| ==> src[k] == a + b * k as real
  }

  /** A straight line resamples to itself. */
  lemma StraightLinesStay(src: seq<real>, a: real, b: real, m: nat, i: nat)
    requires |src| >= 1 && i < m && Straight(src, a, b)
    ensures Samples(src, m)[i] == a + b * Position(|src|, m, i)
  {
    var n := |src|;
    var lo, hi, pos := Low(n, m, i), High(n, m, i), Position(n, m, i);
    var t := pos - lo as real;
    PositionInside(n, m, i);
    if lo + 1 < n {
      BlendOfLine(a, b, lo as real, t);
    } else {
      assert pos == lo as real && t == 0.0;
      assert src[hi] == src[lo];
    }
  }

  lemma BlendOfLine(a: real, b: real, x: real, t: real)
    ensures Blend(a + b * x, a + b * (x + 1.0), t) == a + b * (x + t)
  {
    assert b * (x + 1.0) == b * x + b;
    assert b * (x + t) == b * x + b * t;
  }

  lemma SampleComesBack(src: seq<real>, m: nat, i: nat, j: nat)
    requires |src| >= 2 && m >= 2 && i < m && j < |src| && j * (m - 1) == i * (|src| - 1)
    ensures Samples(Samples(src, m), |src|)[j] == src[j]
  {
    var n := |src|;
    PositionOnASample(m, n, j, i);
    OnASample(Samples(src, m), n, j, i);
    PositionOnASample(n, m, i, j);
    OnASample(src, m, i, j);
  }

  lemma SpreadIndex(n: nat, f: nat, m: nat, j: nat)
    requires n >= 2 && f >= 1 && m == f * (n - 1) + 1 && j < n
    ensures m >= 2 && j * f < m && j * (m - 1) == (j * f) * (n - 1)
  {
    TimesMonotone(1, f, n - 1);
    TimesMonotone(j, n - 1, f);
    assert j * (f * (n - 1)) == (j * f) * (n - 1);
  }

  /** Spreading every interval over `f` and taking every f-th sample again gives the source back. */
  lemma SpreadAndBack(src: seq<real>, f: nat, m: nat)
    requires |src| >= 2 && f >= 1 && m == f * (|src| - 1) + 1
    ensures Samples(Samples(src, m), |src|) == src
  {
    SpreadIndex(|src|, f, m, 0);
    forall j | 0 <= j < |src| ensures Samples(Samples(src, m), |src|)[j] == src[j] {
      SpreadIndex(|src|, f, m, j);
      SampleComesBack(src, m, j * f, j);
    }
  }
}
