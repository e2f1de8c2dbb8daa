/** Constant-pool entries and the equality the pool deduplicates by. */
module Constants {
  const TWO_52: nat := 0x10_0000_0000_0000
  const TWO_63: nat := 0x8000_0000_0000_0000

  /** An IEEE 754 binary64 value, by its bit pattern. */
  type Double = bits: nat | bits < 2 * TWO_63

  /** A NUL-free C string, by its characters. */
  datatype Constant =
    | Num(bits: Double)
    | Str(text: string)
    | Other(id: nat)  // a value that is neither a number nor a string
  {
    predicate Hashable() {
      Num? || Str?
    }
  }

  predicate IsNaN(d: Double) {
    d / TWO_52 % 0x800 == 0x7FF && d % TWO_52 != 0
  }

  predicate IsZero(d: Double) {
    d % TWO_63 == 0
  }

  /** C's `==` on doubles: a NaN equals nothing, the two zeros equal each other, and any
      other value equals only its own bit pattern. */
  predicate DoubleEqual(a: Double, b: Double) {
    !IsNaN(a) && !IsNaN(b) && (a == b || (IsZero(a) && IsZero(b)))
  }

  /** The pool's equality: only numbers and strings can be equal to anything. */
  predicate ConstEqual(a: Constant, b: Constant) {
    match (a, b)
    case (Num(x), Num(y)) => DoubleEqual(x, y)
    case (Str(s), Str(t)) => s == t
    case _ => false
  }

  // ---- What the equality means ----

  function Pow2(n: nat): (p: nat)
    ensures p >= 1
  {
    if n == 0 then 1 else 2 * Pow2(n - 1)
  }

  /** The magnitude of a value that is no NaN, in units of the smallest subnormal: significand times power of two, the
      leading bit being implicit in normal values. The infinities come out above all other magnitudes. */
  function Magnitude(d: Double): nat {
    Scaled(d / TWO_52 % 0x800, d % TWO_52)
  }

  function Times(x: nat, y: nat): nat {
    x * y
  }

  function Scaled(exponent: nat, fraction: nat): nat {
    if exponent == 0 then fraction else Times(TWO_52 + fraction, Pow2(exponent - 1))
  }

  /** The number that a value that is no NaN stands for, in the same units. */
  function Signed(d: Double): int {
    if d < TWO_63 then Magnitude(d) else 0 - Magnitude(d)
  }

  lemma {:induction false} Pow2Grows(m: nat, n: nat)
    requires m < n
    ensures 2 * Pow2(m) <= Pow2(n)
    decreases n
  {
    if m < n - 1 {
      Pow2Grows(m, n - 1);
    }
  }

  lemma TimesGrows(x: nat, y: nat, p: nat)
    requires x < y && p >= 1
    ensures Times(x, p) < Times(y, p)
  {
  }

  lemma TimesDoubled(x: nat, p: nat, q: nat)
    requires 2 * p <= q
    ensures Times(2 * x, p) <= Times(x, q)
  {
    assert x * (q - 2 * p) >= 0;
    assert x * q == x * (q - 2 * p) + x * (2 * p);
    assert x * (2 * p) == (2 * x) * p;
  }

  /** The larger of two bit patterns, signs aside, has the larger magnitude. */
  lemma MagnitudeGrows(a: Double, b: Double)
    requires a % TWO_63 < b % TWO_63
    ensures Magnitude(a) < Magnitude(b)
  {
    hide Scaled;
    Fields(a);
    Fields(b);
    FieldsOrdered(a / TWO_52 % 0x800, a % TWO_52, b / TWO_52 % 0x800, b % TWO_52);
    ScaledGrows(a / TWO_52 % 0x800, a % TWO_52, b / TWO_52 % 0x800, b % TWO_52);
  }

  lemma FieldsOrdered(ea: nat, fa: nat, eb: nat, fb: nat)
    requires ea * TWO_52 + fa < eb * TWO_52 + fb && fa < TWO_52 && fb < TWO_52
    ensures ea < eb || (ea == eb && fa < fb)
  {
  }

  lemma ScaledGrows(ea: nat, fa: nat, eb: nat, fb: nat)
    requires fa < TWO_52 && fb < TWO_52 && (ea < eb || (ea == eb && fa < fb))
    ensures Scaled(ea, fa) < Scaled(eb, fb)
  {
    hide Times, Pow2;
    if ea == eb {
      if ea > 0 { TimesGrows(TWO_52 + fa, TWO_52 + fb, Pow2(ea - 1)); }
    } else if ea == 0 {
      TimesByOne(TWO_52 + fb, Pow2(eb - 1));
    } else {
      Pow2Grows(ea - 1, eb - 1);
      TimesGrows(TWO_52 + fa, 2 * TWO_52, Pow2(ea - 1));
      TimesDoubled(TWO_52, Pow2(ea - 1), Pow2(eb - 1));
      if fb > 0 { TimesGrows(TWO_52, TWO_52 + fb, Pow2(eb - 1)); }
    }
  }

  lemma TimesByOne(x: nat, p: nat)
    requires p >= 1
    ensures Times(x, p) >= x
  {
  }

  lemma Fields(d: Double)
    ensures d % TWO_63 == (d / TWO_52 % 0x800) * TWO_52 + d % TWO_52
  {
  }

  lemma ZeroMagnitude(d: Double)
    ensures Magnitude(d) == 0 <==> IsZero(d)
  {
    Fields(d);
    if d / TWO_52 % 0x800 > 0 { TimesByOne(TWO_52 + d % TWO_52, Pow2(d / TWO_52 % 0x800 - 1)); }
  }

  lemma FieldsUnique(e: nat, f: nat, e': nat, f': nat)
    requires e * TWO_52 + f == e' * TWO_52 + f' && f < TWO_52 && f' < TWO_52
    ensures e == e' && f == f'
  {
  }

  lemma SameMagnitude(a: Double, b: Double)
    requires a % TWO_63 == b % TWO_63
    ensures Magnitude(a) == Magnitude(b)
  {
    hide Scaled;
    Fields(a);
    Fields(b);
    FieldsUnique(a / TWO_52 % 0x800, a % TWO_52, b / TWO_52 % 0x800, b % TWO_52);
  }

  lemma SameSign(a: Double, b: Double)
    requires a % TWO_63 == b % TWO_63
    ensures (a < TWO_63 <==> b < TWO_63) ==> a == b
  {
  }

  /** Two values are equal exactly when neither is a NaN and they stand for the same number. */
  lemma EqualIffSameNumber(a: Double, b: Double)
    ensures DoubleEqual(a, b) <==> !IsNaN(a) && !IsNaN(b) && Signed(a) == Signed(b)
  {
    hide Magnitude, IsNaN;
    ZeroMagnitude(a);
    ZeroMagnitude(b);
    if a % TWO_63 < b % TWO_63 {
      MagnitudeGrows(a, b);
    } else if b % TWO_63 < a % TWO_63 {
      MagnitudeGrows(b, a);
    } else {
      SameMagnitude(a, b);
      SameSign(a, b);
    }
  }
}
