/** Numbers shared by the whole model.
  *
  * Doubles are modelled as exact reals. Where the source produces an IEEE special value that its
  * control flow then inspects (an optical depth of +infinity, an apparent brightness 1/0, a flux
  * proportion 0/0), the value is carried by `Double`, which adds +infinity and NaN to the reals
  * with the IEEE rules for the few operations the source applies to them. Negative infinity and
  * signed zeros never arise in the modelled code and are not represented.
  */
module Numerics {

  datatype Option<T> = None | Some(value: T)

  datatype Double = Num(v: real) | PosInf | NaN

  type NonNegReal = r: real | r >= 0.0

  /** IEEE `a > b`: false whenever either side is NaN, and +inf is not greater than itself. */
  predicate Greater(a: Double, b: Double)
  {
    b.Num? && (a.PosInf? || (a.Num? && a.v > b.v))
  }

  /** IEEE addition over the values above. */
  function Plus(a: Double, b: Double): (r: Double)
    ensures a.NaN? || b.NaN? ==> r.NaN?
    ensures a.Num? && b.Num? ==> r == Num(a.v + b.v)
  {
    if a.NaN? || b.NaN? then NaN
    else if a.Num? && b.Num? then Num(a.v + b.v)
    else PosInf
  }

  /** IEEE `num / den` for non-negative operands: 0/0 is NaN and a positive number over 0 is +inf. */
  function Ratio(num: real, den: real): (r: Double)
    requires num >= 0.0 && den >= 0.0
    ensures den > 0.0 <==> r.Num?
    ensures r.Num? ==> r.v * den == num
  {
    if den > 0.0 then Num(num / den) else if num == 0.0 then NaN else PosInf
  }

  /** IEEE `k * d` for a non-negative real `k`: 0 times +inf is NaN. */
  function Times(k: real, d: Double): (r: Double)
    requires k >= 0.0
    ensures d.Num? ==> r == Num(k * d.v)
    ensures d.NaN? ==> r.NaN?
  {
    if d.Num? then Num(k * d.v)
    else if d.PosInf? && k > 0.0 then PosInf
    else NaN
  }

  function Max(a: real, b: real): (m: real)
    ensures m >= a && m >= b && (m == a || m == b)
  {
    if a >= b then a else b
  }

  function Abs(x: real): (r: real)
    ensures r >= 0.0 && (r == x || r == -x)
  {
    if x < 0.0 then -x else x
  }

  /** The value of pi the source writes out as a literal (3.14159265358979d). */
  const Pi: real := 3.14159265358979

  /** The inverse-square flux formula the source writes as
    * `luminosity / (d * d * 4 * pi) * fraction` (or with a squared magnitude for `d * d`). */
  function FluxFormula(luminosity: real, sqrDistance: real, fraction: real): real
    requires sqrDistance > 0.0
  {
    luminosity / (sqrDistance * 4.0 * Pi) * fraction
  }

  lemma {:induction false} ProductPositive(a: real, b: real)
    requires a > 0.0 && b > 0.0
    ensures a * b > 0.0
  {
  }

  lemma {:induction false} SquareMonotone(a: real, b: real)
    requires 0.0 <= a <= b
    ensures a * a <= b * b
  {
    ProductNonNegative(b - a, b + a);
  }

  lemma {:induction false} SquareStrictlyMonotone(a: real, b: real)
    requires 0.0 <= a < b
    ensures a * a < b * b
  {
    ProductPositive(b - a, b + a);
  }

  lemma {:induction false} DivMul(a: real, m: real)
    requires m > 0.0
    ensures (a / m) * m == a
  {
  }

  lemma {:induction false} MulDiv(q: real, m: real)
    requires m > 0.0
    ensures (q * m) / m == q
  {
  }

  /** With `t = dot / m`: `P - 2 t dot + t^2 m == P - dot^2 / m`. */
  lemma {:induction false} CompleteSquare(P: real, dot: real, m: real)
    requires m > 0.0
    ensures P - 2.0 * (dot / m) * dot + (dot / m) * (dot / m) * m == P - dot * dot / m
  {
    var t := dot / m;
    DivMul(dot, m);
    assert t * t * m == t * (t * m);
    assert t * t * m == t * dot;
    DivMul(dot * dot, m);
    assert dot * dot == t * dot * m;
    MulDiv(t * dot, m);
  }

  /** `k * ((k a) / (k (k m))) == a / m` for positive `k` and `m`. */
  lemma {:induction false} ScaledQuotient(a: real, m: real, k: real)
    requires m > 0.0 && k > 0.0
    ensures k * (k * m) > 0.0
    ensures k * ((k * a) / (k * (k * m))) == a / m
  {
    var y := k * m;
    ProductPositive(k, m);
    ProductPositive(k, y);
    var z := k * y;
    var q := a / m;
    DivMul(a, m);
    assert a == q * m;
    assert k * a == q * y;
    assert k * (k * a) == q * z;
    MulDiv(q, z);
    assert k * ((k * a) / z) == (k * (k * a)) / z;
  }

  lemma {:induction false} FluxFormulaNonNegative(luminosity: real, sqrDistance: real, fraction: real)
    requires sqrDistance > 0.0 && luminosity >= 0.0 && fraction >= 0.0
    ensures FluxFormula(luminosity, sqrDistance, fraction) >= 0.0
  {
    var k := sqrDistance * 4.0 * Pi;
    assert k > 0.0;
    var q := luminosity / k;
    assert q >= 0.0;
    ProductNonNegative(q, fraction);
  }

  lemma {:induction false} ProductNonNegative(a: real, b: real)
    requires a >= 0.0 && b >= 0.0
    ensures a * b >= 0.0
  {
    if a > 0.0 && b > 0.0 {
      ProductPositive(a, b);
    }
  }

  /** Doubling the distance (so multiplying the squared distance by four) quarters the flux. */
  lemma {:induction false} InverseSquareLaw(luminosity: real, sqrDistance: real, fraction: real)
    requires sqrDistance > 0.0
    ensures FluxFormula(luminosity, 4.0 * sqrDistance, fraction)
         == FluxFormula(luminosity, sqrDistance, fraction) / 4.0
  {
    var k := sqrDistance * 4.0 * Pi;
    assert k > 0.0;
    assert 4.0 * sqrDistance * 4.0 * Pi == 4.0 * k;
    var q := luminosity / k;
    assert luminosity == q * k;
    assert luminosity / (4.0 * k) == q / 4.0;
    assert q / 4.0 * fraction == (q * fraction) / 4.0;
  }
}
