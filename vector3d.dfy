/** The `Vector3d` operations the core uses, with components modelled as exact reals. */
module Vector3d {
  import opened Numerics

  datatype Vec3 = Vec3(x: real, y: real, z: real)

  const Zero: Vec3 := Vec3(0.0, 0.0, 0.0)

  function Add(a: Vec3, b: Vec3): Vec3 { Vec3(a.x + b.x, a.y + b.y, a.z + b.z) }

  function Sub(a: Vec3, b: Vec3): Vec3 { Vec3(a.x - b.x, a.y - b.y, a.z - b.z) }

  function Neg(a: Vec3): Vec3 { Vec3(-a.x, -a.y, -a.z) }

  function Scale(a: Vec3, k: real): Vec3 { Vec3(a.x * k, a.y * k, a.z * k) }

  function Dot(a: Vec3, b: Vec3): real { a.x * b.x + a.y * b.y + a.z * b.z }

  function SqrMagnitude(a: Vec3): (r: real)
    ensures r >= 0.0
  {
    SquareNonNegative(a.x);
    SquareNonNegative(a.y);
    SquareNonNegative(a.z);
    Dot(a, a)
  }

  lemma {:induction false} SquareNonNegative(t: real)
    ensures t * t >= 0.0
  {
    if t < 0.0 {
      var u := -t;
      assert t * t == u * u;
    }
  }

  /** |p - t d|^2 expands as |p|^2 - 2 t (d.p) + t^2 |d|^2. */
  lemma {:induction false} SqrMagnitudeSubScale(p: Vec3, d: Vec3, t: real)
    ensures SqrMagnitude(Sub(p, Scale(d, t)))
         == SqrMagnitude(p) - 2.0 * t * Dot(d, p) + t * t * SqrMagnitude(d)
  {
    var w := Sub(p, Scale(d, t));
    assert w.x * w.x == p.x * p.x - 2.0 * t * d.x * p.x + t * t * (d.x * d.x);
    assert w.y * w.y == p.y * p.y - 2.0 * t * d.y * p.y + t * t * (d.y * d.y);
    assert w.z * w.z == p.z * p.z - 2.0 * t * d.z * p.z + t * t * (d.z * d.z);
  }

  lemma {:induction false} DotSymmetric(a: Vec3, b: Vec3)
    ensures Dot(a, b) == Dot(b, a)
  {
  }

  lemma {:induction false} SubAddCancel(a: Vec3, b: Vec3)
    ensures Sub(Add(a, b), a) == b
  {
  }

  lemma {:induction false} DotNeg(a: Vec3, b: Vec3)
    ensures Dot(Neg(a), b) == -Dot(a, b)
    ensures Dot(b, Neg(a)) == -Dot(a, b)
    ensures SqrMagnitude(Neg(a)) == SqrMagnitude(a)
  {
  }

  lemma {:induction false} ScaleScale(a: Vec3, k: real, t: real)
    ensures Scale(Scale(a, k), t) == Scale(a, k * t)
  {
    assert a.x * k * t == a.x * (k * t);
    assert a.y * k * t == a.y * (k * t);
    assert a.z * k * t == a.z * (k * t);
  }

  lemma {:induction false} DotScale(a: Vec3, b: Vec3, k: real)
    ensures Dot(Scale(a, k), b) == k * Dot(a, b)
    ensures Dot(b, Scale(a, k)) == k * Dot(a, b)
    ensures SqrMagnitude(Scale(a, k)) == k * (k * SqrMagnitude(a))
  {
  }

  lemma {:induction false} SqrMagnitudeScaleSign(d: Vec3, k: real)
    requires k > 0.0
    ensures SqrMagnitude(d) > 0.0 ==> SqrMagnitude(Scale(d, k)) > 0.0
    ensures SqrMagnitude(d) == 0.0 ==> SqrMagnitude(Scale(d, k)) == 0.0
  {
    var m := SqrMagnitude(d);
    var y := k * m;
    DotScale(d, d, k);
    assert SqrMagnitude(Scale(d, k)) == k * y;
    if m > 0.0 {
      ProductPositive(k, m);
      ProductPositive(k, y);
    }
  }
}
