/** The occlusion and atmospheric-extinction helpers of `ThermoHelper`
  * (src/Kopernicus/Components/KopernicusHeatManager.cs).
  *
  * Square roots are avoided: every comparison of a magnitude with a bound is decided on squares,
  * and `MagnitudeComparisons` shows that this agrees with the comparison of the magnitude itself.
  * The Chapman approximation and the exponential are parameters of the model.
  */
module ThermoHelper {
  import opened Numerics
  import opened Vector3d

  /** The properties of a `CelestialBody` these routines read; `id` stands for the reference,
    * which is what the loops compare with the star. */
  datatype Body = Body(id: nat, position: Vec3, radius: real, atmosphere: bool, atmosphereDepth: real, atmDensityASL: real)

  /** What every celestial body of a loaded system satisfies. */
  predicate WellFormed(b: Body)
  {
    b.radius >= 0.0 && b.atmosphereDepth >= 0.0 && b.atmDensityASL >= 0.0
  }

  predicate AllWellFormed(bodies: seq<Body>)
  {
    forall i :: 0 <= i < |bodies| ==> WellFormed(bodies[i])
  }

  /** The Chapman-function value of the source for a body, an origin and a ray direction
    * (`ApproximateChapmanFunc` together with the local scale height); it is never negative. */
  type Chapman = (Body, Vec3, Vec3) -> NonNegReal

  /** `x => Math.Exp(-x)`. */
  type ExpNeg = real -> real

  /** What the model relies on about `Math.Exp(-x)`: it lies in [0, 1] for every x >= 0. */
  ghost predicate ExpNegBounded(expNeg: ExpNeg)
  {
    forall x :: x >= 0.0 ==> 0.0 <= expNeg(x) <= 1.0
  }

  /** `|v| > bound`, decided on squares. */
  predicate MagnitudeExceeds(v: Vec3, bound: real)
  {
    bound < 0.0 || SqrMagnitude(v) > bound * bound
  }

  /** `|v| < bound`, decided on squares. */
  predicate MagnitudeBelow(v: Vec3, bound: real)
  {
    bound > 0.0 && SqrMagnitude(v) < bound * bound
  }

  /** For any non-negative `m` with `m * m == |v|^2` (that is, `m == |v|`), the two predicates above
    * are exactly the comparisons of `m` with the bound. */
  lemma {:induction false} MagnitudeComparisons(v: Vec3, m: real, bound: real)
    requires m >= 0.0 && m * m == SqrMagnitude(v)
    ensures MagnitudeExceeds(v, bound) <==> m > bound
    ensures MagnitudeBelow(v, bound) <==> m < bound
  {
    if bound >= 0.0 {
      if m > bound {
        SquareStrictlyMonotone(bound, m);
      } else if m < bound {
        SquareStrictlyMonotone(m, bound);
      }
    }
  }

  // ---------------------------------------------------------------- EfficientSphereRaycast

  /** Whether the ray from the origin along `direction` passes strictly within `radius` of
    * `sphereRelPos`. A zero direction makes every component NaN in the source, so the
    * comparison is false. */
  predicate EfficientSphereRaycast(sphereRelPos: Vec3, radius: real, direction: Vec3)
  {
    if SqrMagnitude(direction) == 0.0 then false
    else SqrMagnitude(Sub(sphereRelPos, RayClosestPoint(sphereRelPos, direction))) < radius * radius
  }

  /** The point of the ray closest to `p`: its projection on the ray, clamped to the origin. */
  function RayClosestPoint(p: Vec3, direction: Vec3): Vec3
    requires SqrMagnitude(direction) > 0.0
  {
    Scale(direction, Max(0.0, Dot(direction, p)) / SqrMagnitude(direction))
  }

  /** The squared distance from the sphere centre to the closest point of the ray. */
  function RayClearance(p: Vec3, d: Vec3): real
    requires SqrMagnitude(d) > 0.0
  {
    if Dot(d, p) > 0.0 then SqrMagnitude(p) - Dot(d, p) * Dot(d, p) / SqrMagnitude(d) else SqrMagnitude(p)
  }

  /** The raycast in closed form: behind the origin the clamp reduces it to a test on |p|, in front
    * of it to the perpendicular distance of the centre from the line. */
  lemma {:induction false} RaycastClosedForm(p: Vec3, r: real, d: Vec3)
    requires SqrMagnitude(d) > 0.0
    ensures EfficientSphereRaycast(p, r, d) <==> RayClearance(p, d) < r * r
  {
    if Dot(d, p) > 0.0 {
      ClosedFront(p, d);
    } else {
      ClosedBehind(p, d);
    }
  }

  lemma {:induction false} ClosedFront(p: Vec3, d: Vec3)
    requires SqrMagnitude(d) > 0.0 && Dot(d, p) > 0.0
    ensures SqrMagnitude(Sub(p, RayClosestPoint(p, d))) == SqrMagnitude(p) - Dot(d, p) * Dot(d, p) / SqrMagnitude(d)
  {
    var m := SqrMagnitude(d);
    var dot := Dot(d, p);
    var t := dot / m;
    assert RayClosestPoint(p, d) == Scale(d, t);
    SqrMagnitudeSubScale(p, d, t);
    CompleteSquare(SqrMagnitude(p), dot, m);
  }

  lemma {:induction false} ClosedBehind(p: Vec3, d: Vec3)
    requires SqrMagnitude(d) > 0.0 && Dot(d, p) <= 0.0
    ensures Sub(p, RayClosestPoint(p, d)) == p
  {
    assert RayClosestPoint(p, d) == Scale(d, 0.0);
  }

  /** "Direction of ray (automatically normalized)": scaling the direction by a positive factor
    * does not change the answer. */
  lemma {:induction false} RaycastScaleInvariant(p: Vec3, r: real, d: Vec3, k: real)
    requires k > 0.0
    ensures EfficientSphereRaycast(p, r, Scale(d, k)) == EfficientSphereRaycast(p, r, d)
  {
    SqrMagnitudeScaleSign(d, k);
    if SqrMagnitude(d) > 0.0 {
      ClosestPointScaleInvariant(p, d, k);
    }
  }

  lemma {:induction false} ClosestPointScaleInvariant(p: Vec3, d: Vec3, k: real)
    requires k > 0.0 && SqrMagnitude(d) > 0.0
    ensures SqrMagnitude(Scale(d, k)) > 0.0
    ensures RayClosestPoint(p, Scale(d, k)) == RayClosestPoint(p, d)
  {
    SqrMagnitudeScaleSign(d, k);
    var dk := Scale(d, k);
    var m := SqrMagnitude(d);
    DotScale(d, p, k);
    DotScale(d, d, k);
    var a := Max(0.0, Dot(d, p));
    assert Max(0.0, Dot(dk, p)) == k * a;
    ScaledQuotient(a, m, k);
    var t' := (k * a) / (k * (k * m));
    assert SqrMagnitude(dk) == k * (k * m);
    assert Max(0.0, Dot(dk, p)) / SqrMagnitude(dk) == t';
    assert RayClosestPoint(p, dk) == Scale(dk, t');
    ScaleScale(d, k, t');
    assert k * t' == a / m;
    assert Scale(dk, t') == Scale(d, a / m);
  }

  /** When the centre is not in front of the origin (non-positive dot product) the clamp makes the
    * closest point the origin itself, and the test reduces to |p|^2 < r^2. */
  lemma {:induction false} RaycastBehindOrigin(p: Vec3, r: real, d: Vec3)
    requires SqrMagnitude(d) > 0.0 && Dot(d, p) <= 0.0
    ensures EfficientSphereRaycast(p, r, d) <==> SqrMagnitude(p) < r * r
  {
    RaycastClosedForm(p, r, d);
  }

  /** A ray cast from inside the sphere always hits it, whatever its (non-zero) direction. */
  lemma {:induction false} RaycastFromInside(p: Vec3, r: real, d: Vec3)
    requires SqrMagnitude(d) > 0.0 && SqrMagnitude(p) < r * r
    ensures EfficientSphereRaycast(p, r, d)
  {
    RaycastClosedForm(p, r, d);
    var dot := Dot(d, p);
    if dot > 0.0 {
      ProductPositive(dot, dot);
      assert dot * dot / SqrMagnitude(d) >= 0.0;
    }
  }

  /** The hit test is strict: a ray that grazes the sphere, its closest approach being exactly the
    * radius, does not hit. */
  lemma {:induction false} RaycastGrazingMisses(p: Vec3, r: real, d: Vec3)
    requires SqrMagnitude(d) > 0.0 && RayClearance(p, d) == r * r
    ensures !EfficientSphereRaycast(p, r, d)
  {
    RaycastClosedForm(p, r, d);
  }

  // ---------------------------------------------------------------- AtmosphericOpticalDepth

  /** The optical depth of the atmosphere of `a` along the ray from `originalPos` in `direction`.
    * Without an atmosphere it is 0; a zero direction yields NaN (every quantity of the source is
    * 0/0 there); a line that passes above the top of the atmosphere gives 0; a ray heading into
    * the solid body gives +infinity; otherwise the Chapman value scaled by the sea-level density
    * and 0.05. The closest point here is not clamped to the ray, unlike the raycast's. */
  function AtmosphericOpticalDepth(a: Body, originalPos: Vec3, direction: Vec3, chapman: Chapman): (r: Double)
    ensures !a.atmosphere ==> r == Num(0.0)
    ensures r.NaN? <==> a.atmosphere && SqrMagnitude(direction) == 0.0
    ensures WellFormed(a) ==>
      (r.PosInf? <==> a.atmosphere && Dot(direction, Sub(a.position, originalPos)) > 0.0
                      && EfficientSphereRaycast(Sub(a.position, originalPos), a.radius, direction))
    ensures WellFormed(a) && r.Num? ==> r.v >= 0.0
  {
    var rel := Sub(a.position, originalPos);
    if !a.atmosphere then Num(0.0)
    else if SqrMagnitude(direction) == 0.0 then NaN
    else
      var perp := LineOffset(rel, direction);
      AtmosphereBranches(rel, direction, a.radius, a.atmosphereDepth);
      if MagnitudeExceeds(perp, a.radius + a.atmosphereDepth) then Num(0.0)
      else if MagnitudeBelow(perp, a.radius) && Dot(direction, rel) > 0.0 then PosInf
      else
        var c := chapman(a, originalPos, direction);
        assert WellFormed(a) ==> c * a.atmDensityASL >= 0.0 by {
          if WellFormed(a) {
            ProductNonNegative(c, a.atmDensityASL);
          }
        }
        Num(c * a.atmDensityASL * 0.05)
  }

  /** The offset from the line through the origin along `direction` to `p`
    * (the source's unclamped `closestPos`). */
  function LineOffset(p: Vec3, direction: Vec3): Vec3
    requires SqrMagnitude(direction) > 0.0
  {
    Sub(p, Scale(direction, Dot(direction, p) / SqrMagnitude(direction)))
  }

  /** In front of the origin the line offset is the raycast's; an offset beyond the top of the
    * atmosphere is beyond the surface too. */
  lemma {:induction false} AtmosphereBranches(p: Vec3, direction: Vec3, radius: real, depth: real)
    requires SqrMagnitude(direction) > 0.0
    ensures radius >= 0.0 && Dot(direction, p) > 0.0 ==>
      (EfficientSphereRaycast(p, radius, direction) <==> MagnitudeBelow(LineOffset(p, direction), radius))
    ensures radius >= 0.0 && depth >= 0.0 && MagnitudeExceeds(LineOffset(p, direction), radius + depth) ==>
      !EfficientSphereRaycast(p, radius, direction) || Dot(direction, p) <= 0.0
  {
    var perp := LineOffset(p, direction);
    if Dot(direction, p) > 0.0 {
      assert RayClosestPoint(p, direction) == Scale(direction, Dot(direction, p) / SqrMagnitude(direction));
      assert Sub(p, RayClosestPoint(p, direction)) == perp;
    }
    if radius >= 0.0 && depth >= 0.0 {
      SquareMonotone(radius, radius + depth);
    }
  }

  // ---------------------------------------------------------------- OpticalDepth

  /** A running optical depth above this is reported as +infinity. */
  const SaturationDepth: real := 200.0

  /** `OpticalDepth` for `star` at `pos` skips body `i` when it is the star itself, when it is
    * farther from the star than the point (unless the point lies within its atmosphere), or when
    * it is behind the star. */
  predicate DepthSkips(bodies: seq<Body>, i: nat, pos: Vec3, star: Body)
    requires i < |bodies|
  {
    var c := bodies[i];
    var delta := Sub(pos, star.position);
    var planetDel := Sub(c.position, star.position);
    c.id == star.id
    || ((!c.atmosphere || MagnitudeExceeds(Sub(c.position, pos), c.radius + c.atmosphereDepth))
        && SqrMagnitude(planetDel) > SqrMagnitude(delta))
    || Dot(planetDel, delta) < 0.0
  }

  /** What body `i` adds to the running depth: nothing when skipped, otherwise the depth of its
    * atmosphere along the ray from the point towards the star. */
  function DepthContribution(bodies: seq<Body>, i: nat, pos: Vec3, star: Body, chapman: Chapman): Double
    requires i < |bodies|
  {
    if DepthSkips(bodies, i, pos, star) then Num(0.0)
    else AtmosphericOpticalDepth(bodies[i], pos, Neg(Sub(pos, star.position)), chapman)
  }

  /** The contribution of every body, in order. */
  function Contributions(bodies: seq<Body>, pos: Vec3, star: Body, chapman: Chapman): (ds: seq<Double>)
    ensures |ds| == |bodies|
    ensures forall i :: 0 <= i < |bodies| ==> ds[i] == DepthContribution(bodies, i, pos, star, chapman)
  {
    seq(|bodies|, i requires 0 <= i < |bodies| => DepthContribution(bodies, i, pos, star, chapman))
  }

  /** The running depth after the first `k` contributions. */
  function RunningDepth(ds: seq<Double>, k: nat): Double
    requires k <= |ds|
  {
    if k == 0 then Num(0.0) else Plus(RunningDepth(ds, k - 1), ds[k - 1])
  }

  /** Some running depth among the first `k` exceeds the saturation threshold. */
  predicate SaturatedWithin(ds: seq<Double>, k: nat)
    requires k <= |ds|
  {
    k > 0 && (SaturatedWithin(ds, k - 1) || Greater(RunningDepth(ds, k), Num(SaturationDepth)))
  }

  lemma {:induction false} SaturatedWithinMeans(ds: seq<Double>, n: nat)
    requires n <= |ds|
    ensures SaturatedWithin(ds, n) <==>
      exists k :: 1 <= k <= n && Greater(RunningDepth(ds, k), Num(SaturationDepth))
  {
    if n > 0 {
      SaturatedWithinMeans(ds, n - 1);
      if Greater(RunningDepth(ds, n), Num(SaturationDepth)) {
        assert SaturatedWithin(ds, n);
        assert exists k :: 1 <= k <= n && Greater(RunningDepth(ds, k), Num(SaturationDepth));
      }
    }
  }

  lemma {:induction false} SaturationPersists(ds: seq<Double>, k: nat, n: nat)
    requires k <= n <= |ds| && SaturatedWithin(ds, k)
    ensures SaturatedWithin(ds, n)
    decreases n
  {
    if k < n {
      SaturationPersists(ds, k, n - 1);
    }
  }

  /** The optical depth between `star` and `pos`: +infinity once the running depth exceeds the
    * threshold, otherwise the whole sum. */
  function OpticalDepthOf(bodies: seq<Body>, pos: Vec3, star: Body, chapman: Chapman): Double
  {
    var ds := Contributions(bodies, pos, star, chapman);
    if SaturatedWithin(ds, |ds|) then PosInf else RunningDepth(ds, |ds|)
  }

  method OpticalDepth(bodies: seq<Body>, worldSpacePos: Vec3, star: Body, chapman: Chapman) returns (d: Double)
    ensures d == OpticalDepthOf(bodies, worldSpacePos, star, chapman)
  {
    ghost var ds := Contributions(bodies, worldSpacePos, star, chapman);
    var finalResult := Num(0.0);
    var delta := Sub(worldSpacePos, star.position);
    for i := 0 to |bodies|
      invariant finalResult == RunningDepth(ds, i)
      invariant !SaturatedWithin(ds, i)
    {
      var c := bodies[i];
      if c.id == star.id {
        SkippedContribution(ds, i);
        continue;
      }
      var planetDel := Sub(c.position, star.position);
      if !c.atmosphere || MagnitudeExceeds(Sub(c.position, worldSpacePos), c.radius + c.atmosphereDepth) {
        if SqrMagnitude(planetDel) > SqrMagnitude(delta) {
          SkippedContribution(ds, i);
          continue;
        }
      }
      if Dot(planetDel, delta) < 0.0 {
        SkippedContribution(ds, i);
        continue;
      }
      assert !DepthSkips(bodies, i, worldSpacePos, star);
      finalResult := Plus(finalResult, AtmosphericOpticalDepth(c, worldSpacePos, Neg(delta), chapman));
      assert finalResult == RunningDepth(ds, i + 1);
      if Greater(finalResult, Num(SaturationDepth)) {
        SaturationPersists(ds, i + 1, |ds|);
        return PosInf;
      }
    }
    return finalResult;
  }

  /** A zero contribution leaves the running depth, and whether it has saturated, as they were. */
  lemma {:induction false} SkippedContribution(ds: seq<Double>, i: nat)
    requires i < |ds| && ds[i] == Num(0.0)
    ensures RunningDepth(ds, i + 1) == RunningDepth(ds, i)
    ensures SaturatedWithin(ds, i + 1) == SaturatedWithin(ds, i)
  {
    var x := RunningDepth(ds, i);
    assert Plus(x, Num(0.0)) == x;
    assert RunningDepth(ds, i + 1) == x;
  }

  /** `a` is not above `b` in the order 0 <= x <= +infinity of non-NaN depths. */
  predicate AtMost(a: Double, b: Double)
  {
    b.PosInf? || (a.Num? && b.Num? && a.v <= b.v)
  }

  /** A depth as the source can produce it away from the star's centre: +infinity or a
    * non-negative number. */
  predicate ProperDepth(d: Double)
  {
    d.PosInf? || (d.Num? && d.v >= 0.0)
  }

  lemma {:induction false} ContributionProper(bodies: seq<Body>, i: nat, pos: Vec3, star: Body, chapman: Chapman)
    requires i < |bodies| && AllWellFormed(bodies) && SqrMagnitude(Sub(pos, star.position)) > 0.0
    ensures ProperDepth(DepthContribution(bodies, i, pos, star, chapman))
  {
    DotNeg(Sub(pos, star.position), Sub(pos, star.position));
    assert WellFormed(bodies[i]);
  }

  /** Running depths of proper contributions are proper and never decrease. */
  lemma {:induction false} RunningDepthMonotone(ds: seq<Double>, k: nat, n: nat)
    requires k <= n <= |ds| && forall i :: 0 <= i < |ds| ==> ProperDepth(ds[i])
    ensures ProperDepth(RunningDepth(ds, n))
    ensures AtMost(RunningDepth(ds, k), RunningDepth(ds, n))
    decreases n
  {
    if n == 0 {
    } else if k == n {
      RunningDepthMonotone(ds, k - 1, n - 1);
    } else {
      RunningDepthMonotone(ds, k, n - 1);
    }
  }

  /** Away from the star's centre the early exit changes nothing: the result is the whole sum,
    * saturated to +infinity above the threshold, so it is +infinity or a depth in [0, 200]. */
  lemma {:induction false} OpticalDepthSaturation(bodies: seq<Body>, pos: Vec3, star: Body, chapman: Chapman)
    requires AllWellFormed(bodies) && SqrMagnitude(Sub(pos, star.position)) > 0.0
    ensures var total := RunningDepth(Contributions(bodies, pos, star, chapman), |bodies|);
      OpticalDepthOf(bodies, pos, star, chapman) == (if Greater(total, Num(SaturationDepth)) then PosInf else total)
    ensures var d := OpticalDepthOf(bodies, pos, star, chapman);
      d.PosInf? || (d.Num? && 0.0 <= d.v <= SaturationDepth)
  {
    var ds := Contributions(bodies, pos, star, chapman);
    var n := |ds|;
    forall i | 0 <= i < n
      ensures ProperDepth(ds[i])
    {
      ContributionProper(bodies, i, pos, star, chapman);
    }
    RunningDepthMonotone(ds, n, n);
    SaturatedWithinMeans(ds, n);
    if SaturatedWithin(ds, n) {
      var k :| 1 <= k <= n && Greater(RunningDepth(ds, k), Num(SaturationDepth));
      RunningDepthMonotone(ds, k, n);
    }
    if Greater(RunningDepth(ds, n), Num(SaturationDepth)) {
      assert n != 0;
    }
  }

  lemma {:induction false} RunningDepthOfZeros(ds: seq<Double>, k: nat)
    requires k <= |ds| && forall i :: 0 <= i < |ds| ==> ds[i] == Num(0.0)
    ensures RunningDepth(ds, k) == Num(0.0)
    ensures !SaturatedWithin(ds, k)
  {
    if k > 0 {
      RunningDepthOfZeros(ds, k - 1);
      var x := RunningDepth(ds, k - 1);
      assert ds[k - 1] == Num(0.0);
      assert RunningDepth(ds, k) == Plus(x, Num(0.0));
    }
  }

  /** Bodies without an atmosphere never add optical depth, even those whose solid surface lies
    * between the point and the star. */
  lemma {:induction false} OpticalDepthWithoutAtmospheres(bodies: seq<Body>, pos: Vec3, star: Body, chapman: Chapman)
    requires forall i :: 0 <= i < |bodies| ==> !bodies[i].atmosphere
    ensures OpticalDepthOf(bodies, pos, star, chapman) == Num(0.0)
  {
    var ds := Contributions(bodies, pos, star, chapman);
    RunningDepthOfZeros(ds, |ds|);
  }

  // ---------------------------------------------------------------- DirectSunlight

  /** `DirectSunlight` does not test the star itself, a body farther from the star than the point,
    * or a body behind the star. */
  predicate SunlightSkips(bodies: seq<Body>, i: nat, pos: Vec3, star: Body)
    requires i < |bodies|
  {
    var c := bodies[i];
    var delta := Sub(pos, star.position);
    var planetDel := Sub(c.position, star.position);
    c.id == star.id || SqrMagnitude(planetDel) > SqrMagnitude(delta) || Dot(planetDel, delta) < 0.0
  }

  /** Body `i` ends `DirectSunlight` as written: it is tested, and the raycast from the star along
    * `-delta`, that is away from the point, hits it. */
  predicate OccludesAsWritten(bodies: seq<Body>, i: nat, pos: Vec3, star: Body)
    requires i < |bodies|
  {
    var delta := Sub(pos, star.position);
    !SunlightSkips(bodies, i, pos, star)
    && EfficientSphereRaycast(Sub(bodies[i].position, star.position), bodies[i].radius, Neg(delta))
  }

  method DirectSunlight(bodies: seq<Body>, worldSpacePos: Vec3, star: Body) returns (lit: bool)
    ensures lit <==> forall i :: 0 <= i < |bodies| ==> !OccludesAsWritten(bodies, i, worldSpacePos, star)
  {
    var delta := Sub(worldSpacePos, star.position);
    for i := 0 to |bodies|
      invariant forall k :: 0 <= k < i ==> !OccludesAsWritten(bodies, k, worldSpacePos, star)
    {
      var c := bodies[i];
      if c.id == star.id {
        continue;
      }
      var planetDel := Sub(c.position, star.position);
      if SqrMagnitude(planetDel) > SqrMagnitude(delta) {
        continue;
      }
      if Dot(planetDel, delta) < 0.0 {
        continue;
      }
      if EfficientSphereRaycast(planetDel, c.radius, Neg(delta)) {
        assert OccludesAsWritten(bodies, i, worldSpacePos, star);
        return false;
      }
    }
    return true;
  }

  /** Every tested body has a non-negative dot product with `delta`, so the ray along `-delta`
    * points away from it: a body occludes exactly when the star's centre lies strictly inside it. */
  lemma {:induction false} OcclusionAsWrittenMeansStarInside(bodies: seq<Body>, i: nat, pos: Vec3, star: Body)
    requires i < |bodies|
    ensures OccludesAsWritten(bodies, i, pos, star) <==>
      !SunlightSkips(bodies, i, pos, star) && SqrMagnitude(Sub(pos, star.position)) > 0.0
      && SqrMagnitude(Sub(bodies[i].position, star.position)) < bodies[i].radius * bodies[i].radius
  {
    var delta := Sub(pos, star.position);
    var planetDel := Sub(bodies[i].position, star.position);
    DotNeg(delta, planetDel);
    DotSymmetric(delta, planetDel);
    if SqrMagnitude(delta) > 0.0 && !SunlightSkips(bodies, i, pos, star) {
      RaycastBehindOrigin(planetDel, bodies[i].radius, Neg(delta));
    }
  }

  /** Body `i` blocks the star as the comments of `DirectSunlight` describe: it is tested, and the
    * ray from the star towards the point, along `delta`, hits it. */
  predicate OccludesIntended(bodies: seq<Body>, i: nat, pos: Vec3, star: Body)
    requires i < |bodies|
  {
    var delta := Sub(pos, star.position);
    !SunlightSkips(bodies, i, pos, star)
    && EfficientSphereRaycast(Sub(bodies[i].position, star.position), bodies[i].radius, delta)
  }

  /** `DirectSunlight` with the ray cast towards the point. */
  predicate DirectSunlightIntended(bodies: seq<Body>, pos: Vec3, star: Body)
  {
    forall i :: 0 <= i < |bodies| ==> !OccludesIntended(bodies, i, pos, star)
  }

  /** A body of positive radius centred on the segment from the star to the point (at fraction
    * `t` of the way, so that `planetDel == t * delta`) blocks the star in the intended test; in the test as written it blocks only
    * if the star's centre is inside it. */
  lemma {:induction false} BodyOnSegment(bodies: seq<Body>, i: nat, pos: Vec3, star: Body, t: real)
    requires i < |bodies| && bodies[i].id != star.id && bodies[i].radius > 0.0
    requires SqrMagnitude(Sub(pos, star.position)) > 0.0 && 0.0 < t <= 1.0
    requires Sub(bodies[i].position, star.position) == Scale(Sub(pos, star.position), t)
    ensures OccludesIntended(bodies, i, pos, star)
    ensures OccludesAsWritten(bodies, i, pos, star) <==>
      SqrMagnitude(Sub(bodies[i].position, star.position)) < bodies[i].radius * bodies[i].radius
  {
    var delta := Sub(pos, star.position);
    var planetDel := Sub(bodies[i].position, star.position);
    var r := bodies[i].radius;
    PointOnSegment(delta, t);
    assert !SunlightSkips(bodies, i, pos, star);
    assert RayClearance(planetDel, delta) == 0.0;
    SquareStrictlyMonotone(0.0, r);
    assert RayClearance(planetDel, delta) < r * r;
    RaycastClosedForm(planetDel, r, delta);
    assert EfficientSphereRaycast(planetDel, r, delta);
    assert OccludesIntended(bodies, i, pos, star);
    OcclusionAsWrittenMeansStarInside(bodies, i, pos, star);
  }

  /** A point at fraction `t` of `d` is no farther than `d`, in front of the origin along `d`, and
    * on the line along `d`. */
  lemma {:induction false} PointOnSegment(d: Vec3, t: real)
    requires SqrMagnitude(d) > 0.0 && 0.0 < t <= 1.0
    ensures SqrMagnitude(Scale(d, t)) <= SqrMagnitude(d)
    ensures Dot(Scale(d, t), d) > 0.0
    ensures RayClearance(Scale(d, t), d) == 0.0
  {
    var m := SqrMagnitude(d);
    var p := Scale(d, t);
    DotScale(d, d, t);
    var tm := t * m;
    assert Dot(p, d) == tm;
    assert SqrMagnitude(p) == t * tm;
    ProductPositive(t, m);
    ProductNonNegative(1.0 - t, m);
    assert (1.0 - t) * m == m - tm;
    ProductNonNegative(1.0 - t, tm);
    assert (1.0 - t) * tm == tm - t * tm;
    DotSymmetric(d, p);
    assert tm * tm == (t * tm) * m;
    MulDiv(t * tm, m);
  }

  /** A sun at (1, 2, 3), a planet of radius 1 at (3, 4, 5) and a point at (5, 6, 7) directly behind
    * it: the planet hides the sun, yet no body occludes it in the test as written. */
  lemma {:induction false} DirectSunlightMissesEclipse(sun: Body, planet: Body, pos: Vec3)
    requires sun == Body(0, Vec3(1.0, 2.0, 3.0), 0.5, false, 0.0, 0.0)
    requires planet == Body(1, Vec3(3.0, 4.0, 5.0), 1.0, false, 0.0, 0.0)
    requires pos == Vec3(5.0, 6.0, 7.0)
    ensures forall i :: 0 <= i < 2 ==> !OccludesAsWritten([sun, planet], i, pos, sun)
    ensures !DirectSunlightIntended([sun, planet], pos, sun)
  {
    EclipsePlanet(sun, planet, pos);
    assert SunlightSkips([sun, planet], 0, pos, sun);
  }

  lemma {:induction false} EclipsePlanet(sun: Body, planet: Body, pos: Vec3)
    requires sun == Body(0, Vec3(1.0, 2.0, 3.0), 0.5, false, 0.0, 0.0)
    requires planet == Body(1, Vec3(3.0, 4.0, 5.0), 1.0, false, 0.0, 0.0)
    requires pos == Vec3(5.0, 6.0, 7.0)
    ensures !OccludesAsWritten([sun, planet], 1, pos, sun)
    ensures OccludesIntended([sun, planet], 1, pos, sun)
  {
    var bodies := [sun, planet];
    EclipseArithmetic(sun, planet, pos);
    assert bodies[1] == planet;
    BodyOnSegment(bodies, 1, pos, sun, 0.5);
    assert SqrMagnitude(Sub(bodies[1].position, sun.position)) == 12.0;
    StarOutsideNeverOccludes(bodies, 1, pos, sun, 2.0);
  }

  /** In the test as written, a body that does not contain the star's centre (its radius is at
    * most some `bound` whose square does not exceed the squared distance) never occludes. */
  lemma {:induction false} StarOutsideNeverOccludes(bodies: seq<Body>, i: nat, pos: Vec3, star: Body, bound: real)
    requires i < |bodies| && 0.0 <= bodies[i].radius <= bound
    requires bound * bound <= SqrMagnitude(Sub(bodies[i].position, star.position))
    ensures !OccludesAsWritten(bodies, i, pos, star)
  {
    SquareMonotone(bodies[i].radius, bound);
    OcclusionAsWrittenMeansStarInside(bodies, i, pos, star);
  }

  lemma {:induction false} EclipseArithmetic(sun: Body, planet: Body, pos: Vec3)
    requires sun == Body(0, Vec3(1.0, 2.0, 3.0), 0.5, false, 0.0, 0.0)
    requires planet == Body(1, Vec3(3.0, 4.0, 5.0), 1.0, false, 0.0, 0.0)
    requires pos == Vec3(5.0, 6.0, 7.0)
    ensures Sub(planet.position, sun.position) == Scale(Sub(pos, sun.position), 0.5)
    ensures SqrMagnitude(Sub(pos, sun.position)) == 48.0
    ensures SqrMagnitude(Sub(planet.position, sun.position)) == 12.0
  {
    assert Sub(pos, sun.position) == Vec3(4.0, 4.0, 4.0);
    assert Sub(planet.position, sun.position) == Vec3(2.0, 2.0, 2.0);
  }

  // ---------------------------------------------------------------- SunlightPercentage, FluxAt

  /** `Math.Exp(-depth)` over the values an optical depth can take: +infinity gives 0, NaN stays NaN. */
  function Transmittance(depth: Double, expNeg: ExpNeg): (r: Double)
    ensures depth.PosInf? ==> r == Num(0.0)
    ensures depth.NaN? <==> r.NaN?
    ensures depth.Num? ==> r == Num(expNeg(depth.v))
  {
    if depth.PosInf? then Num(0.0) else if depth.NaN? then NaN else Num(expNeg(depth.v))
  }

  /** The fraction of the star's light reaching `pos`. */
  function SunlightPercentage(bodies: seq<Body>, pos: Vec3, star: Body, chapman: Chapman, expNeg: ExpNeg): Double
  {
    Transmittance(OpticalDepthOf(bodies, pos, star, chapman), expNeg)
  }

  /** Away from the star's centre the fraction is a number in [0, 1], and exactly 0 once the total
    * depth exceeds the saturation threshold. */
  lemma {:induction false} SunlightPercentageRange(bodies: seq<Body>, pos: Vec3, star: Body, chapman: Chapman, expNeg: ExpNeg)
    requires AllWellFormed(bodies) && SqrMagnitude(Sub(pos, star.position)) > 0.0 && ExpNegBounded(expNeg)
    ensures var r := SunlightPercentage(bodies, pos, star, chapman, expNeg);
      r.Num? && 0.0 <= r.v <= 1.0
    ensures Greater(RunningDepth(Contributions(bodies, pos, star, chapman), |bodies|), Num(SaturationDepth)) ==>
      SunlightPercentage(bodies, pos, star, chapman, expNeg) == Num(0.0)
  {
    OpticalDepthSaturation(bodies, pos, star, chapman);
  }

  /** The flux from the first `k` stars at `pos`, each inverse-square term weighted by the
    * fraction of its light that gets through. */
  function FluxSum(stars: seq<Body>, k: nat, bodies: seq<Body>, pos: Vec3, luminosity: real,
                   chapman: Chapman, expNeg: ExpNeg): real
    requires k <= |stars| && AllWellFormed(bodies) && ExpNegBounded(expNeg)
    requires forall j :: 0 <= j < |stars| ==> SqrMagnitude(Sub(pos, stars[j].position)) > 0.0
  {
    if k == 0 then 0.0
    else
      var s := stars[k - 1];
      SunlightPercentageRange(bodies, pos, s, chapman, expNeg);
      FluxSum(stars, k - 1, bodies, pos, luminosity, chapman, expNeg)
      + FluxFormula(luminosity, SqrMagnitude(Sub(pos, s.position)), SunlightPercentage(bodies, pos, s, chapman, expNeg).v)
  }

  method FluxAt(stars: seq<Body>, bodies: seq<Body>, worldSpace: Vec3, luminosity: real,
                chapman: Chapman, expNeg: ExpNeg) returns (totalFlux: real)
    requires AllWellFormed(bodies) && ExpNegBounded(expNeg)
    requires forall j :: 0 <= j < |stars| ==> SqrMagnitude(Sub(worldSpace, stars[j].position)) > 0.0
    ensures totalFlux == FluxSum(stars, |stars|, bodies, worldSpace, luminosity, chapman, expNeg)
  {
    totalFlux := 0.0;
    for j := 0 to |stars|
      invariant totalFlux == FluxSum(stars, j, bodies, worldSpace, luminosity, chapman, expNeg)
    {
      var sunPosition := stars[j].position;
      var depth := OpticalDepth(bodies, worldSpace, stars[j], chapman);
      SunlightPercentageRange(bodies, worldSpace, stars[j], chapman, expNeg);
      var percentage := Transmittance(depth, expNeg);
      totalFlux := totalFlux + FluxFormula(luminosity, SqrMagnitude(Sub(worldSpace, sunPosition)), percentage.v);
    }
  }

  /** The flux is never negative for a non-negative luminosity. */
  lemma {:induction false} FluxSumNonNegative(stars: seq<Body>, k: nat, bodies: seq<Body>, pos: Vec3, luminosity: real,
                                              chapman: Chapman, expNeg: ExpNeg)
    requires k <= |stars| && AllWellFormed(bodies) && ExpNegBounded(expNeg) && luminosity >= 0.0
    requires forall j :: 0 <= j < |stars| ==> SqrMagnitude(Sub(pos, stars[j].position)) > 0.0
    ensures FluxSum(stars, k, bodies, pos, luminosity, chapman, expNeg) >= 0.0
  {
    if k > 0 {
      var s := stars[k - 1];
      FluxSumNonNegative(stars, k - 1, bodies, pos, luminosity, chapman, expNeg);
      SunlightPercentageRange(bodies, pos, s, chapman, expNeg);
      FluxFormulaNonNegative(luminosity, SqrMagnitude(Sub(pos, s.position)),
                             SunlightPercentage(bodies, pos, s, chapman, expNeg).v);
    }
  }

  /** The unobstructed inverse-square flux of the first `k` stars. */
  function InverseSquareFlux(stars: seq<Body>, k: nat, pos: Vec3, luminosity: real): real
    requires k <= |stars|
    requires forall j :: 0 <= j < |stars| ==> SqrMagnitude(Sub(pos, stars[j].position)) > 0.0
  {
    if k == 0 then 0.0
    else InverseSquareFlux(stars, k - 1, pos, luminosity)
         + FluxFormula(luminosity, SqrMagnitude(Sub(pos, stars[k - 1].position)), 1.0)
  }

  /** In a system without atmospheres (and with exp(-0) = 1) nothing dims the light: the flux is
    * the plain inverse-square sum, even where a planet stands between the point and a star. */
  lemma {:induction false} FluxWithoutAtmospheres(stars: seq<Body>, k: nat, bodies: seq<Body>, pos: Vec3, luminosity: real,
                                                  chapman: Chapman, expNeg: ExpNeg)
    requires k <= |stars| && AllWellFormed(bodies) && ExpNegBounded(expNeg) && expNeg(0.0) == 1.0
    requires forall j :: 0 <= j < |stars| ==> SqrMagnitude(Sub(pos, stars[j].position)) > 0.0
    requires forall i :: 0 <= i < |bodies| ==> !bodies[i].atmosphere
    ensures FluxSum(stars, k, bodies, pos, luminosity, chapman, expNeg) == InverseSquareFlux(stars, k, pos, luminosity)
  {
    if k > 0 {
      FluxWithoutAtmospheres(stars, k - 1, bodies, pos, luminosity, chapman, expNeg);
      OpticalDepthWithoutAtmospheres(bodies, pos, stars[k - 1], chapman);
    }
  }
}
