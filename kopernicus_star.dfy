/** Star selection, the walks up the reference-body chain and the per-star solar flux of
  * `KopernicusStar` (src/Kopernicus/Components/KopernicusStar.cs). */
module KopernicusStar {
  import opened Numerics
  import opened Vector3d
  import opened ThermoHelper

  /** The properties of a `KopernicusStar` (and its `LightShifter`) these routines read. */
  datatype Star = Star(name: string, sun: Body, givesOffLight: bool, solarLuminosity: real, solarInsolation: real)

  // ---------------------------------------------------------------- GetBrightest

  predicate Eligible(s: Star)
  {
    s.givesOffLight && s.solarLuminosity > 0.0
  }

  /** `solarLuminosity * (1 / distanceSq)` for an eligible star, 0 otherwise; a body at the star's
    * centre sees +infinity. */
  function ApparentLuminosity(s: Star, bodyPosition: Vec3): (r: Double)
    ensures r.PosInf? || (r.Num? && r.v >= 0.0)
    ensures !Eligible(s) ==> r == Num(0.0)
    ensures Eligible(s) ==> Greater(r, Num(0.0))
  {
    if Eligible(s) then
      var distanceSq := SqrMagnitude(Sub(bodyPosition, s.sun.position));
      var inverse := Ratio(1.0, distanceSq);
      if inverse.Num? then
        ProductPositive(s.solarLuminosity, inverse.v);
        Times(s.solarLuminosity, inverse)
      else Times(s.solarLuminosity, inverse)
    else Num(0.0)
  }

  /** The index of the star that looks brightest from `bodyPosition`: the first eligible star
    * whose apparent luminosity no other star exceeds; none when no star is eligible. */
  method GetBrightest(stars: seq<Star>, bodyPosition: Vec3) returns (brightest: Option<nat>)
    ensures brightest.None? <==> forall i :: 0 <= i < |stars| ==> !Eligible(stars[i])
    ensures brightest.Some? ==>
      var b := brightest.value;
      b < |stars| && Eligible(stars[b])
      && (forall j :: 0 <= j < |stars| ==>
            !Greater(ApparentLuminosity(stars[j], bodyPosition), ApparentLuminosity(stars[b], bodyPosition)))
      && (forall j :: 0 <= j < b ==>
            Greater(ApparentLuminosity(stars[b], bodyPosition), ApparentLuminosity(stars[j], bodyPosition)))
  {
    var greatestLuminosity := Num(0.0);
    brightest := None;
    for i := 0 to |stars|
      invariant brightest.None? ==> greatestLuminosity == Num(0.0)
      invariant brightest.None? ==> forall j :: 0 <= j < i ==> !Eligible(stars[j])
      invariant brightest.Some? ==>
        brightest.value < i && Eligible(stars[brightest.value])
        && greatestLuminosity == ApparentLuminosity(stars[brightest.value], bodyPosition)
        && forall j :: 0 <= j < brightest.value ==>
             Greater(greatestLuminosity, ApparentLuminosity(stars[j], bodyPosition))
      invariant forall j :: 0 <= j < i ==> !Greater(ApparentLuminosity(stars[j], bodyPosition), greatestLuminosity)
    {
      var aparentLuminosity := ApparentLuminosity(stars[i], bodyPosition);
      if Greater(aparentLuminosity, greatestLuminosity) {
        greatestLuminosity := aparentLuminosity;
        brightest := Some(i);
      }
    }
  }

  // ---------------------------------------------------------------- Walks up the hierarchy

  /** The reference-body chain: `parent[b]` is the body `b` orbits (absent: none); `rank` strictly
    * decreases towards the root, which is what makes the walks end; `bodies0` is
    * `FlightGlobals.Bodies[0]`, the root of the system. */
  datatype Hierarchy = Hierarchy(parent: map<nat, nat>, rank: map<nat, nat>, stars: set<nat>, bodies0: nat)

  predicate ValidHierarchy(h: Hierarchy)
  {
    forall b :: b in h.parent ==> b in h.rank && h.parent[b] in h.rank && h.rank[h.parent[b]] < h.rank[b]
  }

  /** The three walks stop at a different test. */
  datatype Walk = LocalStar | LocalPlanet | NearestOverRoot

  /** Whether `walk` stops at `b`, which has a parent: at a star; at a body orbiting a star; at a
    * body orbiting the root. */
  predicate StopsAt(h: Hierarchy, walk: Walk, b: nat)
    requires b in h.parent
  {
    match walk
    case LocalStar => b in h.stars
    case LocalPlanet => h.parent[b] in h.stars
    case NearestOverRoot => h.parent[b] == h.bodies0
  }

  /** Where `walk` started at `b` ends: the first body up the chain at which it stops, or the top
    * of the chain. */
  function Climb(h: Hierarchy, walk: Walk, b: nat): nat
    requires ValidHierarchy(h) && (b in h.parent ==> b in h.rank)
    decreases if b in h.rank then h.rank[b] else 0
  {
    if b !in h.parent || StopsAt(h, walk, b) then b else Climb(h, walk, h.parent[b])
  }

  /** `a` is `b` or lies up the chain from `b`. */
  predicate AncestorOrSelf(h: Hierarchy, a: nat, b: nat)
    requires ValidHierarchy(h) && (b in h.parent ==> b in h.rank)
    decreases if b in h.rank then h.rank[b] else 0
  {
    a == b || (b in h.parent && AncestorOrSelf(h, a, h.parent[b]))
  }

  /** Every body strictly below `a` on the chain from `b` is passed over by `walk`. */
  predicate PassedOver(h: Hierarchy, walk: Walk, a: nat, b: nat)
    requires ValidHierarchy(h) && (b in h.parent ==> b in h.rank)
    decreases if b in h.rank then h.rank[b] else 0
  {
    a == b || (b in h.parent && !StopsAt(h, walk, b) && PassedOver(h, walk, a, h.parent[b]))
  }

  /** The walk ends at an ancestor-or-self where it stops or that has no parent, having passed
    * over every body before it. */
  lemma {:induction false} ClimbMeaning(h: Hierarchy, walk: Walk, b: nat)
    requires ValidHierarchy(h) && (b in h.parent ==> b in h.rank)
    ensures var r := Climb(h, walk, b);
      AncestorOrSelf(h, r, b) && PassedOver(h, walk, r, b) && (r !in h.parent || StopsAt(h, walk, r))
    decreases if b in h.rank then h.rank[b] else 0
  {
    if b in h.parent && !StopsAt(h, walk, b) {
      ClimbMeaning(h, walk, h.parent[b]);
    }
  }

  /** The loop shared by the three walks. */
  method WalkUp(h: Hierarchy, walk: Walk, start: Option<nat>) returns (r: Option<nat>)
    requires ValidHierarchy(h) && (start.Some? && start.value in h.parent ==> start.value in h.rank)
    ensures start.None? ==> r.None?
    ensures start.Some? ==> r == Some(Climb(h, walk, start.value))
  {
    if start.None? {
      return None;
    }
    var body := start.value;
    while body in h.parent
      invariant body in h.parent ==> body in h.rank
      invariant Climb(h, walk, body) == Climb(h, walk, start.value)
      decreases if body in h.rank then h.rank[body] else 0
    {
      if StopsAt(h, walk, body) {
        break;
      }
      body := h.parent[body];
    }
    return Some(body);
  }

  /** The host star of `body`: the first star up its chain, or the top of the chain. */
  method GetLocalStar(h: Hierarchy, body: Option<nat>) returns (r: Option<nat>)
    requires ValidHierarchy(h) && (body.Some? && body.value in h.parent ==> body.value in h.rank)
    ensures body.None? <==> r.None?
    ensures body.Some? ==>
      AncestorOrSelf(h, r.value, body.value)
      && (r.value in h.stars || r.value !in h.parent)
      && PassedOver(h, LocalStar, r.value, body.value)
    ensures body.Some? && body.value in h.stars ==> r == body
  {
    r := WalkUp(h, LocalStar, body);
    if body.Some? {
      ClimbMeaning(h, LocalStar, body.value);
    }
  }

  /** The planet of `body` directly orbiting a star, or the top of the chain. */
  method GetLocalPlanet(h: Hierarchy, body: Option<nat>) returns (r: Option<nat>)
    requires ValidHierarchy(h) && (body.Some? && body.value in h.parent ==> body.value in h.rank)
    ensures body.None? <==> r.None?
    ensures body.Some? ==>
      AncestorOrSelf(h, r.value, body.value)
      && (r.value !in h.parent || h.parent[r.value] in h.stars)
      && PassedOver(h, LocalPlanet, r.value, body.value)
  {
    r := WalkUp(h, LocalPlanet, body);
    if body.Some? {
      ClimbMeaning(h, LocalPlanet, body.value);
    }
  }

  /** The body of `body`'s chain directly orbiting the root, or the top of the chain. */
  method GetNearestBodyOverSystenRoot(h: Hierarchy, body: Option<nat>) returns (r: Option<nat>)
    requires ValidHierarchy(h) && (body.Some? && body.value in h.parent ==> body.value in h.rank)
    ensures body.None? <==> r.None?
    ensures body.Some? ==>
      AncestorOrSelf(h, r.value, body.value)
      && (r.value !in h.parent || h.parent[r.value] == h.bodies0)
      && PassedOver(h, NearestOverRoot, r.value, body.value)
  {
    r := WalkUp(h, NearestOverRoot, body);
    if body.Some? {
      ClimbMeaning(h, NearestOverRoot, body.value);
    }
  }

  // ---------------------------------------------------------------- Flux

  /** What `Physics.Raycast` along the sun vector (in scaled space) finds: nothing; the scaled
    * body of the star itself at `distance`; some other body; or an exception on the way. */
  datatype Sight = Clear | HitStar(distance: real) | HitOther | Throws

  /** The vessel as `Flux` reads it: whether it is DEAD, `GetWorldPos3D()`, and what the raycast
    * towards each star finds. */
  datatype VesselView = VesselView(dead: bool, truePosition: Vec3, sight: Star -> Sight)

  /** The `ModularFlightIntegrator`: its vessel (absent: null) and whether it has a main body. */
  datatype Integrator = Integrator(vessel: Option<VesselView>, hasMainBody: bool)

  /** The rest of the world `Flux` reads: the celestial bodies, the extinction setting, the scaled
    * space scale factor and the transcendental functions of `SunlightPercentage`. */
  datatype World = World(bodies: seq<Body>, extinction: bool, scaleFactor: real, chapman: Chapman, expNeg: ExpNeg)

  ghost predicate WorldValid(w: World)
  {
    AllWellFormed(w.bodies) && ExpNegBounded(w.expNeg)
  }

  /** The null checks pass and the raycast reaches the star: the flux is the formula. */
  predicate Direct(fi: Option<Integrator>, star: Option<Star>)
  {
    fi.Some? && fi.value.vessel.Some? && !fi.value.vessel.value.dead && fi.value.hasMainBody
    && star.Some? && (fi.value.vessel.value.sight(star.value).Clear? || fi.value.vessel.value.sight(star.value).HitStar?)
  }

  /** `realDistanceToSun * realDistanceToSun` on the direct paths. */
  function SunDistanceSqr(fi: Option<Integrator>, star: Option<Star>, w: World): real
    requires Direct(fi, star)
  {
    var v := fi.value.vessel.value;
    match v.sight(star.value)
    case HitStar(d) => var realDistance := w.scaleFactor * d + star.value.sun.radius; realDistance * realDistance
    case _ => SqrMagnitude(Sub(v.truePosition, star.value.sun.position))
  }

  /** On the direct paths the vessel is not at the star's centre, nor at distance 0 from it. */
  predicate AwayFromStar(fi: Option<Integrator>, star: Option<Star>, w: World)
  {
    Direct(fi, star) ==>
      SunDistanceSqr(fi, star, w) > 0.0
      && SqrMagnitude(Sub(fi.value.vessel.value.truePosition, star.value.sun.position)) > 0.0
  }

  /** The fraction of the star's light reaching the vessel: `SunlightPercentage` with extinction
    * enabled, 1 otherwise. */
  function AtmosphericFraction(fi: Option<Integrator>, star: Option<Star>, w: World): (f: real)
    requires Direct(fi, star) && AwayFromStar(fi, star, w) && WorldValid(w)
    ensures 0.0 <= f <= 1.0
    ensures !w.extinction ==> f == 1.0
  {
    if w.extinction then
      SunlightPercentageRange(w.bodies, fi.value.vessel.value.truePosition, star.value.sun, w.chapman, w.expNeg);
      SunlightPercentage(w.bodies, fi.value.vessel.value.truePosition, star.value.sun, w.chapman, w.expNeg).v
    else 1.0
  }

  /** The flux `star` delivers to the vessel of `fi`, `luminosity` being
    * `PhysicsGlobals.SolarLuminosity`. Every null check and a blocked or failing raycast give 0. */
  function Flux(fi: Option<Integrator>, star: Option<Star>, luminosity: real, w: World): (r: real)
    requires AwayFromStar(fi, star, w) && WorldValid(w)
    ensures !Direct(fi, star) ==> r == 0.0
    ensures (fi.None? || fi.value.vessel.None? || fi.value.vessel.value.dead || !fi.value.hasMainBody
             || star.None?) ==> r == 0.0
    ensures Direct(fi, star) && !w.extinction ==> r == FluxFormula(luminosity, SunDistanceSqr(fi, star, w), 1.0)
    ensures luminosity >= 0.0 ==> r >= 0.0
    ensures Direct(fi, star) && luminosity >= 0.0 ==> r <= FluxFormula(luminosity, SunDistanceSqr(fi, star, w), 1.0)
  {
    if !Direct(fi, star) then 0.0
    else
      var sqr := SunDistanceSqr(fi, star, w);
      var fraction := AtmosphericFraction(fi, star, w);
      FluxFormulaDims(luminosity, sqr, fraction);
      FluxFormula(luminosity, sqr, fraction)
  }

  /** A fraction in [0, 1] scales a non-negative flux down, never below 0. */
  lemma {:induction false} FluxFormulaDims(luminosity: real, sqrDistance: real, fraction: real)
    requires sqrDistance > 0.0 && 0.0 <= fraction <= 1.0
    ensures luminosity >= 0.0 ==> 0.0 <= FluxFormula(luminosity, sqrDistance, fraction) <= FluxFormula(luminosity, sqrDistance, 1.0)
  {
    if luminosity >= 0.0 {
      FluxFormulaNonNegative(luminosity, sqrDistance, fraction);
      var q := luminosity / (sqrDistance * 4.0 * Pi);
      assert q >= 0.0;
      ProductNonNegative(q, 1.0 - fraction);
    }
  }

  /** The luminosity `CalculatePhysics` derives: the home luminosity spread over the sphere of
    * radius `HomeBodySMA`. */
  function PhysicsLuminosity(homeBodySMA: real, solarLuminosityAtHome: real): real
  {
    homeBodySMA * homeBodySMA * 4.0 * Pi * solarLuminosityAtHome
  }

  function SquareOf(x: real): (r: real)
    requires x > 0.0
    ensures r > 0.0 && r == x * x
  {
    SquareStrictlyMonotone(0.0, x);
    x * x
  }

  /** The flux formula at the home body's distance inverts `CalculatePhysics`: with the derived
    * luminosity it yields the home luminosity back. */
  lemma {:induction false} HomeFluxRoundTrip(homeBodySMA: real, solarLuminosityAtHome: real)
    requires homeBodySMA > 0.0
    ensures FluxFormula(PhysicsLuminosity(homeBodySMA, solarLuminosityAtHome), SquareOf(homeBodySMA), 1.0)
         == solarLuminosityAtHome
  {
    var sqr := SquareOf(homeBodySMA);
    var k := sqr * 4.0 * Pi;
    assert k > 0.0;
    assert PhysicsLuminosity(homeBodySMA, solarLuminosityAtHome) == k * solarLuminosityAtHome;
    MulDiv(solarLuminosityAtHome, k);
    assert k * solarLuminosityAtHome == solarLuminosityAtHome * k;
  }

  // ---------------------------------------------------------------- SunBodyFlux

  /** The fluxes of the stars, in order. */
  function StarFluxes(fi: Option<Integrator>, stars: seq<Star>, luminosity: real, w: World): (fs: seq<real>)
    requires WorldValid(w) && forall i :: 0 <= i < |stars| ==> AwayFromStar(fi, Some(stars[i]), w)
    ensures |fs| == |stars|
    ensures forall i :: 0 <= i < |stars| ==> fs[i] == Flux(fi, Some(stars[i]), luminosity, w)
  {
    seq(|stars|, i requires 0 <= i < |stars| => Flux(fi, Some(stars[i]), luminosity, w))
  }

  function Sum(fs: seq<real>): real
    decreases |fs|
  {
    if |fs| == 0 then 0.0 else Sum(fs[..|fs| - 1]) + fs[|fs| - 1]
  }

  /** `SolarFlux` after upserting `fs[i]` under `names[i]`, in order. */
  function Upserted(m: map<string, real>, names: seq<string>, fs: seq<real>): map<string, real>
    requires |names| == |fs|
    decreases |names|
  {
    if |names| == 0 then m
    else Upserted(m, names[..|names| - 1], fs[..|fs| - 1])[names[|names| - 1] := fs[|fs| - 1]]
  }

  /** The upserts leave other keys as they were and add the names, each holding the flux of the
    * last star of that name. */
  lemma {:induction false} UpsertedMeaning(m: map<string, real>, names: seq<string>, fs: seq<real>)
    requires |names| == |fs|
    ensures var r := Upserted(m, names, fs);
      forall k :: k in r <==> k in m || k in names
    ensures var r := Upserted(m, names, fs);
      forall k :: k in m && k !in names ==> r[k] == m[k]
    ensures var r := Upserted(m, names, fs);
      forall i :: 0 <= i < |names| && (forall j :: i < j < |names| ==> names[j] != names[i]) ==> r[names[i]] == fs[i]
    decreases |names|
  {
    if |names| > 0 {
      var n := |names| - 1;
      UpsertedMeaning(m, names[..n], fs[..n]);
      assert names == names[..n] + [names[n]];
      forall i | 0 <= i < |names| && (forall j :: i < j < |names| ==> names[j] != names[i])
        ensures Upserted(m, names, fs)[names[i]] == fs[i]
      {
        if i < n {
          assert names[..n][i] == names[i] && fs[..n][i] == fs[i];
          assert forall j :: i < j < n ==> names[..n][j] != names[..n][i];
        }
      }
    }
  }

  /** One more star: the running total and the map grow by that star. */
  lemma {:induction false} StepFacts(m: map<string, real>, names: seq<string>, fs: seq<real>, i: nat)
    requires |names| == |fs| && i < |fs|
    ensures Sum(fs[..i + 1]) == Sum(fs[..i]) + fs[i]
    ensures Upserted(m, names[..i + 1], fs[..i + 1]) == Upserted(m, names[..i], fs[..i])[names[i] := fs[i]]
  {
    assert fs[..i + 1][..i] == fs[..i];
    assert names[..i + 1][..i] == names[..i];
  }

  function Names(stars: seq<Star>): (ns: seq<string>)
    ensures |ns| == |stars| && forall i :: 0 <= i < |stars| ==> ns[i] == stars[i].name
  {
    seq(|stars|, i requires 0 <= i < |stars| => stars[i].name)
  }

  /** The static state `SunBodyFlux` and `CalculatePhysics` read and write: `FlightGlobals.ready`,
    * `HomeBodySMA`, the three `PhysicsGlobals` values, `KopernicusStar.SolarFlux`, and the two
    * results it reapplies to the vessel and the integrator. */
  class FluxGlobals {
    var ready: bool
    var homeBodySMA: real
    var solarLuminosityAtHome: real
    var solarInsolationAtHome: real
    var solarLuminosity: real
    var solarFlux: map<string, real>
    var vesselDirectSunlight: bool
    var integratorSolarFlux: real

    constructor (ready: bool, homeBodySMA: real)
      ensures this.ready == ready && this.homeBodySMA == homeBodySMA
      ensures solarFlux == map[] && solarLuminosity == 0.0
    {
      this.ready := ready;
      this.homeBodySMA := homeBodySMA;
      solarLuminosityAtHome := 0.0;
      solarInsolationAtHome := 0.0;
      solarLuminosity := 0.0;
      solarFlux := map[];
      vesselDirectSunlight := false;
      integratorSolarFlux := 0.0;
    }

    method CalculatePhysics()
      modifies this
      ensures ready ==> solarLuminosity == PhysicsLuminosity(homeBodySMA, solarLuminosityAtHome)
      ensures !ready ==> solarLuminosity == old(solarLuminosity)
      ensures ready == old(ready) && homeBodySMA == old(homeBodySMA)
      ensures solarLuminosityAtHome == old(solarLuminosityAtHome) && solarInsolationAtHome == old(solarInsolationAtHome)
      ensures solarFlux == old(solarFlux) && vesselDirectSunlight == old(vesselDirectSunlight)
      ensures integratorSolarFlux == old(integratorSolarFlux)
    {
      if !ready {
        return;
      }
      solarLuminosity := PhysicsLuminosity(homeBodySMA, solarLuminosityAtHome);
    }

    /** Every star's flux is computed with the luminosity derived from `current`: the per-star
      * home values are set, but `CalculatePhysics` is not called again inside the loop.
      * `completed` is false when the code throws: a null integrator fails at the base
      * `CalculateSunBodyFlux` call, before the loop; a null `Vessel` fails when the flag is
      * reapplied, after the loop has upserted `SolarFlux` and left the last star's home values. */
    method SunBodyFlux(fi: Option<Integrator>, current: Star, stars: seq<Star>, w: World) returns (completed: bool)
      requires WorldValid(w) && forall i :: 0 <= i < |stars| ==> AwayFromStar(fi, Some(stars[i]), w)
      modifies this
      ensures completed <==> fi.Some? && fi.value.vessel.Some?
      ensures solarLuminosity == if ready then PhysicsLuminosity(homeBodySMA, current.solarLuminosity) else old(solarLuminosity)
      ensures var fs := StarFluxes(fi, stars, solarLuminosity, w);
        && (fi.Some? ==> solarFlux == Upserted(old(solarFlux), Names(stars), fs))
        && (completed ==> (vesselDirectSunlight <==> exists i :: 0 <= i < |stars| && fs[i] > 0.0)
                          && integratorSolarFlux == Sum(fs))
      ensures fi.None? ==> solarFlux == old(solarFlux)
      ensures !completed ==> vesselDirectSunlight == old(vesselDirectSunlight) && integratorSolarFlux == old(integratorSolarFlux)
      ensures var home := if fi.Some? && !completed && |stars| > 0 then stars[|stars| - 1] else current;
        solarLuminosityAtHome == home.solarLuminosity && solarInsolationAtHome == home.solarInsolation
      ensures ready == old(ready) && homeBodySMA == old(homeBodySMA)
    {
      solarLuminosityAtHome := current.solarLuminosity;
      solarInsolationAtHome := current.solarInsolation;
      CalculatePhysics();
      if fi.None? {
        return false;
      }
      var directSunlight, solarFluxTotal, stored, lumHome, insHome :=
        StarsFlux(fi, stars, solarLuminosity, w, solarFlux, solarLuminosityAtHome, solarInsolationAtHome);
      solarFlux := stored;
      solarLuminosityAtHome, solarInsolationAtHome := lumHome, insHome;
      if fi.value.vessel.None? {
        return false;
      }
      vesselDirectSunlight := directSunlight;
      integratorSolarFlux := solarFluxTotal;
      solarLuminosityAtHome := current.solarLuminosity;
      solarInsolationAtHome := current.solarInsolation;
      CalculatePhysics();
      completed := true;
    }
  }

  /** The loop of `SunBodyFlux` over `Stars`, on values: the flux of each star with the luminosity
    * `luminosity` that `CalculatePhysics` left, whether any is positive, their total, and the map
    * `fluxes` with each star's flux stored under its name. The loop also sets the two `AtHome`
    * values to each star's, which `Flux` does not read; starting from `lumHome0` and `insHome0`,
    * they end at the last star's. */
  method StarsFlux(fi: Option<Integrator>, stars: seq<Star>, luminosity: real, w: World, fluxes: map<string, real>,
                   lumHome0: real, insHome0: real)
    returns (directSunlight: bool, total: real, stored: map<string, real>, lumHome: real, insHome: real)
    requires WorldValid(w) && forall i :: 0 <= i < |stars| ==> AwayFromStar(fi, Some(stars[i]), w)
    ensures var fs := StarFluxes(fi, stars, luminosity, w);
      && (directSunlight <==> exists i :: 0 <= i < |stars| && fs[i] > 0.0)
      && total == Sum(fs)
      && stored == Upserted(fluxes, Names(stars), fs)
    ensures |stars| == 0 ==> lumHome == lumHome0 && insHome == insHome0
    ensures |stars| > 0 ==> lumHome == stars[|stars| - 1].solarLuminosity && insHome == stars[|stars| - 1].solarInsolation
  {
    ghost var fs := StarFluxes(fi, stars, luminosity, w);
    ghost var names := Names(stars);
    directSunlight := false;
    total := 0.0;
    stored := fluxes;
    lumHome, insHome := lumHome0, insHome0;
    for i := 0 to |stars|
      invariant directSunlight <==> exists j :: 0 <= j < i && fs[j] > 0.0
      invariant total == Sum(fs[..i])
      invariant stored == Upserted(fluxes, names[..i], fs[..i])
      invariant i == 0 ==> lumHome == lumHome0 && insHome == insHome0
      invariant i > 0 ==> lumHome == stars[i - 1].solarLuminosity && insHome == stars[i - 1].solarInsolation
    {
      var star := stars[i];
      lumHome, insHome := star.solarLuminosity, star.solarInsolation;
      var flux := StarFlux(fi, stars, luminosity, w, i, fs);
      if flux > 0.0 {
        directSunlight := true;
      }
      StepFacts(fluxes, names, fs, i);
      total := total + flux;
      // `Add` for a new name and the indexer for a known one both leave `flux` under the name.
      stored := stored[star.name := flux];
    }
    assert fs[..|stars|] == fs && names[..|stars|] == names;
  }

  /** One iteration's `Flux(fi, star, ...)` call, the `i`-th entry of the specification. */
  method StarFlux(fi: Option<Integrator>, stars: seq<Star>, luminosity: real, w: World, i: nat, ghost fs: seq<real>)
    returns (flux: real)
    requires WorldValid(w) && forall j :: 0 <= j < |stars| ==> AwayFromStar(fi, Some(stars[j]), w)
    requires i < |stars| && fs == StarFluxes(fi, stars, luminosity, w)
    ensures flux == fs[i]
  {
    flux := Flux(fi, Some(stars[i]), luminosity, w);
  }

  /** With non-negative fluxes the total is positive exactly when some star delivers flux, so
    * `directSunlight` and `solarFlux > 0` agree. */
  lemma {:induction false} SumPositive(fs: seq<real>)
    requires forall i :: 0 <= i < |fs| ==> fs[i] >= 0.0
    ensures Sum(fs) >= 0.0
    ensures Sum(fs) > 0.0 <==> exists i :: 0 <= i < |fs| && fs[i] > 0.0
    decreases |fs|
  {
    if |fs| > 0 {
      var n := |fs| - 1;
      SumPositive(fs[..n]);
      if Sum(fs) > 0.0 {
        if fs[n] <= 0.0 {
          var i :| 0 <= i < n && fs[..n][i] > 0.0;
          assert fs[i] > 0.0;
        }
      } else {
        forall i | 0 <= i < |fs|
          ensures fs[i] <= 0.0
        {
          if i < n {
            assert fs[..n][i] == fs[i];
          }
        }
      }
    }
  }

  lemma {:induction false} DirectSunlightMatchesTotal(fi: Option<Integrator>, stars: seq<Star>, luminosity: real, w: World)
    requires WorldValid(w) && forall i :: 0 <= i < |stars| ==> AwayFromStar(fi, Some(stars[i]), w)
    requires luminosity >= 0.0
    ensures var fs := StarFluxes(fi, stars, luminosity, w);
      Sum(fs) >= 0.0 && (Sum(fs) > 0.0 <==> exists i :: 0 <= i < |stars| && fs[i] > 0.0)
  {
    SumPositive(StarFluxes(fi, stars, luminosity, w));
  }
}
