/** The per-vessel record `VesselData` of the Kerbalism-lite database
  * (src/Kopernicus/Components/KERBALISMLITE/Database/VesselData.cs): its evaluation throttle,
  * the folding of the per-star samples into the sun information, and the part and supply
  * dictionaries it keeps.
  *
  * What the `Sim` and `Lib` helpers compute for a vessel (whether a star is visible, the
  * atmospheric factor towards it and the raw flux it delivers, whether the vessel counts as a
  * vessel, the random first elapsed time) is given to the model as values. */
module KerbalismVessel {
  import opened Numerics

  /** A vessel id; `Guid.Empty` is 0. */
  type Guid = nat
  const EmptyGuid: Guid := 0

  /** A `PartData`, which holds only the flight id of its part. */
  class PartData {
    const flightId: nat

    constructor (flightId: nat)
      ensures this.flightId == flightId
    {
      this.flightId := flightId;
    }
  }

  /** A `SupplyData`; its contents are not part of this model, only its identity. */
  class SupplyData {
    constructor ()
    {
    }
  }

  // ---------------------------------------------------------------- Suns

  /** What `Sim.IsBodyVisible`, `Sim.AtmosphereFactor` and `SunData.SolarFlux` give for one star of
    * `Sim.suns` at the vessel position. */
  datatype SunSample = SunSample(visible: bool, atmoFactor: real, rawSolarFlux: NonNegReal)

  /** A `SunInfo`: the star's index in `Sim.suns` and the values computed for it. */
  datatype SunInfo = SunInfo(sun: nat, sunlightFactor: real, solarFlux: real, atmoFactor: real,
                             fluxProportion: Double, rawSolarFlux: real)

  /** The fields `UpdateSunsInfo` writes. */
  datatype SunEnvironment = SunEnvironment(sunsInfo: seq<SunInfo>, mainSun: Option<SunInfo>,
                                           solarFluxTotal: real, rawSolarFluxTotal: real, sunlightFactor: Double)

  const InitialEnvironment := SunEnvironment([], None, 0.0, 0.0, Num(0.0))

  function SunlightFactorOf(s: SunSample): real
  {
    if s.visible then 1.0 else 0.0
  }

  function SolarFluxOf(s: SunSample): real
  {
    s.rawSolarFlux * SunlightFactorOf(s) * s.atmoFactor
  }

  /** The raw fluxes of the first `k` stars added up. */
  function RawFluxTotal(samples: seq<SunSample>, k: nat): (t: real)
    requires k <= |samples|
    ensures t >= 0.0
  {
    if k == 0 then 0.0 else RawFluxTotal(samples, k - 1) + samples[k - 1].rawSolarFlux
  }

  /** The solar fluxes of the first `k` stars added up. */
  function SolarFluxTotal(samples: seq<SunSample>, k: nat): real
    requires k <= |samples|
  {
    if k == 0 then 0.0 else SolarFluxTotal(samples, k - 1) + SolarFluxOf(samples[k - 1])
  }

  /** The information recorded for star `i` once both loops of `UpdateSunsInfo` have run. */
  function SunInfoOf(samples: seq<SunSample>, i: nat): (info: SunInfo)
    requires i < |samples|
    ensures info.sun == i && (info.sunlightFactor == 1.0 <==> samples[i].visible)
    ensures info.sunlightFactor == 0.0 || info.sunlightFactor == 1.0
    ensures info.solarFlux == info.rawSolarFlux * info.sunlightFactor * info.atmoFactor
    ensures info.rawSolarFlux == samples[i].rawSolarFlux && info.atmoFactor == samples[i].atmoFactor
    ensures RawFluxTotal(samples, |samples|) > 0.0 ==>
      info.fluxProportion == Num(samples[i].rawSolarFlux / RawFluxTotal(samples, |samples|))
    ensures RawFluxTotal(samples, |samples|) == 0.0 ==> info.fluxProportion == NaN
  {
    var s := samples[i];
    var total := RawFluxTotal(samples, |samples|);
    if total == 0.0 then
      RawFluxTotalZero(samples, |samples|, i);
      FirstPassInfo(s, i).(fluxProportion := Ratio(s.rawSolarFlux, total))
    else
      FirstPassInfo(s, i).(fluxProportion := Ratio(s.rawSolarFlux, total))
  }

  /** The entry the first loop records for star `i`, before its proportion is known. */
  function FirstPassInfo(s: SunSample, i: nat): SunInfo
  {
    SunInfo(i, SunlightFactorOf(s), SolarFluxOf(s), s.atmoFactor, Num(0.0), s.rawSolarFlux)
  }

  /** A zero total means every one of its fluxes is zero. */
  lemma {:induction false} RawFluxTotalZero(samples: seq<SunSample>, k: nat, i: nat)
    requires i < k <= |samples| && RawFluxTotal(samples, k) == 0.0
    ensures samples[i].rawSolarFlux == 0.0
  {
    if i < k - 1 {
      RawFluxTotalZero(samples, k - 1, i);
    }
  }

  /** The index of the star the first loop leaves as `mainSun` after `k` stars: the strictly
    * greatest raw flux found so far, compared against 0 before any. */
  function MainSunIndex(samples: seq<SunSample>, k: nat): (m: Option<nat>)
    requires k <= |samples|
    ensures m.Some? ==> m.value < k
  {
    if k == 0 then None
    else
      var previous := MainSunIndex(samples, k - 1);
      var lastSolarFlux := if previous.Some? then samples[previous.value].rawSolarFlux else 0.0;
      if samples[k - 1].rawSolarFlux > lastSolarFlux then Some(k - 1) else previous
  }

  /** The main sun is the first star with the greatest raw flux, provided that flux is positive;
    * there is none exactly when every raw flux is zero. */
  lemma {:induction false} MainSunMeaning(samples: seq<SunSample>, k: nat)
    requires k <= |samples|
    ensures MainSunIndex(samples, k).None? <==> forall j :: 0 <= j < k ==> samples[j].rawSolarFlux == 0.0
    ensures MainSunIndex(samples, k).Some? ==>
      var m := MainSunIndex(samples, k).value;
      samples[m].rawSolarFlux > 0.0
      && (forall j :: 0 <= j < k ==> samples[j].rawSolarFlux <= samples[m].rawSolarFlux)
      && (forall j :: 0 <= j < m ==> samples[j].rawSolarFlux < samples[m].rawSolarFlux)
  {
    if k > 0 {
      MainSunMeaning(samples, k - 1);
      var previous := MainSunIndex(samples, k - 1);
      if previous.Some? {
        var p := previous.value;
        if samples[k - 1].rawSolarFlux > samples[p].rawSolarFlux {
          assert forall j :: 0 <= j < k - 1 ==> samples[j].rawSolarFlux < samples[k - 1].rawSolarFlux;
        }
      }
    }
  }

  /** `sunlightFactor` after `k` rounds of the second loop: factors weighted by proportions. */
  function WeightedSunlight(samples: seq<SunSample>, k: nat): Double
    requires k <= |samples|
  {
    if k == 0 then Num(0.0)
    else
      var info := SunInfoOf(samples, k - 1);
      Plus(WeightedSunlight(samples, k - 1), Times(info.sunlightFactor, info.fluxProportion))
  }

  /** "Avoid rounding errors": a factor above 0.99 becomes exactly 1. */
  function ClampSunlight(f: Double): Double
  {
    if Greater(f, Num(0.99)) then Num(1.0) else f
  }

  /** The entries of the first `k` stars once both loops have run. */
  function SunInfos(samples: seq<SunSample>, k: nat): (infos: seq<SunInfo>)
    requires k <= |samples|
    ensures |infos| == k && forall j :: 0 <= j < k ==> infos[j] == SunInfoOf(samples, j)
  {
    if k == 0 then [] else SunInfos(samples, k - 1) + [SunInfoOf(samples, k - 1)]
  }

  /** The fields `UpdateSunsInfo` leaves; `mainSun` keeps its previous value when no star has a
    * positive raw flux. */
  function SunsStep(env: SunEnvironment, samples: seq<SunSample>): SunEnvironment
  {
    var n := |samples|;
    var infos := SunInfos(samples, n);
    var m := MainSunIndex(samples, n);
    SunEnvironment(infos, if m.Some? then Some(infos[m.value]) else env.mainSun,
                   SolarFluxTotal(samples, n), RawFluxTotal(samples, n), VesselSunlight(samples))
  }

  /** The raw fluxes of visible stars, added up. */
  function VisibleRawFlux(samples: seq<SunSample>, k: nat): (t: real)
    requires k <= |samples|
    ensures 0.0 <= t <= RawFluxTotal(samples, k)
  {
    if k == 0 then 0.0
    else VisibleRawFlux(samples, k - 1) + (if samples[k - 1].visible then samples[k - 1].rawSolarFlux else 0.0)
  }

  /** Proportions of a positive total: the weighted factor is the visible share of the raw flux. */
  lemma {:induction false} WeightedSunlightShare(samples: seq<SunSample>, k: nat)
    requires k <= |samples| && RawFluxTotal(samples, |samples|) > 0.0
    ensures WeightedSunlight(samples, k) == Num(VisibleRawFlux(samples, k) / RawFluxTotal(samples, |samples|))
  {
    if k > 0 {
      WeightedSunlightShare(samples, k - 1);
      var t := RawFluxTotal(samples, |samples|);
      var info := SunInfoOf(samples, k - 1);
      var a := VisibleRawFlux(samples, k - 1);
      var r := samples[k - 1].rawSolarFlux;
      var v := if samples[k - 1].visible then r else 0.0;
      assert info.fluxProportion == Num(r / t);
      assert Times(info.sunlightFactor, Num(r / t)) == Num(v / t);
      AddQuotients(a, v, t);
    }
  }

  lemma {:induction false} QuotientAtMostOne(v: real, t: real)
    requires 0.0 <= v <= t && t > 0.0
    ensures 0.0 <= v / t <= 1.0
  {
    var q := v / t;
    assert q * t == v;
    if q > 1.0 {
      ProductPositive(q - 1.0, t);
    }
  }

  lemma {:induction false} AddQuotients(a: real, b: real, t: real)
    requires t > 0.0
    ensures a / t + b / t == (a + b) / t
  {
  }

  /** With a positive total the proportions add up to 1, in the sense that the weighted factor of
    * a vessel seeing every star is 1. */
  lemma {:induction false} AllVisibleShare(samples: seq<SunSample>, k: nat)
    requires k <= |samples| && forall i :: 0 <= i < |samples| ==> samples[i].visible
    ensures VisibleRawFlux(samples, k) == RawFluxTotal(samples, k)
  {
    if k > 0 {
      AllVisibleShare(samples, k - 1);
    }
  }

  lemma {:induction false} NoneVisibleShare(samples: seq<SunSample>, k: nat)
    requires k <= |samples| && forall i :: 0 <= i < |samples| ==> !samples[i].visible
    ensures VisibleRawFlux(samples, k) == 0.0
  {
    if k > 0 {
      NoneVisibleShare(samples, k - 1);
    }
  }

  /** The proportions of a positive total add up to 1. */
  lemma {:induction false} ProportionsSumToOne(samples: seq<SunSample>)
    requires RawFluxTotal(samples, |samples|) > 0.0
    ensures ProportionSum(samples, |samples|) == 1.0
  {
    ProportionSumShare(samples, |samples|);
    var t := RawFluxTotal(samples, |samples|);
    MulDiv(1.0, t);
    assert 1.0 * t == t;
  }

  /** The proportions of the first `k` stars, added up. */
  function ProportionSum(samples: seq<SunSample>, k: nat): real
    requires k <= |samples| && RawFluxTotal(samples, |samples|) > 0.0
  {
    if k == 0 then 0.0 else ProportionSum(samples, k - 1) + SunInfoOf(samples, k - 1).fluxProportion.v
  }

  lemma {:induction false} ProportionSumShare(samples: seq<SunSample>, k: nat)
    requires k <= |samples| && RawFluxTotal(samples, |samples|) > 0.0
    ensures ProportionSum(samples, k) == RawFluxTotal(samples, k) / RawFluxTotal(samples, |samples|)
  {
    if k > 0 {
      ProportionSumShare(samples, k - 1);
      AddQuotients(RawFluxTotal(samples, k - 1), samples[k - 1].rawSolarFlux, RawFluxTotal(samples, |samples|));
    }
  }

  /** The sunlight factor `UpdateSunsInfo` leaves: the weighted factors, clamped. */
  function VesselSunlight(samples: seq<SunSample>): Double
  {
    ClampSunlight(WeightedSunlight(samples, |samples|))
  }

  /** With a positive total, the sunlight factor is the clamped visible share of the raw flux. */
  lemma {:induction false} SunlightFactorShare(samples: seq<SunSample>)
    requires RawFluxTotal(samples, |samples|) > 0.0
    ensures VesselSunlight(samples) == ClampSunlight(Num(VisibleRawFlux(samples, |samples|) / RawFluxTotal(samples, |samples|)))
  {
    WeightedSunlightShare(samples, |samples|);
  }

  /** A share in [0, 1] stays in [0, 1], and is never left in (0.99, 1). */
  lemma {:induction false} ClampRange(q: real)
    requires 0.0 <= q <= 1.0
    ensures var f := ClampSunlight(Num(q)); f.Num? && 0.0 <= f.v <= 1.0 && (f.v <= 0.99 || f.v == 1.0)
    ensures q > 0.99 ==> ClampSunlight(Num(q)) == Num(1.0)
  {
  }

  /** When some star delivers raw flux the sunlight factor is a number in [0, 1], never left in
    * (0.99, 1). */
  lemma {:induction false} SunlightFactorRange(samples: seq<SunSample>)
    requires RawFluxTotal(samples, |samples|) > 0.0
    ensures var f := VesselSunlight(samples); f.Num? && 0.0 <= f.v <= 1.0 && (f.v <= 0.99 || f.v == 1.0)
  {
    var n := |samples|;
    SunlightFactorShare(samples);
    QuotientAtMostOne(VisibleRawFlux(samples, n), RawFluxTotal(samples, n));
    ClampRange(VisibleRawFlux(samples, n) / RawFluxTotal(samples, n));
  }

  /** A vessel that sees every star that delivers flux is fully lit. */
  lemma {:induction false} SunlightAllVisible(samples: seq<SunSample>)
    requires RawFluxTotal(samples, |samples|) > 0.0
    requires forall i :: 0 <= i < |samples| ==> samples[i].visible
    ensures VesselSunlight(samples) == Num(1.0)
  {
    var n := |samples|;
    SunlightFactorShare(samples);
    AllVisibleShare(samples, n);
    var t := RawFluxTotal(samples, n);
    MulDiv(1.0, t);
    assert 1.0 * t == t;
  }

  /** A vessel that sees no star is in full shadow. */
  lemma {:induction false} SunlightNoneVisible(samples: seq<SunSample>)
    requires RawFluxTotal(samples, |samples|) > 0.0
    requires forall i :: 0 <= i < |samples| ==> !samples[i].visible
    ensures VesselSunlight(samples) == Num(0.0)
  {
    SunlightFactorShare(samples);
    NoneVisibleShare(samples, |samples|);
  }

  /** Without any raw flux every proportion is 0/0, so the factor is NaN, unless there are no
    * stars at all, when it stays 0. */
  lemma {:induction false} SunlightFactorWithoutFlux(samples: seq<SunSample>)
    requires RawFluxTotal(samples, |samples|) == 0.0
    ensures |samples| > 0 ==> VesselSunlight(samples) == NaN
    ensures |samples| == 0 ==> VesselSunlight(samples) == Num(0.0)
  {
    if |samples| > 0 {
      WeightedNaN(samples, |samples|);
    }
  }

  lemma {:induction false} WeightedNaN(samples: seq<SunSample>, k: nat)
    requires 0 < k <= |samples| && RawFluxTotal(samples, |samples|) == 0.0
    ensures WeightedSunlight(samples, k) == NaN
  {
    if k > 1 {
      WeightedNaN(samples, k - 1);
    }
  }

  /** `EnvInSunlight`: the sunlight factor exceeds 0.49. */
  predicate InSunlight(f: Double)
  {
    Greater(f, Num(0.49))
  }

  /** `EnvInFullShadow`: the sunlight factor is below 0.1. */
  predicate InFullShadow(f: Double)
  {
    Greater(Num(0.1), f)
  }

  /** No factor is both; a NaN factor is neither. */
  lemma {:induction false} SunlightExclusive(f: Double)
    ensures !(InSunlight(f) && InFullShadow(f))
    ensures f.NaN? ==> !InSunlight(f) && !InFullShadow(f)
  {
  }

  // ---------------------------------------------------------------- Evaluation state

  /** The evaluation-related fields of a `VesselData`. `statusEvaluations` counts the runs of
    * `EvaluateStatus`, standing for the effects of the foreign calls it makes. */
  datatype VesselState = VesselState(existsInFlight: bool, isVessel: bool, isSimulated: bool,
                                     secSinceLastEval: real, statusEvaluations: nat, env: SunEnvironment)

  /** What a `VesselData` holds besides its evaluation state: the part, supply and scan entries,
    * which the evaluation methods never touch. */
  datatype RecordHoldings = RecordHoldings(parts: map<nat, PartData>, supplies: map<string, SupplyData>, scansatId: seq<nat>)

  /** Whether a running evaluation fails: `EvaluateEnvironment` reads `mainSun.SunData` right after
    * `UpdateSunsInfo`, which throws while no star has ever delivered a positive raw flux. */
  predicate EnvironmentThrows(s: VesselState, samples: seq<SunSample>)
  {
    SunsStep(s.env, samples).mainSun.None?
  }

  /** Whether `Evaluate(forced, elapsedSeconds)` runs the evaluation. */
  predicate EvaluationRuns(s: VesselState, forced: bool, elapsedSeconds: real)
  {
    s.isSimulated && (forced || s.secSinceLastEval + elapsedSeconds >= 1.0)
  }

  /** The effect of `Evaluate(forced, elapsedSeconds)`; a throwing evaluation leaves the sun fields
    * it wrote and the accumulated time. */
  function EvaluateStep(s: VesselState, forced: bool, elapsedSeconds: real, samples: seq<SunSample>): VesselState
  {
    if !s.isSimulated then s
    else
      var accumulated := s.secSinceLastEval + elapsedSeconds;
      if !forced && accumulated < 1.0 then s.(secSinceLastEval := accumulated)
      else
        var env := SunsStep(s.env, samples);
        if env.mainSun.None? then s.(secSinceLastEval := accumulated, env := env)
        else s.(secSinceLastEval := 0.0, statusEvaluations := s.statusEvaluations + 1, env := env)
  }

  /** The throttle: nothing happens to a vessel that is not simulated; below one accumulated
    * second a non-forced call only accumulates; otherwise the evaluation runs and, unless it
    * throws, resets the accumulator. */
  lemma {:induction false} EvaluateThrottle(s: VesselState, forced: bool, elapsedSeconds: real, samples: seq<SunSample>)
    ensures !s.isSimulated ==> EvaluateStep(s, forced, elapsedSeconds, samples) == s
    ensures !EvaluationRuns(s, forced, elapsedSeconds) ==>
      EvaluateStep(s, forced, elapsedSeconds, samples).statusEvaluations == s.statusEvaluations
      && EvaluateStep(s, forced, elapsedSeconds, samples).env == s.env
    ensures s.isSimulated && !forced && s.secSinceLastEval + elapsedSeconds < 1.0 ==>
      EvaluateStep(s, forced, elapsedSeconds, samples).secSinceLastEval == s.secSinceLastEval + elapsedSeconds
    ensures EvaluationRuns(s, forced, elapsedSeconds) && !EnvironmentThrows(s, samples) ==>
      var r := EvaluateStep(s, forced, elapsedSeconds, samples);
      r.secSinceLastEval == 0.0 && r.statusEvaluations == s.statusEvaluations + 1 && r.env == SunsStep(s.env, samples)
    ensures !forced && s.isSimulated && !EnvironmentThrows(s, samples) ==>
      EvaluateStep(s, forced, elapsedSeconds, samples).secSinceLastEval < 1.0
    ensures var r := EvaluateStep(s, forced, elapsedSeconds, samples);
      r.existsInFlight == s.existsInFlight && r.isSimulated == s.isSimulated && r.isVessel == s.isVessel
      && r.statusEvaluations >= s.statusEvaluations
  {
  }

  /** `k` non-forced calls with the same elapsed time. */
  function Ticks(s: VesselState, elapsedSeconds: real, samples: seq<SunSample>, k: nat): VesselState
    decreases k
  {
    if k == 0 then s else Ticks(EvaluateStep(s, false, elapsedSeconds, samples), elapsedSeconds, samples, k - 1)
  }

  /** While the accumulated time stays below one second, `k` non-forced calls on a simulated
    * vessel only add `elapsedSeconds` each to the accumulator. */
  lemma {:induction false} ThrottleQuiet(s: VesselState, elapsedSeconds: real, samples: seq<SunSample>, k: nat)
    requires s.isSimulated && elapsedSeconds >= 0.0
    requires s.secSinceLastEval + (k as real) * elapsedSeconds < 1.0
    ensures Ticks(s, elapsedSeconds, samples, k) == s.(secSinceLastEval := s.secSinceLastEval + (k as real) * elapsedSeconds)
    decreases k
  {
    if k > 0 {
      var km := (k - 1) as real;
      assert (k as real) * elapsedSeconds == elapsedSeconds + km * elapsedSeconds;
      ProductNonNegative(km, elapsedSeconds);
      ThrottleAccumulates(s, elapsedSeconds, samples);
      var s' := s.(secSinceLastEval := s.secSinceLastEval + elapsedSeconds);
      assert Ticks(s, elapsedSeconds, samples, k) == Ticks(s', elapsedSeconds, samples, k - 1);
      ThrottleQuiet(s', elapsedSeconds, samples, k - 1);
    }
  }

  /** Once a star delivers raw flux, a vessel ticked `k` times by `elapsedSeconds >= 0` is evaluated
    * at least once exactly when the accumulated time reaches one second; until then the calls
    * only accumulate. */
  lemma {:induction false} ThrottleWindow(s: VesselState, elapsedSeconds: real, samples: seq<SunSample>, k: nat)
    requires s.isSimulated && elapsedSeconds >= 0.0 && s.secSinceLastEval < 1.0
    requires MainSunIndex(samples, |samples|).Some?
    ensures s.secSinceLastEval + (k as real) * elapsedSeconds < 1.0 ==>
      Ticks(s, elapsedSeconds, samples, k) == s.(secSinceLastEval := s.secSinceLastEval + (k as real) * elapsedSeconds)
    ensures s.secSinceLastEval + (k as real) * elapsedSeconds >= 1.0 ==>
      Ticks(s, elapsedSeconds, samples, k).statusEvaluations > s.statusEvaluations
    ensures Ticks(s, elapsedSeconds, samples, k).statusEvaluations >= s.statusEvaluations
    ensures Ticks(s, elapsedSeconds, samples, k).isSimulated
    decreases k
  {
    if s.secSinceLastEval + (k as real) * elapsedSeconds < 1.0 {
      ThrottleQuiet(s, elapsedSeconds, samples, k);
    } else if k > 0 {
      var s' := EvaluateStep(s, false, elapsedSeconds, samples);
      assert Ticks(s, elapsedSeconds, samples, k) == Ticks(s', elapsedSeconds, samples, k - 1);
      var km := (k - 1) as real;
      assert (k as real) * elapsedSeconds == elapsedSeconds + km * elapsedSeconds;
      if s.secSinceLastEval + elapsedSeconds < 1.0 {
        ThrottleAccumulates(s, elapsedSeconds, samples);
      } else {
        ThrottleEvaluates(s, elapsedSeconds, samples);
      }
      ThrottleWindow(s', elapsedSeconds, samples, k - 1);
    }
  }

  /** One non-forced call on a simulated vessel below one accumulated second only accumulates. */
  lemma {:induction false} ThrottleAccumulates(s: VesselState, elapsedSeconds: real, samples: seq<SunSample>)
    requires s.isSimulated && s.secSinceLastEval + elapsedSeconds < 1.0
    ensures EvaluateStep(s, false, elapsedSeconds, samples) == s.(secSinceLastEval := s.secSinceLastEval + elapsedSeconds)
  {
  }

  /** From one accumulated second on, a vessel that has a main sun is evaluated and its
    * accumulator reset. */
  lemma {:induction false} ThrottleEvaluates(s: VesselState, elapsedSeconds: real, samples: seq<SunSample>)
    requires s.isSimulated && s.secSinceLastEval + elapsedSeconds >= 1.0 && MainSunIndex(samples, |samples|).Some?
    ensures var r := EvaluateStep(s, false, elapsedSeconds, samples);
      r.isSimulated && r.secSinceLastEval == 0.0 && r.statusEvaluations == s.statusEvaluations + 1
  {
    assert SunsStep(s.env, samples).mainSun.Some?;
  }

  /** `EarlyUpdate`: the vessel is presumed absent from flight until its `Update`. */
  function EarlyStep(s: VesselState): VesselState
  {
    s.(existsInFlight := false)
  }

  /** `Update(v)`: present in flight, simulated exactly when `Lib.IsVessel` says so, and evaluated
    * at once (forced, with `randomElapsed` from `Lib.RandomDouble`) when it just became simulated.
    * The test `!ExistsInFlight` right after setting it to true never holds. */
  function UpdateStep(s: VesselState, isVessel: bool, randomElapsed: real, samples: seq<SunSample>): VesselState
  {
    var present := s.(existsInFlight := true, isVessel := isVessel);
    if !isVessel then present.(isSimulated := false)
    else if !present.isSimulated then EvaluateStep(present.(isSimulated := true), true, randomElapsed, samples)
    else present
  }

  /** Whether the forced evaluation of `Update` throws. */
  predicate UpdateThrows(s: VesselState, isVessel: bool, samples: seq<SunSample>)
  {
    isVessel && !s.isSimulated && EnvironmentThrows(s, samples)
  }

  /** The forced evaluation happens exactly on the transition to simulated, never for a vessel
    * that was simulated already. */
  lemma {:induction false} UpdateTransition(s: VesselState, isVessel: bool, randomElapsed: real, samples: seq<SunSample>)
    ensures var r := UpdateStep(s, isVessel, randomElapsed, samples);
      r.existsInFlight && r.isSimulated == isVessel && r.isVessel == isVessel
    ensures var r := UpdateStep(s, isVessel, randomElapsed, samples);
      r.statusEvaluations == s.statusEvaluations + 1 <==> !s.isSimulated && isVessel && !UpdateThrows(s, isVessel, samples)
    ensures var r := UpdateStep(s, isVessel, randomElapsed, samples);
      r.statusEvaluations == s.statusEvaluations || r.statusEvaluations == s.statusEvaluations + 1
    ensures s.isSimulated && isVessel ==>
      UpdateStep(s, isVessel, randomElapsed, samples) == s.(existsInFlight := true, isVessel := true)
    ensures !s.isSimulated && isVessel && !UpdateThrows(s, isVessel, samples) ==>
      UpdateStep(s, isVessel, randomElapsed, samples).secSinceLastEval == 0.0
  {
  }

  /** `UpdateOnVesselModified`: a simulated vessel has its status evaluated again. */
  function ModifiedStep(s: VesselState): (r: VesselState)
    ensures r.statusEvaluations == if s.isSimulated then s.statusEvaluations + 1 else s.statusEvaluations
    ensures r.(statusEvaluations := s.statusEvaluations) == s
  {
    if s.isSimulated then s.(statusEvaluations := s.statusEvaluations + 1) else s
  }

  // ---------------------------------------------------------------- Part maps

  /** The entries of `m` whose ids are among `ids`. */
  function PartsAmong(m: map<nat, PartData>, ids: seq<nat>): map<nat, PartData>
  {
    map k | k in m && k in ids :: m[k]
  }

  /** The entries of `m` whose ids are not among `ids`. */
  function PartsNotAmong(m: map<nat, PartData>, ids: seq<nat>): map<nat, PartData>
  {
    map k | k in m && k !in ids :: m[k]
  }

  /** Undocking splits the old map in two: nothing is lost, nothing duplicated. */
  lemma {:induction false} PartsPartition(m: map<nat, PartData>, ids: seq<nat>)
    ensures PartsAmong(m, ids).Keys !! PartsNotAmong(m, ids).Keys
    ensures PartsAmong(m, ids) + PartsNotAmong(m, ids) == m
  {
  }

  /** Every entry is the part of its own id. */
  predicate Consistent(m: map<nat, PartData>)
  {
    forall k :: k in m ==> m[k].flightId == k
  }

  /** A map of new `PartData` for distinct flight ids, as the constructors build it. */
  method NewParts(ids: seq<nat>) returns (m: map<nat, PartData>)
    ensures m.Keys == set i | 0 <= i < |ids| :: ids[i]
    ensures Consistent(m)
    ensures forall k :: k in m ==> fresh(m[k])
  {
    m := map[];
    for i := 0 to |ids|
      invariant m.Keys == set j | 0 <= j < i :: ids[j]
      invariant Consistent(m)
      invariant forall k :: k in m ==> fresh(m[k])
    {
      var pd := new PartData(ids[i]);
      m := m[ids[i] := pd];
    }
  }

  /** The flight ids listed in `ids`. */
  function IdSet(ids: seq<nat>): set<nat>
  {
    set i | 0 <= i < |ids| :: ids[i]
  }

  predicate Distinct(ids: seq<nat>)
  {
    forall i, j :: 0 <= i < j < |ids| ==> ids[i] != ids[j]
  }

  /** The first loop of `UpdateSunsInfo`: one entry per star, the two totals, and the main sun. */
  method CollectSuns(samples: seq<SunSample>) returns (infos: seq<SunInfo>, mainIndex: Option<nat>, solarTotal: real, rawTotal: real)
    ensures |infos| == |samples|
    ensures forall j :: 0 <= j < |samples| ==> infos[j] == FirstPassInfo(samples[j], j)
    ensures mainIndex == MainSunIndex(samples, |samples|)
    ensures solarTotal == SolarFluxTotal(samples, |samples|) && rawTotal == RawFluxTotal(samples, |samples|)
  {
    var lastSolarFlux := 0.0;
    mainIndex := None;
    infos := [];
    solarTotal := 0.0;
    rawTotal := 0.0;
    for i := 0 to |samples|
      invariant |infos| == i
      invariant forall j :: 0 <= j < i ==> infos[j] == FirstPassInfo(samples[j], j)
      invariant rawTotal == RawFluxTotal(samples, i) && solarTotal == SolarFluxTotal(samples, i)
      invariant mainIndex == MainSunIndex(samples, i)
      invariant lastSolarFlux == if mainIndex.Some? then samples[mainIndex.value].rawSolarFlux else 0.0
    {
      var sample := samples[i];
      var factor := if sample.visible then 1.0 else 0.0;
      var info := SunInfo(i, factor, sample.rawSolarFlux * factor * sample.atmoFactor, sample.atmoFactor,
                          Num(0.0), sample.rawSolarFlux);
      assert info == FirstPassInfo(sample, i);
      rawTotal := rawTotal + info.rawSolarFlux;
      solarTotal := solarTotal + info.solarFlux;
      infos := infos + [info];
      if info.rawSolarFlux > lastSolarFlux {
        lastSolarFlux := info.rawSolarFlux;
        mainIndex := Some(i);
      }
    }
  }

  /** The second loop of `UpdateSunsInfo`: each star's share of the raw flux, and the sunlight
    * factor weighted by those shares (before the clamp). */
  method WeighSuns(samples: seq<SunSample>, infos: seq<SunInfo>, rawTotal: real) returns (weighed: seq<SunInfo>, factor: Double)
    requires |infos| == |samples| && rawTotal == RawFluxTotal(samples, |samples|)
    requires forall j :: 0 <= j < |samples| ==> infos[j] == FirstPassInfo(samples[j], j)
    ensures |weighed| == |samples|
    ensures forall j :: 0 <= j < |samples| ==> weighed[j] == SunInfoOf(samples, j)
    ensures factor == WeightedSunlight(samples, |samples|)
  {
    weighed := infos;
    factor := Num(0.0);
    for i := 0 to |weighed|
      invariant |weighed| == |samples|
      invariant forall j :: 0 <= j < i ==> weighed[j] == SunInfoOf(samples, j)
      invariant forall j :: i <= j < |samples| ==> weighed[j] == FirstPassInfo(samples[j], j)
      invariant factor == WeightedSunlight(samples, i)
    {
      var info := weighed[i];
      var proportion := Ratio(info.rawSolarFlux, rawTotal);
      weighed := weighed[i := info.(fluxProportion := proportion)];
      factor := Plus(factor, Times(info.sunlightFactor, proportion));
    }
  }

  /** The body of `UpdateSunsInfo` on values: both loops, the clamp, and the main sun, which
    * keeps its previous value `env.mainSun` when no star delivers raw flux. */
  method ComputeSuns(env: SunEnvironment, samples: seq<SunSample>) returns (r: SunEnvironment)
    ensures r == SunsStep(env, samples)
  {
    var infos, mainIndex, solarTotal, rawTotal := CollectSuns(samples);
    var weighed, factor := WeighSuns(samples, infos, rawTotal);
    SunsStepOf(env, samples, weighed, mainIndex, factor);
    if Greater(factor, Num(0.99)) {
      factor := Num(1.0);
    }
    var mainSun := env.mainSun;
    if mainIndex.Some? {
      mainSun := Some(weighed[mainIndex.value]);
    }
    r := SunEnvironment(weighed, mainSun, solarTotal, rawTotal, factor);
  }

  /** What the two loops compute, put together, is `SunsStep`. */
  lemma {:induction false} SunsStepOf(env: SunEnvironment, samples: seq<SunSample>, weighed: seq<SunInfo>, mainIndex: Option<nat>, factor: Double)
    requires |weighed| == |samples| && forall j :: 0 <= j < |samples| ==> weighed[j] == SunInfoOf(samples, j)
    requires mainIndex == MainSunIndex(samples, |samples|) && factor == WeightedSunlight(samples, |samples|)
    ensures mainIndex.Some? ==> mainIndex.value < |weighed|
    ensures SunsStep(env, samples) == SunEnvironment(weighed, if mainIndex.Some? then Some(weighed[mainIndex.value]) else env.mainSun,
                                                     SolarFluxTotal(samples, |samples|), RawFluxTotal(samples, |samples|), ClampSunlight(factor))
  {
    assert weighed == SunsStep(env, samples).sunsInfo;
  }

  class VesselData {
    const vesselId: Guid
    var existsInFlight: bool
    var isVessel: bool
    var isSimulated: bool
    var secSinceLastEval: real
    var statusEvaluations: nat
    var sunsInfo: seq<SunInfo>
    var mainSun: Option<SunInfo>
    var solarFluxTotal: real
    var rawSolarFluxTotal: real
    var sunlightFactor: Double
    var parts: map<nat, PartData>
    var supplies: map<string, SupplyData>
    var scansatId: seq<nat>
    /** Whether the `Vessel` reference is set: by the in-flight constructor and by `Update`. */
    var hasVessel: bool

    function State(): VesselState
      reads this
    {
      VesselState(existsInFlight, isVessel, isSimulated, secSinceLastEval, statusEvaluations,
                  SunEnvironment(sunsInfo, mainSun, solarFluxTotal, rawSolarFluxTotal, sunlightFactor))
    }

    function Holdings(): RecordHoldings
      reads this
    {
      RecordHoldings(parts, supplies, scansatId)
    }

    predicate PartsConsistent()
      reads this
    {
      Consistent(parts)
    }

    /** `VesselData(Vessel)`: a vessel met in flight, with one new `PartData` per part. Flight ids
      * are distinct within a vessel (`parts.Add` would throw otherwise). */
    constructor FromVessel(id: Guid, partIds: seq<nat>)
      requires Distinct(partIds)
      ensures vesselId == id
      ensures State() == VesselState(true, false, false, 0.0, 0, InitialEnvironment)
      ensures parts.Keys == IdSet(partIds) && PartsConsistent()
      ensures supplies == map[] && scansatId == [] && hasVessel
    {
      var m := NewParts(partIds);
      vesselId := id;
      existsInFlight := true;
      isVessel := false;
      isSimulated := false;
      secSinceLastEval := 0.0;
      statusEvaluations := 0;
      sunsInfo := [];
      mainSun := None;
      solarFluxTotal := 0.0;
      rawSolarFluxTotal := 0.0;
      sunlightFactor := Num(0.0);
      parts := m;
      supplies := map[];
      scansatId := [];
      hasVessel := true;
    }

    /** `VesselData(ProtoVessel, node)`: a vessel known from the save, not yet met in flight. */
    constructor FromProtoVessel(id: Guid, protoPartIds: seq<nat>)
      requires Distinct(protoPartIds)
      ensures vesselId == id
      ensures State() == VesselState(false, false, false, 0.0, 0, InitialEnvironment)
      ensures parts.Keys == IdSet(protoPartIds) && PartsConsistent()
      ensures supplies == map[] && scansatId == [] && !hasVessel
    {
      var m := NewParts(protoPartIds);
      vesselId := id;
      existsInFlight := false;
      isVessel := false;
      isSimulated := false;
      secSinceLastEval := 0.0;
      statusEvaluations := 0;
      sunsInfo := [];
      mainSun := None;
      solarFluxTotal := 0.0;
      rawSolarFluxTotal := 0.0;
      sunlightFactor := Num(0.0);
      parts := m;
      supplies := map[];
      scansatId := [];
      hasVessel := false;
    }

    function EnvInSunlight(): bool
      reads this
    {
      InSunlight(sunlightFactor)
    }

    function EnvInFullShadow(): bool
      reads this
    {
      InFullShadow(sunlightFactor)
    }

    method EarlyUpdate()
      modifies this
      ensures State() == EarlyStep(old(State()))
      ensures parts == old(parts) && supplies == old(supplies) && scansatId == old(scansatId) && hasVessel == old(hasVessel)
    {
      existsInFlight := false;
    }

    /** `Update(v)`; `completed` is false when the forced evaluation throws. */
    method Update(isVesselNow: bool, randomElapsed: real, samples: seq<SunSample>) returns (completed: bool)
      modifies this
      ensures State() == UpdateStep(old(State()), isVesselNow, randomElapsed, samples)
      ensures completed == !UpdateThrows(old(State()), isVesselNow, samples)
      ensures parts == old(parts) && supplies == old(supplies) && scansatId == old(scansatId) && hasVessel
    {
      hasVessel := true;
      existsInFlight := true;
      completed := true;
      var simulated := CheckIfSimulated(isVesselNow);
      if !existsInFlight || !simulated {
        isSimulated := false;
      } else {
        if !isSimulated {
          isSimulated := true;
          completed := Evaluate(true, randomElapsed, samples);
        }
      }
    }

    /** `CheckIfSimulated`, with `Lib.IsVessel(Vessel)` given. */
    method CheckIfSimulated(isVesselNow: bool) returns (simulated: bool)
      modifies this
      ensures simulated == isVesselNow
      ensures State() == old(State()).(isVessel := isVesselNow)
      ensures parts == old(parts) && supplies == old(supplies) && scansatId == old(scansatId) && hasVessel == old(hasVessel)
    {
      isVessel := isVesselNow;
      return isVessel;
    }

    /** `Evaluate(forced, elapsedSeconds)`; `completed` is false when the evaluation throws. */
    method Evaluate(forced: bool, elapsedSeconds: real, samples: seq<SunSample>) returns (completed: bool)
      modifies this
      ensures State() == EvaluateStep(old(State()), forced, elapsedSeconds, samples)
      ensures completed == !(EvaluationRuns(old(State()), forced, elapsedSeconds) && EnvironmentThrows(old(State()), samples))
      ensures parts == old(parts) && supplies == old(supplies) && scansatId == old(scansatId) && hasVessel == old(hasVessel)
    {
      if !isSimulated {
        return true;
      }
      secSinceLastEval := secSinceLastEval + elapsedSeconds;
      if !forced && secSinceLastEval < 1.0 {
        return true;
      }
      completed := EvaluateEnvironment(samples);
      if !completed {
        return;
      }
      EvaluateStatus();
      secSinceLastEval := 0.0;
    }

    /** The part of `EvaluateEnvironment` this model keeps: the sun update, then the read of
      * `mainSun` that throws when there is none. */
    method EvaluateEnvironment(samples: seq<SunSample>) returns (completed: bool)
      modifies this
      ensures State() == old(State()).(env := SunsStep(old(State()).env, samples))
      ensures completed == !EnvironmentThrows(old(State()), samples)
      ensures parts == old(parts) && supplies == old(supplies) && scansatId == old(scansatId) && hasVessel == old(hasVessel)
    {
      UpdateSunsInfo(samples);
      completed := mainSun.Some?;
    }

    method EvaluateStatus()
      modifies this
      ensures State() == old(State()).(statusEvaluations := old(statusEvaluations) + 1)
      ensures parts == old(parts) && supplies == old(supplies) && scansatId == old(scansatId) && hasVessel == old(hasVessel)
    {
      statusEvaluations := statusEvaluations + 1;
    }

    /** `SunInfo.UpdateSunsInfo(this, ...)`. The list, the totals and the factor are built in
      * locals and stored at the end, since nothing reads the fields in between. `mainSun` refers
      * to an entry of the list, which the second loop still updates, so it is read from the list
      * once the list is complete. */
    method UpdateSunsInfo(samples: seq<SunSample>)
      modifies this
      ensures State() == old(State()).(env := SunsStep(old(State()).env, samples))
      ensures parts == old(parts) && supplies == old(supplies) && scansatId == old(scansatId) && hasVessel == old(hasVessel)
    {
      var env := ComputeSuns(State().env, samples);
      sunsInfo, mainSun, solarFluxTotal, rawSolarFluxTotal, sunlightFactor :=
        env.sunsInfo, env.mainSun, env.solarFluxTotal, env.rawSolarFluxTotal, env.sunlightFactor;
    }

    /** `UpdateOnVesselModified`: the status of a simulated vessel is evaluated again. */
    method UpdateOnVesselModified()
      modifies this
      ensures State() == ModifiedStep(old(State()))
      ensures parts == old(parts) && supplies == old(supplies) && scansatId == old(scansatId) && hasVessel == old(hasVessel)
    {
      if !isSimulated {
        return;
      }
      EvaluateStatus();
    }

    /** `GetPartData(flightID)` with the flight ids of `Vessel.parts`: a known part, or a new
      * `PartData` added for a part of the vessel not met before, or none. `ok` is false when the
      * source throws: `Vessel` is null (a record from the save not yet updated in flight), or the
      * id occurs twice among the vessel's parts and the second `parts.Add` finds it present. */
    method GetPartData(flightID: nat, vesselPartIds: seq<nat>) returns (pd: Option<PartData>, ok: bool)
      modifies this
      ensures ok <==> flightID in old(parts) || (hasVessel && multiset(vesselPartIds)[flightID] <= 1)
      ensures flightID in old(parts) ==> pd == Some(old(parts)[flightID]) && parts == old(parts)
      ensures flightID !in old(parts) && !hasVessel ==> parts == old(parts)
      ensures flightID !in old(parts) && hasVessel && flightID in vesselPartIds ==>
        pd.Some? && fresh(pd.value) && pd.value.flightId == flightID && parts == old(parts)[flightID := pd.value]
      ensures flightID !in old(parts) && hasVessel && flightID !in vesselPartIds ==> pd.None? && parts == old(parts)
      ensures old(PartsConsistent()) ==> PartsConsistent()
      ensures State() == old(State()) && supplies == old(supplies) && scansatId == old(scansatId) && hasVessel == old(hasVessel)
    {
      if flightID in parts {
        return Some(parts[flightID]), true;
      }
      pd, ok := None, true;
      if !hasVessel {
        return None, false;
      }
      for i := 0 to |vesselPartIds|
        invariant pd.None? ==> flightID !in vesselPartIds[..i] && parts == old(parts)
        invariant pd.Some? ==> multiset(vesselPartIds[..i])[flightID] == 1 && fresh(pd.value) && pd.value.flightId == flightID
                               && parts == old(parts)[flightID := pd.value]
        invariant State() == old(State()) && supplies == old(supplies) && scansatId == old(scansatId) && hasVessel == old(hasVessel)
      {
        assert vesselPartIds[..i + 1] == vesselPartIds[..i] + [vesselPartIds[i]];
        if vesselPartIds[i] == flightID {
          if pd.Some? {
            assert vesselPartIds == vesselPartIds[..i + 1] + vesselPartIds[i + 1..];
            return pd, false;
          }
          var created := new PartData(flightID);
          pd := Some(created);
          parts := parts[flightID := created];
        }
      }
      assert vesselPartIds[..|vesselPartIds|] == vesselPartIds;
    }

    /** `Supply(name)`: get-or-create; an existing entry is never replaced. */
    method Supply(name: string) returns (sd: SupplyData)
      modifies this
      ensures name in old(supplies) ==> sd == old(supplies)[name] && supplies == old(supplies)
      ensures name !in old(supplies) ==> fresh(sd) && supplies == old(supplies)[name := sd]
      ensures State() == old(State()) && parts == old(parts) && scansatId == old(scansatId) && hasVessel == old(hasVessel)
    {
      if name !in supplies {
        var created := new SupplyData();
        supplies := supplies[name := created];
      }
      return supplies[name];
    }
  }

  /** The loop of `OnDecoupleOrUndock` on values: each listed part found in `source` (`TryGetValue`)
    * moves from `staying` to `moving`. */
  method SplitParts(source: map<nat, PartData>, ids: seq<nat>) returns (moving: map<nat, PartData>, staying: map<nat, PartData>)
    ensures moving == PartsAmong(source, ids) && staying == PartsNotAmong(source, ids)
  {
    moving := map[];
    staying := source;
    for i := 0 to |ids|
      invariant moving == PartsAmong(source, ids[..i])
      invariant staying == PartsNotAmong(source, ids[..i])
    {
      var id := ids[i];
      assert ids[..i + 1] == ids[..i] + [id];
      if id in staying {
        var pd := staying[id];
        moving := moving[id := pd];
        staying := staying - {id};
      }
      assert moving == PartsAmong(source, ids[..i + 1]);
      assert staying == PartsNotAmong(source, ids[..i + 1]);
    }
    assert ids[..|ids|] == ids;
  }

  /** Both halves of a consistent map are consistent. */
  lemma {:induction false} PartsSplitConsistent(m: map<nat, PartData>, ids: seq<nat>)
    requires Consistent(m)
    ensures Consistent(PartsAmong(m, ids)) && Consistent(PartsNotAmong(m, ids))
  {
  }

  /** `OnDecoupleOrUndock`: the new vessel's map is cleared and receives exactly the old vessel's
    * entries for its parts, which the old vessel loses. Should both vessels share one record, the
    * clearing empties it and it is marked modified twice. */
  method OnDecoupleOrUndock(oldVD: VesselData, newVD: VesselData, newVesselPartIds: seq<nat>)
    modifies oldVD, newVD
    ensures oldVD != newVD ==>
      newVD.parts == PartsAmong(old(oldVD.parts), newVesselPartIds)
      && oldVD.parts == PartsNotAmong(old(oldVD.parts), newVesselPartIds)
      && newVD.State() == ModifiedStep(old(newVD.State())) && oldVD.State() == ModifiedStep(old(oldVD.State()))
    ensures oldVD == newVD ==> newVD.parts == map[] && newVD.State() == ModifiedStep(ModifiedStep(old(newVD.State())))
    ensures old(oldVD.PartsConsistent()) ==> oldVD.PartsConsistent() && newVD.PartsConsistent()
    ensures newVD.supplies == old(newVD.supplies) && oldVD.supplies == old(oldVD.supplies)
    ensures newVD.scansatId == old(newVD.scansatId) && oldVD.scansatId == old(oldVD.scansatId)
    ensures newVD.hasVessel == old(newVD.hasVessel) && oldVD.hasVessel == old(oldVD.hasVessel)
  {
    newVD.parts := map[];
    var source := oldVD.parts;
    var moving, staying := SplitParts(source, newVesselPartIds);
    if Consistent(source) {
      PartsSplitConsistent(source, newVesselPartIds);
    }
    newVD.parts := moving;
    oldVD.parts := staying;
    newVD.UpdateOnVesselModified();
    oldVD.UpdateOnVesselModified();
  }

  /** `OnPartCouple`. Within one vessel the part is added when it is new. Between two vessels the
    * parts of `fromVD` move to `toVD` (`ok`), which requires their ids to be new to `toVD`: `Add`
    * throws at the first clash (`!ok`), after moving the entries met before it. */
  method OnPartCouple(fromVD: VesselData, toVD: VesselData, fromPartId: nat) returns (ok: bool)
    requires fromVD.PartsConsistent() && toVD.PartsConsistent()
    modifies fromVD, toVD
    ensures fromVD == toVD ==>
      ok && toVD.State() == old(toVD.State()) && toVD.supplies == old(toVD.supplies) && toVD.scansatId == old(toVD.scansatId)
    ensures fromVD == toVD && fromPartId in old(toVD.parts) ==> toVD.parts == old(toVD.parts)
    ensures fromVD == toVD && fromPartId !in old(toVD.parts) ==>
      fromPartId in toVD.parts && fresh(toVD.parts[fromPartId]) && toVD.parts == old(toVD.parts)[fromPartId := toVD.parts[fromPartId]]
    ensures fromVD != toVD ==> (ok <==> old(fromVD.parts).Keys !! old(toVD.parts).Keys)
    ensures fromVD != toVD && ok ==>
      toVD.parts == old(toVD.parts) + old(fromVD.parts) && fromVD.parts == map[]
      && toVD.supplies == map[] && toVD.scansatId == []
      && toVD.State() == ModifiedStep(old(toVD.State()))
    ensures fromVD != toVD && !ok ==>
      fromVD.parts == old(fromVD.parts) && old(toVD.parts).Keys <= toVD.parts.Keys <= old(toVD.parts).Keys + old(fromVD.parts).Keys
      && toVD.supplies == old(toVD.supplies) && toVD.scansatId == old(toVD.scansatId) && toVD.State() == old(toVD.State())
    ensures fromVD.State() == old(fromVD.State()) || fromVD == toVD
    ensures fromVD != toVD ==> fromVD.supplies == old(fromVD.supplies) && fromVD.scansatId == old(fromVD.scansatId)
    ensures fromVD.hasVessel == old(fromVD.hasVessel) && toVD.hasVessel == old(toVD.hasVessel)
    ensures fromVD.PartsConsistent() && toVD.PartsConsistent()
  {
    if fromVD == toVD {
      if fromPartId !in toVD.parts {
        var created := new PartData(fromPartId);
        toVD.parts := toVD.parts[fromPartId := created];
      }
      return true;
    }
    var moved;
    ghost var left;
    moved, ok, left := MergeParts(fromVD.parts, toVD.parts);
    MergedBounds(toVD.parts, fromVD.parts, left);
    toVD.parts := moved;
    if !ok {
      return;
    }
    fromVD.parts := map[];
    toVD.supplies := map[];
    toVD.scansatId := [];
    toVD.UpdateOnVesselModified();
  }

  /** The entries of `source` outside `rest` added to `target`. */
  function Merged(target: map<nat, PartData>, source: map<nat, PartData>, rest: set<nat>): map<nat, PartData>
  {
    target + (source - rest)
  }

  /** Moving the entries already merged leaves a map between `target` and `target + source` that
    * takes each entry from `target` first. */
  lemma {:induction false} MergedBounds(target: map<nat, PartData>, source: map<nat, PartData>, rest: set<nat>)
    requires Consistent(source) && Consistent(target) && (source - rest).Keys !! target.Keys
    ensures var m := Merged(target, source, rest);
      target.Keys <= m.Keys <= target.Keys + source.Keys
      && (forall k :: k in m ==> m[k] == if k in target then target[k] else source[k])
      && Consistent(m)
  {
  }

  lemma {:induction false} MergedStep(target: map<nat, PartData>, source: map<nat, PartData>, rest: set<nat>, k: nat)
    requires k in rest && k in source
    ensures Merged(target, source, rest - {k}) == Merged(target, source, rest)[k := source[k]]
  {
    assert source - (rest - {k}) == (source - rest)[k := source[k]];
  }

  /** The loop of `OnPartCouple` adding every part of `source` to `target` with `Add`, which
    * throws at the first id `target` already holds (`!ok`), keeping the entries added before it.
    * Whatever the order of the parts, the result is `target` plus the entries of `source` met
    * before the clash, outside the set `left` of those not reached. */
  method MergeParts(source: map<nat, PartData>, target: map<nat, PartData>) returns (moved: map<nat, PartData>, ok: bool, ghost left: set<nat>)
    requires Consistent(source) && Consistent(target)
    ensures ok <==> source.Keys !! target.Keys
    ensures ok ==> moved == target + source
    ensures left <= source.Keys && (source - left).Keys !! target.Keys && moved == Merged(target, source, left)
  {
    moved := target;
    var rest := source.Keys;
    while rest != {}
      invariant rest <= source.Keys
      invariant moved == Merged(target, source, rest)
      invariant (source - rest).Keys !! target.Keys
      decreases |rest|
    {
      var k :| k in rest;
      var pd := source[k];
      if pd.flightId in moved {
        assert k in target;
        left := rest;
        return moved, false, left;
      }
      MergedStep(target, source, rest, k);
      moved := moved[k := pd];
      rest := rest - {k};
    }
    assert source - rest == source;
    left := rest;
    return moved, true, left;
  }

  /** `OnPartWillDie`: exactly that part's entry goes. */
  method OnPartWillDie(vd: VesselData, flightId: nat)
    modifies vd
    ensures vd.parts == old(vd.parts) - {flightId}
    ensures old(vd.PartsConsistent()) ==> vd.PartsConsistent()
    ensures vd.State() == ModifiedStep(old(vd.State()))
    ensures vd.supplies == old(vd.supplies) && vd.scansatId == old(vd.scansatId) && vd.hasVessel == old(vd.hasVessel)
  {
    vd.parts := vd.parts - {flightId};
    vd.UpdateOnVesselModified();
  }
}
