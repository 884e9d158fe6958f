# Kopernicus / Kerbalism-lite core in Dafny

This project models the decision logic at the heart of the Kopernicus celestial-body mod and the
Kerbalism-lite vessel database bundled with it. Each piece is proved against a specification.

- **Occlusion and extinction (`ThermoHelper`).**
  - `ThermoHelper` holds the ray/sphere test and the three early exits of the atmospheric optical depth.
  - It holds the skip-and-short-circuit loops of `OpticalDepth` (with the 200-neper saturation cut-off) and `DirectSunlight`.
  - It sums the flux over all stars.
  - The heat accumulator `KopernicusHeatManager` keeps a running maximum and a running sum.
- **Star selection (`KopernicusStar`).**
  - `GetBrightest` is an argmax in which the first strictly greater value wins.
  - Three walks go up the reference-body chain.
  - The per-star flux guards feed `SunBodyFlux`, which upserts one entry per star into the flux dictionary.
  - `CalculatePhysics` inverts the flux formula.
- **Per-vessel state (`VesselData`).**
  - The `EarlyUpdate`/`Update`/`Evaluate` state machine has a one-second throttle and a forced evaluation when a vessel first becomes simulated.
  - The sun aggregation (`UpdateSunsInfo`) produces per-star infos, totals, the main sun, flux proportions and the clamped sunlight factor.
  - The part and supply dictionaries are moved in place on undock, couple and part death, on the records the handlers look up (or create) in the database.
- **Save database (`DB`).**
  - Safe-key escaping.
  - Version-string sanitising.
  - The uid and vessel map restored by `Load`; `Save`, which skips empty GUIDs.
  - The get-or-create `KerbalismData`.
- **Tick driver (`Kerbalism`).**
  - The warp-blending counter, modelled as a 32-bit unsigned integer with wrap-around.
  - The initialisation flags.
  - `OnLoad`/`OnSave`.
  - The per-vessel loop of `FixedUpdate`: every record gets `EarlyUpdate` first, then each flight vessel gets `Update` and, when simulated and loaded, `Evaluate(false, elapsed_s)`.
- **Generic tree (`IniTreeGeneration`).**
  - `Node<T>`/`Tree<T>` as heap objects.
  - Child-list re-linking through `AddChildren`, `RemoveChildren` and `SetParent`.
  - The pre-order `elements` listing that reuses its storage list.

## Modelling conventions

- **Doubles.** A double is modelled as a Dafny `real`, using the source's literals (0.001, 0.49, 0.1, 0.99, 200, 3.14159265358979).
  - Where the source can produce a non-finite value, the model uses `Double = Num | PosInf | NaN`.
  - Comparisons against NaN are false, as in IEEE 754.
- **Transcendental functions become parameters.**
  - The Chapman-function approximation is `chapman`, assumed to yield a non-negative value.
  - `Math.Exp(-x)` is `expNeg`, assumed to lie between 0 and 1 for x ≥ 0.
  - The visibility, atmosphere factor and raw flux from `Sim` are a `SunSample` per star.
  - `Lib.IsVessel`, `Lib.RandomDouble`, `Lib.RandomInt`, `Time.time` and `System.Version` parsing are parameters.
- **Square roots avoided.** Magnitude comparisons are stated on squared magnitudes. This is exact whenever the radii and depths are non-negative (`ThermoHelper.MagnitudeComparisons`).
- **Identities.**
  - Vessels are identified by `Guid = nat`, and the empty GUID is 0.
  - Parts are identified by their flight id, held in a `PartData` object.
  - Celestial bodies in the star hierarchy are indexed by `nat`, with a parent map and a rank map that witnesses termination.
  - In the occlusion loops a `Body` carries an `id` standing for its `CelestialBody` reference. The test that skips the star compares ids, as the source compares references.
  - `VesselData.hasVessel` records whether the `Vessel` reference is set. The in-flight constructor and `Update` set it; a record built from the save starts without it.
- **Mutable state.**
  - Classes mirror the source's mutable objects: `VesselData`, the `DB` statics (`Database`) and the `Kerbalism` statics (`Kerbalism`).
  - `KerbalismCoreSystems`, `KopernicusHeatManager`'s statics, `KopernicusStar`'s globals (`FluxGlobals`), `Node<T>`, `Tree<T>` and the tree's storage list (`NodeList<T>`) are classes as well.
  - Each method's new state is tied to a specification function of the old state, and the properties are proved about that function.
- **Exceptions.** Every operation that can throw returns a `completed` or `ok` flag. Its contract says exactly when the source throws.

## Model

| member | source | states |
|---|---|---|
| ThermoHelper.MagnitudeComparisons | src/Kopernicus/Components/KopernicusHeatManager.cs:104-105 | comparing a vector's squared magnitude with a squared bound decides exactly the source's comparisons of its magnitude with that bound (both > and <) |
| ThermoHelper.RaycastClosedForm | src/Kopernicus/Components/KopernicusHeatManager.cs:41-45 | the ray hits the sphere iff the squared distance from the sphere centre to the ray's closest point is strictly below radius² |
| ThermoHelper.RaycastScaleInvariant | src/Kopernicus/Components/KopernicusHeatManager.cs:39-45 | scaling the direction by any positive factor does not change the hit result ("automatically normalized") |
| ThermoHelper.ClosestPointScaleInvariant | src/Kopernicus/Components/KopernicusHeatManager.cs:43 | the closest point on the ray is the same for every positive rescaling of a non-zero direction |
| ThermoHelper.RaycastBehindOrigin | src/Kopernicus/Components/KopernicusHeatManager.cs:43-44 | when the sphere is not in front of the ray (dot ≤ 0) the clamp zeroes the closest point and the test is \|sphereRelPos\|² < radius² |
| ThermoHelper.RaycastFromInside | src/Kopernicus/Components/KopernicusHeatManager.cs:41-45 | a ray starting inside the sphere always hits |
| ThermoHelper.RaycastGrazingMisses | src/Kopernicus/Components/KopernicusHeatManager.cs:44 | the test is strict: a ray whose closest approach equals the radius does not hit |
| ThermoHelper.AtmosphericOpticalDepth | src/Kopernicus/Components/KopernicusHeatManager.cs:98-112 | 0 without atmosphere; NaN exactly for a zero direction; +∞ exactly when the body is ahead and the ray passes below the surface; otherwise a non-negative depth |
| ThermoHelper.AtmosphereBranches | src/Kopernicus/Components/KopernicusHeatManager.cs:102-109 | ahead of the ray, passing below the surface is the raycast hit; a ray whose closest altitude exceeds the atmosphere depth never reaches the +∞ branch |
| ThermoHelper.SaturatedWithinMeans | src/Kopernicus/Components/KopernicusHeatManager.cs:139-141 | the loop returns early iff some running sum of depths exceeded 200 |
| ThermoHelper.SaturationPersists | src/Kopernicus/Components/KopernicusHeatManager.cs:140-141 | once saturated, every longer prefix of bodies is still saturated |
| ThermoHelper.OpticalDepth | src/Kopernicus/Components/KopernicusHeatManager.cs:120-144 | the loop, with its skips and early return, computes the specification `OpticalDepthOf` over the body list |
| ThermoHelper.SkippedContribution | src/Kopernicus/Components/KopernicusHeatManager.cs:126-137 | a skipped body changes neither the running depth nor the saturation state |
| ThermoHelper.ContributionProper | src/Kopernicus/Components/KopernicusHeatManager.cs:139 | each body's contribution is a non-negative number or +∞, never NaN |
| ThermoHelper.RunningDepthMonotone | src/Kopernicus/Components/KopernicusHeatManager.cs:139 | the running depth is never NaN and never decreases along the body list |
| ThermoHelper.OpticalDepthSaturation | src/Kopernicus/Components/KopernicusHeatManager.cs:122-143 | the optical depth is +∞ iff the full sum exceeds 200, else that sum; so it is +∞ or lies in [0, 200] |
| ThermoHelper.OpticalDepthWithoutAtmospheres | src/Kopernicus/Components/KopernicusHeatManager.cs:122-143 | with no atmosphere anywhere the optical depth is 0 |
| ThermoHelper.DirectSunlight | src/Kopernicus/Components/KopernicusHeatManager.cs:163-183 | returns true iff no non-skipped body is hit by the ray the code casts (as written, along −delta) |
| ThermoHelper.OcclusionAsWrittenMeansStarInside | src/Kopernicus/Components/KopernicusHeatManager.cs:171-180 | as written, a body occludes iff it is not skipped and the star's centre lies strictly inside it |
| ThermoHelper.StarOutsideNeverOccludes | src/Kopernicus/Components/KopernicusHeatManager.cs:179 | a body whose radius is at most its distance from the star never occludes as written |
| ThermoHelper.BodyOnSegment | src/Kopernicus/Components/KopernicusHeatManager.cs:171-180 | a body centred on the star–observer segment always blocks the intended ray, but blocks the ray as written only when it contains the star centre |
| ThermoHelper.DirectSunlightMissesEclipse | src/Kopernicus/Components/KopernicusHeatManager.cs:163-183 | concrete eclipse: a planet midway between sun and observer; the code reports direct sunlight, the intended test does not |
| ThermoHelper.Transmittance | src/Kopernicus/Components/KopernicusHeatManager.cs:154 | exp(−depth): 0 for an infinite depth, NaN exactly for a NaN depth |
| ThermoHelper.SunlightPercentageRange | src/Kopernicus/Components/KopernicusHeatManager.cs:152-155 | the sunlight percentage is a number in [0, 1], and exactly 0 when the depth saturates |
| ThermoHelper.FluxAt | src/Kopernicus/Components/KopernicusHeatManager.cs:185-194 | the loop's total is the specification sum over all stars of the inverse-square flux times the sunlight percentage |
| ThermoHelper.FluxSumNonNegative | src/Kopernicus/Components/KopernicusHeatManager.cs:187-193 | with non-negative luminosity the total flux is non-negative |
| ThermoHelper.FluxWithoutAtmospheres | src/Kopernicus/Components/KopernicusHeatManager.cs:191 | without atmospheres (and exp(0) = 1) the total flux is the plain inverse-square sum |
| Numerics.FluxFormulaNonNegative | src/Kopernicus/Components/KopernicusStar.cs:473 | L / (4π d²) · fraction is non-negative for non-negative arguments |
| Numerics.InverseSquareLaw | src/Kopernicus/Components/KopernicusStar.cs:473 | doubling the distance (four times its square) quarters the flux |
| HeatManager.NewTempStep | src/Kopernicus/Components/KopernicusHeatManager.cs:201-211 | a positive summed report adds to sumTemp only; every other report leaves sumTemp and raises maxTemp to max(maxTemp, temp) |
| HeatManager.AccumulateMeaning | src/Kopernicus/Components/KopernicusHeatManager.cs:201-211 | after a sequence of reports, maxTemp is the maximum of the start and every max-report, and sumTemp is the start plus the sum of positive summed reports |
| HeatManager.SummedTempsNonNegative | src/Kopernicus/Components/KopernicusHeatManager.cs:203-206 | the summed part never goes negative |
| HeatManager.RadiationTemperatureAtLeastBase | src/Kopernicus/Components/KopernicusHeatManager.cs:216-230 | when handlers only call NewTemp, the radiation temperature is at least the lerped base, and equals it with no reports |
| HeatManager.KopernicusHeatManager.constructor | src/Kopernicus/Components/KopernicusHeatManager.cs:198-199 | both statics start at 0 |
| HeatManager.KopernicusHeatManager.NewTemp | src/Kopernicus/Components/KopernicusHeatManager.cs:201-211 | the new state is NewTempStep of the old state |
| HeatManager.KopernicusHeatManager.RadiationTemperature | src/Kopernicus/Components/KopernicusHeatManager.cs:216-230 | resets to (base, 0), applies the reports in order and returns maxTemp + sumTemp |
| KopernicusStar.ApparentLuminosity | src/Kopernicus/Components/KopernicusStar.cs:119-125 | 0 for a star that gives no light or has no luminosity; otherwise strictly positive (+∞ at zero distance) |
| KopernicusStar.GetBrightest | src/Kopernicus/Components/KopernicusStar.cs:112-133 | null iff no star is eligible; otherwise an eligible star no star outshines, and strictly brighter than every earlier star |
| KopernicusStar.ClimbMeaning | src/Kopernicus/Components/KopernicusStar.cs:506-549 | each walk ends at an ancestor-or-self that either stops the walk or has no reference body, and every body it passed over did not stop it |
| KopernicusStar.WalkUp | src/Kopernicus/Components/KopernicusStar.cs:506-549 | the while loop computes the climb specification, and null stays null |
| KopernicusStar.GetLocalStar | src/Kopernicus/Components/KopernicusStar.cs:506-517 | null iff null; an ancestor-or-self that is a star or has no reference body; a star maps to itself |
| KopernicusStar.GetLocalPlanet | src/Kopernicus/Components/KopernicusStar.cs:538-549 | null iff null; the first ancestor-or-self whose reference body is a star, or the top of the chain |
| KopernicusStar.GetNearestBodyOverSystenRoot | src/Kopernicus/Components/KopernicusStar.cs:522-533 | null iff null; the first ancestor-or-self whose reference body is Bodies[0], or the top of the chain |
| KopernicusStar.AtmosphericFraction | src/Kopernicus/Components/KopernicusStar.cs:472 | the extinction fraction lies in [0, 1] and is 1 when extinction is disabled |
| KopernicusStar.Flux | src/Kopernicus/Components/KopernicusStar.cs:426-482 | 0 for a null integrator, a null or dead vessel, no main body, a null star, a blocked ray or an exception; otherwise the inverse-square formula, between 0 and the unextinguished flux |
| KopernicusStar.FluxFormulaDims | src/Kopernicus/Components/KopernicusStar.cs:472-473 | extinction can only dim the flux: 0 ≤ flux(fraction) ≤ flux(1) |
| KopernicusStar.HomeFluxRoundTrip | src/Kopernicus/Components/KopernicusStar.cs:489-499 | with the luminosity CalculatePhysics derives, the flux formula at the home body's distance gives back SolarLuminosityAtHome |
| KopernicusStar.UpsertedMeaning | src/Kopernicus/Components/KopernicusStar.cs:406-409 | the upserted dictionary has exactly the old keys plus the star names; untouched keys keep their values; each name holds the flux of its last star |
| KopernicusStar.FluxGlobals.CalculatePhysics | src/Kopernicus/Components/KopernicusStar.cs:489-499 | when ready, sets L = SMA²·4π·L_home; otherwise nothing changes |
| KopernicusStar.FluxGlobals.SunBodyFlux | src/Kopernicus/Components/KopernicusStar.cs:375-420 | completes iff the integrator and its Vessel are non-null. On completion, directSunlight holds iff some star's flux is positive, solarFlux is the sum of the fluxes and the home values are Current's. A null integrator throws before the loop, with no upserts. A null Vessel throws after SolarFlux is upserted per star, leaving the last star's home values |
| KopernicusStar.StarsFlux | src/Kopernicus/Components/KopernicusStar.cs:386-410 | the loop computes the flag, the sum and the upserted dictionary of the per-star fluxes, and leaves the last star's home values |
| KopernicusStar.SumPositive | src/Kopernicus/Components/KopernicusStar.cs:402-405 | a sum of non-negative fluxes is non-negative, and positive iff some flux is positive |
| KopernicusStar.DirectSunlightMatchesTotal | src/Kopernicus/Components/KopernicusStar.cs:399-414 | with non-negative luminosity, directSunlight holds iff the total solarFlux is positive |
| KerbalismVessel.SunInfoOf | src/Kopernicus/Components/KERBALISMLITE/Database/VesselData.cs:194-221 | one info per star: sunlight factor 1 iff visible else 0; solarFlux = raw × factor × atmo; proportion = raw / total, or NaN when the total is 0 |
| KerbalismVessel.SunInfos | src/Kopernicus/Components/KERBALISMLITE/Database/VesselData.cs:188-208 | the infos list has one entry per star, in registry order |
| KerbalismVessel.MainSunMeaning | src/Kopernicus/Components/KERBALISMLITE/Database/VesselData.cs:209-214 | no main sun iff no raw flux is positive; otherwise the first star with the greatest, positive raw flux |
| KerbalismVessel.WeightedSunlightShare | src/Kopernicus/Components/KERBALISMLITE/Database/VesselData.cs:217-222 | with a positive raw total, the weighted sunlight is the visible share of the raw flux |
| KerbalismVessel.ProportionsSumToOne | src/Kopernicus/Components/KERBALISMLITE/Database/VesselData.cs:220 | with a positive raw total the flux proportions sum to 1 |
| KerbalismVessel.SunlightFactorShare | src/Kopernicus/Components/KERBALISMLITE/Database/VesselData.cs:217-224 | the vessel sunlight factor is the clamped visible share of the raw flux |
| KerbalismVessel.ClampRange | src/Kopernicus/Components/KERBALISMLITE/Database/VesselData.cs:224 | a share in [0, 1] stays in [0, 1] and never lies in (0.99, 1); above 0.99 it becomes exactly 1 |
| KerbalismVessel.SunlightFactorRange | src/Kopernicus/Components/KERBALISMLITE/Database/VesselData.cs:217-224 | with positive raw flux, the sunlight factor is in [0, 1] and either ≤ 0.99 or exactly 1 |
| KerbalismVessel.SunlightAllVisible | src/Kopernicus/Components/KERBALISMLITE/Database/VesselData.cs:217-224 | every star visible gives sunlight factor exactly 1 |
| KerbalismVessel.SunlightNoneVisible | src/Kopernicus/Components/KERBALISMLITE/Database/VesselData.cs:217-224 | no star visible gives sunlight factor 0 |
| KerbalismVessel.SunlightFactorWithoutFlux | src/Kopernicus/Components/KERBALISMLITE/Database/VesselData.cs:217-224 | with zero raw total and at least one star the factor is NaN (0/0); with no star it stays 0 |
| KerbalismVessel.WeightedNaN | src/Kopernicus/Components/KERBALISMLITE/Database/VesselData.cs:220-221 | once a 0/0 proportion enters the sum, the sum stays NaN |
| KerbalismVessel.SunlightExclusive | src/Kopernicus/Components/KERBALISMLITE/Database/VesselData.cs:120-124 | EnvInSunlight (> 0.49) and EnvInFullShadow (< 0.1) never both hold, and neither holds for NaN |
| KerbalismVessel.CollectSuns | src/Kopernicus/Components/KERBALISMLITE/Database/VesselData.cs:188-215 | the first loop produces the per-star infos, the main sun and both flux totals of the specification |
| KerbalismVessel.WeighSuns | src/Kopernicus/Components/KERBALISMLITE/Database/VesselData.cs:217-222 | the second loop fills in every proportion and computes the weighted sunlight |
| KerbalismVessel.ComputeSuns | src/Kopernicus/Components/KERBALISMLITE/Database/VesselData.cs:183-225 | both loops together compute the specification SunsStep |
| KerbalismVessel.SunsStepOf | src/Kopernicus/Components/KERBALISMLITE/Database/VesselData.cs:183-225 | the new environment is the infos, the main sun (or the previous one when none qualifies), the totals and the clamped factor |
| KerbalismVessel.EvaluateThrottle | src/Kopernicus/Components/KERBALISMLITE/Database/VesselData.cs:285-298 | no-op when not simulated; below one second a non-forced call only accumulates; a run that does not throw resets the accumulator and evaluates once; flags never change |
| KerbalismVessel.ThrottleAccumulates | src/Kopernicus/Components/KERBALISMLITE/Database/VesselData.cs:289-293 | a non-forced call whose accumulated time stays below 1 only adds elapsedSeconds |
| KerbalismVessel.ThrottleEvaluates | src/Kopernicus/Components/KERBALISMLITE/Database/VesselData.cs:292-297 | reaching one second runs the evaluation once and resets the accumulator to 0 |
| KerbalismVessel.ThrottleQuiet | src/Kopernicus/Components/KERBALISMLITE/Database/VesselData.cs:289-293 | k ticks whose total stays below one second just accumulate k × elapsed |
| KerbalismVessel.ThrottleWindow | src/Kopernicus/Components/KERBALISMLITE/Database/VesselData.cs:285-298 | over k ticks an evaluation happens iff the accumulated time reaches one second |
| KerbalismVessel.UpdateTransition | src/Kopernicus/Components/KERBALISMLITE/Database/VesselData.cs:250-270 | Update sets ExistsInFlight and IsSimulated := IsVessel; a forced evaluation happens exactly on the false→true transition, never when already simulated |
| KerbalismVessel.ModifiedStep | src/Kopernicus/Components/KERBALISMLITE/Database/VesselData.cs:348-355 | a status evaluation happens iff the vessel is simulated; nothing else changes |
| KerbalismVessel.PartsPartition | src/Kopernicus/Components/KERBALISMLITE/Database/VesselData.cs:368-377 | the parts moved and the parts kept are disjoint and together make up the old map |
| KerbalismVessel.PartsSplitConsistent | src/Kopernicus/Components/KERBALISMLITE/Database/VesselData.cs:368-377 | both halves keep every entry filed under its own flight id |
| KerbalismVessel.SplitParts | src/Kopernicus/Components/KERBALISMLITE/Database/VesselData.cs:368-377 | the loop moves exactly the entries whose ids are parts of the new vessel |
| KerbalismVessel.NewParts | src/Kopernicus/Components/KERBALISMLITE/Database/VesselData.cs:450-457 | one fresh PartData per part id, filed under its own id |
| KerbalismVessel.MergedBounds | src/Kopernicus/Components/KERBALISMLITE/Database/VesselData.cs:411-414 | a partial merge keeps every target entry and adds only source entries |
| KerbalismVessel.MergeParts | src/Kopernicus/Components/KERBALISMLITE/Database/VesselData.cs:411-414 | the loop of Add calls succeeds iff the key sets are disjoint, giving target + source; a throw leaves a partial merge |
| KerbalismVessel.OnDecoupleOrUndock | src/Kopernicus/Components/KERBALISMLITE/Database/VesselData.cs:365-380 | the handler after its two lookups, on the records they hand over: the new vessel's map becomes exactly the old entries among its parts; the old map keeps the rest; both records re-evaluate status if simulated |
| KerbalismVessel.OnPartCouple | src/Kopernicus/Components/KERBALISMLITE/Database/VesselData.cs:397-421 | the handler after its two lookups, on the records they hand over: same record: adds the part only if absent; otherwise succeeds iff keys are disjoint, moving every entry, emptying the source and clearing supplies and scansat ids |
| KerbalismVessel.OnPartWillDie | src/Kopernicus/Components/KERBALISMLITE/Database/VesselData.cs:430-431 | the handler after its lookup, on the record it hands over: removes exactly that part's key and re-evaluates status if simulated |
| KerbalismVessel.VesselData.FromVessel | src/Kopernicus/Components/KERBALISMLITE/Database/VesselData.cs:440-464 | a new record found in flight, not simulated, with one PartData per part |
| KerbalismVessel.VesselData.FromProtoVessel | src/Kopernicus/Components/KERBALISMLITE/Database/VesselData.cs:471-494 | a new record not in flight, not simulated, with one PartData per proto-part |
| KerbalismVessel.VesselData.EarlyUpdate | src/Kopernicus/Components/KERBALISMLITE/Database/VesselData.cs:244-247 | only ExistsInFlight becomes false |
| KerbalismVessel.VesselData.Update | src/Kopernicus/Components/KERBALISMLITE/Database/VesselData.cs:250-270 | the new state is UpdateStep, and the call completes iff the forced evaluation does not throw |
| KerbalismVessel.VesselData.CheckIfSimulated | src/Kopernicus/Components/KERBALISMLITE/Database/VesselData.cs:272-278 | stores and returns the Lib.IsVessel result |
| KerbalismVessel.VesselData.Evaluate | src/Kopernicus/Components/KERBALISMLITE/Database/VesselData.cs:285-298 | the new state is EvaluateStep; the call throws iff the evaluation runs and the environment throws |
| KerbalismVessel.VesselData.EvaluateEnvironment | src/Kopernicus/Components/KERBALISMLITE/Database/VesselData.cs:574-615 | updates the sun fields; throws iff there is still no main sun to read |
| KerbalismVessel.VesselData.EvaluateStatus | src/Kopernicus/Components/KERBALISMLITE/Database/VesselData.cs:557-570 | counts one status evaluation and changes nothing else |
| KerbalismVessel.VesselData.UpdateSunsInfo | src/Kopernicus/Components/KERBALISMLITE/Database/VesselData.cs:183-225 | the sun fields become SunsStep of the old ones |
| KerbalismVessel.VesselData.UpdateOnVesselModified | src/Kopernicus/Components/KERBALISMLITE/Database/VesselData.cs:348-355 | the new state is ModifiedStep of the old |
| KerbalismVessel.VesselData.GetPartData | src/Kopernicus/Components/KERBALISMLITE/Database/VesselData.cs:36-53 | an existing entry is returned unchanged; otherwise it throws exactly when `Vessel` is null or the id occurs more than once among the vessel's parts; a missing id of a vessel part gets a fresh entry (which stays even when the second `Add` throws); any other id gives null and no change |
| KerbalismVessel.VesselData.Supply | src/Kopernicus/Components/KERBALISMLITE/Database/VesselData.cs:547-554 | get-or-create: an existing entry is returned and never replaced |
| KerbalismDB.SafeKeyHasNoSpace | src/Kopernicus/Components/KERBALISMLITE/Database/DB.cs:132 | To_safe_key's output never contains a space |
| KerbalismDB.SafeKeyOfSpaceless | src/Kopernicus/Components/KERBALISMLITE/Database/DB.cs:132 | a key without spaces is its own safe key |
| KerbalismDB.SafeKeyRoundTrip | src/Kopernicus/Components/KERBALISMLITE/Database/DB.cs:132-133 | From_safe_key(To_safe_key(s)) == s for every s without '_' |
| KerbalismDB.SafeKeyCollision | src/Kopernicus/Components/KERBALISMLITE/Database/DB.cs:132-133 | with '_' the round trip can fail: "_ " and " _" share the safe key "____" |
| KerbalismDB.Split | src/Kopernicus/Components/KERBALISMLITE/Database/DB.cs:15 | String.Split gives at least one piece, and no piece contains the separator |
| KerbalismDB.JoinSplit | src/Kopernicus/Components/KERBALISMLITE/Database/DB.cs:15 | joining the pieces of a split with the separator gives back the string |
| KerbalismDB.SplitJoin | src/Kopernicus/Components/KERBALISMLITE/Database/DB.cs:15 | splitting a join of separator-free pieces gives back the pieces |
| KerbalismDB.SanitizeVersionMeaning | src/Kopernicus/Components/KERBALISMLITE/Database/DB.cs:15 | with more than two components, the result is a prefix whose components are the first two; otherwise the string is unchanged |
| KerbalismDB.SanitizeVersionIdempotent | src/Kopernicus/Components/KERBALISMLITE/Database/DB.cs:15 | sanitising twice is sanitising once |
| KerbalismDB.LoadAsWrittenKeepsUid | src/Kopernicus/Components/KERBALISMLITE/Database/DB.cs:19-22 | as written, a version above 1.2 keeps the previous uid whatever the save stores |
| KerbalismDB.LoadAsWrittenStaleUid | src/Kopernicus/Components/KERBALISMLITE/Database/DB.cs:19-22 | concrete: version 1.3, previous uid 5, stored uid 7: the code keeps 5 |
| KerbalismDB.SavedIds | src/Kopernicus/Components/KERBALISMLITE/Database/DB.cs:81-93 | at most one vessel node per proto-vessel |
| KerbalismDB.SavedIdsAreThePersisted | src/Kopernicus/Components/KERBALISMLITE/Database/DB.cs:81-93 | the saved vessel nodes are exactly the non-empty GUIDs of the flight state |
| KerbalismDB.NotUniqueExtends | src/Kopernicus/Components/KERBALISMLITE/Database/DB.cs:34-46 | once two proto-vessels share a GUID, every longer list does too, so the Add that throws stops the loading loop for good |
| KerbalismDB.LoadVessels | src/Kopernicus/Components/KERBALISMLITE/Database/DB.cs:34-46 | succeeds iff the non-empty GUIDs are distinct, then holds one fresh record per non-empty GUID; each record is filed under its proto-vessel's GUID, holds one part entry per proto-part id of that proto-vessel, has no Vessel and default state. On a repeated GUID it stops with the records of the proto-vessels before it |
| KerbalismDB.LoadStopped | src/Kopernicus/Components/KERBALISMLITE/Database/DB.cs:34-46 | the loop stopped at a GUID already filed holds the records of the proto-vessels before it, and the GUIDs are not unique |
| KerbalismDB.LoadFinished | src/Kopernicus/Components/KERBALISMLITE/Database/DB.cs:34-46 | the loop run to the end holds one record per persisted GUID, all unique |
| KerbalismDB.Database.constructor | src/Kopernicus/Components/KERBALISMLITE/Database/DB.cs:137 | the vessel map starts empty |
| KerbalismDB.Database.Load | src/Kopernicus/Components/KERBALISMLITE/Database/DB.cs:10-67 | the version is parsed from the sanitised stored version (an unparsable one throws, changing nothing); the uid is the stored one or a fresh random one, whatever the version (the corrected reading of lines 19-22, see Findings); the map is cleared, then refilled from the flight state, each record holding exactly its proto-vessel's part ids |
| KerbalismDB.Database.Save | src/Kopernicus/Components/KERBALISMLITE/Database/DB.cs:69-98 | completes iff the game has a flight state; without one only the version, the uid and an empty vessels node are written and the records stay; with one, one node per non-empty GUID, and get-or-create adds only the missing records, each holding its proto-vessel's part ids, and keeps existing ones |
| KerbalismDB.Database.VesselKerbalismData | src/Kopernicus/Components/KERBALISMLITE/Database/DB.cs:100-110 | get-or-create: an existing record is returned unchanged; otherwise exactly one new in-flight record is added, filed under the id, with one part entry per part id of the vessel and default state |
| KerbalismDB.Database.ProtoVesselKerbalismData | src/Kopernicus/Components/KERBALISMLITE/Database/DB.cs:112-122 | get-or-create from a proto-vessel: an existing record is returned unchanged; otherwise exactly one new record is added, filed under the id, with one part entry per proto-part id, no Vessel and default state |
| KerbalismDB.Database.KerbalismIsValid | src/Kopernicus/Components/KERBALISMLITE/Database/DB.cs:125-128 | the record's IsSimulated, which is false for a newly created record |
| KerbalismDB.Database.OnDecoupleOrUndock | src/Kopernicus/Components/KERBALISMLITE/Database/VesselData.cs:358-384 | both vessels get their records through KerbalismData(), which files a fresh record for a vessel without one; then the new vessel's map is exactly the old vessel's handed-over entries among the new vessel's parts, the old map keeps the rest, both records re-evaluate status, every other record is untouched, and uid and version stay |
| KerbalismDB.Database.OnPartCouple | src/Kopernicus/Components/KERBALISMLITE/Database/VesselData.cs:387-425 | both vessels get their records through KerbalismData(), creating missing ones; one record: the part is added only if absent; two records: succeeds iff the handed-over key sets are disjoint, then the target holds both maps, the source is empty and the target's supplies and scan ids are cleared; a clash leaves a partial merge; every other record is untouched |
| KerbalismDB.Database.OnPartWillDie | src/Kopernicus/Components/KERBALISMLITE/Database/VesselData.cs:427-433 | the part's vessel gets its record through KerbalismData(), creating a missing one; that record loses exactly the part's entry and re-evaluates status; every other record is untouched |
| KerbalismSystem.WarpStep | src/Kopernicus/Components/KERBALISMLITE/System/Kerbalism.cs:173-176 | the counter resets when the step size changed by less than 0.001, else increments with 32-bit wrap-around |
| KerbalismSystem.CounterCountsChanges | src/Kopernicus/Components/KERBALISMLITE/System/Kerbalism.cs:173-176 | the counter counts the changed steps since the last unchanged one |
| KerbalismSystem.CounterBound | src/Kopernicus/Components/KERBALISMLITE/System/Kerbalism.cs:173-176 | without wrap-around, n steps raise the counter by at most n |
| KerbalismSystem.CounterSplit | src/Kopernicus/Components/KERBALISMLITE/System/Kerbalism.cs:173-179 | running the counter over two step sequences equals running it over their concatenation, since elapsed_s carries the last step |
| KerbalismSystem.BlendingMeansThreeChanges | src/Kopernicus/Components/KERBALISMLITE/System/Kerbalism.cs:56 | WarpBlending holds iff each of the last three steps changed the step size |
| KerbalismSystem.BlendingWrapsAround | src/Kopernicus/Components/KERBALISMLITE/System/Kerbalism.cs:173-176 | at uint.MaxValue one more change wraps the counter to 0 and ends the blending |
| KerbalismSystem.FlagsMeaning | src/Kopernicus/Components/KERBALISMLITE/System/Kerbalism.cs:87-103 | IsCoreGameInitDone stays true after the first OnLoad; IsCoreMainMenuInitDone after the first Start; IsSaveGameInitDone holds iff the last event was an OnLoad |
| KerbalismSystem.FlightTickMeaning | src/Kopernicus/Components/KERBALISMLITE/System/Kerbalism.cs:197-214 | the loop body leaves the record in flight with IsSimulated = IsVessel; an unloaded vessel only gets Update; a simulated loaded vessel gets Evaluate(false, elapsed_s) |
| KerbalismSystem.TickStatesUntouched | src/Kopernicus/Components/KERBALISMLITE/System/Kerbalism.cs:188-233 | a record of no flight vessel only gets EarlyUpdate |
| KerbalismSystem.TickStatesKeys | src/Kopernicus/Components/KERBALISMLITE/System/Kerbalism.cs:194-197 | after the loop the map holds the old ids plus one per flight vessel |
| KerbalismSystem.TickStatesTicked | src/Kopernicus/Components/KERBALISMLITE/System/Kerbalism.cs:194-233 | each flight vessel's record is its loop body applied to its early-updated (or new) record |
| KerbalismSystem.TickStatesMeaning | src/Kopernicus/Components/KERBALISMLITE/System/Kerbalism.cs:188-233 | the whole tick: the keys, the untouched records, and the ticked records together |
| KerbalismSystem.Kerbalism.constructor | src/Kopernicus/Components/KERBALISMLITE/System/Kerbalism.cs:40-59 | all flags false, the counter and the uid 0 |
| KerbalismSystem.Kerbalism.OnLoad | src/Kopernicus/Components/KERBALISMLITE/System/Kerbalism.cs:84-136 | sets the init flags and loads the database (a failure is caught): on an unparsable version nothing in the database changes; otherwise the version is the parsed one, the uid the stored (or random) one, and the records are none without a FLIGHTSTATE node, else one fresh saved record per persisted GUID, stopping at the first repeated GUID. Then savegame_uid == DB.uid and gameLoadTime is the given time. DB.uid is the one the corrected `Database.Load` reads (see Findings), so for a save newer than 1.2 this differs from the code as written |
| KerbalismSystem.Kerbalism.OnSave | src/Kopernicus/Components/KERBALISMLITE/System/Kerbalism.cs:138-146 | disabled: nothing is written and the records stay; enabled without a flight state: DB.Save throws after writing the version, the uid and no vessel node, and the records stay; enabled with one: the node holds the version, the uid and the saved GUIDs in order, the kept records are the same objects, each new record is a fresh record of its proto-vessel, and uid and version stay |
| KerbalismSystem.Kerbalism.FixedUpdate | src/Kopernicus/Components/KERBALISMLITE/System/Kerbalism.cs:160-258 | paused: nothing changes, neither the map, the states, the counter, nor any record's parts, supplies, scan ids or Vessel reference; otherwise the counter steps, elapsed_s := fixedDeltaTime, the records' states end as TickStates, and the tick completes iff no loop body throws (PassesComplete); existing records are kept as the same objects, and uid and version stay |
| KerbalismSystem.KerbalismCoreSystems.Start | src/Kopernicus/Components/KERBALISMLITE/System/Kerbalism.cs:17-28 | resets IsSaveGameInitDone, sets IsCoreMainMenuInitDone, touches nothing else |
| KerbalismSystem.EarlyUpdateAll | src/Kopernicus/Components/KERBALISMLITE/System/Kerbalism.cs:188-191 | every record in the database gets EarlyUpdate (EarlyStates of the old states), and keeps its parts, supplies, scan ids and Vessel reference |
| KerbalismSystem.FlightLoop | src/Kopernicus/Components/KERBALISMLITE/System/Kerbalism.cs:194-233 | the vessel loop ends with TickStates when it completes, and completes iff no loop body throws; existing records are kept as the same objects; uid and version stay |
| KerbalismSystem.FlightPass | src/Kopernicus/Components/KERBALISMLITE/System/Kerbalism.cs:196-232 | one pass files the vessel's record; it extends TickStates and PassesComplete by one vessel, or, when the body throws, the loop as a whole does not complete |
| KerbalismSystem.TickRecord | src/Kopernicus/Components/KERBALISMLITE/System/Kerbalism.cs:196-232 | get-or-create the vessel's record, then run its loop body on it: completes iff FlightTick does not throw from the record's state, and then only that record's state changes, to FlightTick; the records' holdings and references change as PassEffect says; version stays |
| KerbalismSystem.GetRecord | src/Kopernicus/Components/KERBALISMLITE/System/Kerbalism.cs:197 | KerbalismData() for a flight vessel: an existing record is returned untouched, with every record's state, holdings and reference; a missing one is created fresh with the new-vessel state, one part entry per part of the vessel, no supplies or scan ids, and its Vessel reference set |
| KerbalismSystem.TickFiled | src/Kopernicus/Components/KERBALISMLITE/System/Kerbalism.cs:200-214 | running the loop body on a filed record updates exactly that entry of the state map, sets its Vessel reference, and keeps every record's parts, supplies and scan ids |
| KerbalismSystem.RunRecord | src/Kopernicus/Components/KERBALISMLITE/System/Kerbalism.cs:200-214 | Update, then Evaluate when simulated and loaded: the record's new state is FlightTick, it throws exactly when FlightTickThrows holds, its Vessel reference is set, and its parts, supplies and scan ids stay |
| KerbalismSystem.PassesCompleteMeaning | src/Kopernicus/Components/KERBALISMLITE/System/Kerbalism.cs:194-233 | the first k passes complete iff no flight vessel's loop body among them throws from its start state |
| KerbalismSystem.PassesStop | src/Kopernicus/Components/KERBALISMLITE/System/Kerbalism.cs:196-232 | a throwing loop body ends the tick: no longer run of passes completes |
| KerbalismSystem.TickedStep | src/Kopernicus/Components/KERBALISMLITE/System/Kerbalism.cs:194-233 | a pass with PassEffect extends Ticked by one vessel: old records keep their holdings, new ones hold their vessel's parts, unmet records keep their reference |
| KerbalismSystem.TickedWiden | src/Kopernicus/Components/KERBALISMLITE/System/Kerbalism.cs:194-233 | records of vessels not yet met are untouched, so Ticked after k passes also holds against the whole vessel list |
| KerbalismSystem.PassesTicked | src/Kopernicus/Components/KERBALISMLITE/System/Kerbalism.cs:194-233 | a run of passes each with PassEffect, as TickRecord ensures, leaves old records' holdings unchanged, new records holding their vessel's parts, records of unmet ids with their reference, and every met vessel referenced |
| IniTree.FirstIndex | src/Kopernicus/IniTreeGeneration.cs:120 | the index of the first occurrence of a node in a child list |
| IniTree.RemoveFirst | src/Kopernicus/IniTreeGeneration.cs:120 | List.Remove: unchanged when absent; otherwise drops exactly the first occurrence, one element shorter, one copy fewer |
| IniTree.RemoveFirstAfterAppend | src/Kopernicus/IniTreeGeneration.cs:102-120 | removing a node just appended to a list that did not contain it gives back the list |
| IniTree.RemoveFirstKeepsDuplicate | src/Kopernicus/IniTreeGeneration.cs:120 | a node listed twice is still a child after one removal |
| IniTree.ReparentOrder | src/Kopernicus/IniTreeGeneration.cs:109-114 | re-adding a node listed once moves it to the end, once, without losing other children |
| IniTree.Node.constructor | src/Kopernicus/IniTreeGeneration.cs:90-94 | a root node with an empty child list |
| IniTree.Node.WithParent | src/Kopernicus/IniTreeGeneration.cs:95-100 | the new node has an empty child list, and is its parent's last child with the parent link set |
| IniTree.Node.AddChildren | src/Kopernicus/IniTreeGeneration.cs:102-108 | appends the element as last child, creating the list if null, and sets its parent |
| IniTree.Node.RemoveChildren | src/Kopernicus/IniTreeGeneration.cs:115-121 | nothing without a list; otherwise nulls the element's parent even if it is not a child, and removes its first occurrence |
| IniTree.Node.SetParent | src/Kopernicus/IniTreeGeneration.cs:109-114 | parent becomes the element; the node is its last child; its first occurrence is removed from the old parent's list; the node's own children, the element's parent and item, and the old parent's parent and item stay as they were |
| IniTree.PreOrder | src/Kopernicus/IniTreeGeneration.cs:76-82 | the listing starts with the node, and every later entry lies strictly lower in the tree |
| IniTree.Forest | src/Kopernicus/IniTreeGeneration.cs:79-81 | the children's listings lie strictly below the parent |
| IniTree.PreOrderLength | src/Kopernicus/IniTreeGeneration.cs:63-82 | the listing's length is the subtree size |
| IniTree.PreOrderRankFree | src/Kopernicus/IniTreeGeneration.cs:63-74 | the listing depends on the tree alone, not on the witness of acyclicity, so repeated accesses agree |
| IniTree.ChildBlock | src/Kopernicus/IniTreeGeneration.cs:76-82 | each child's subtree is one contiguous block of the parent's listing, after its earlier siblings' blocks |
| IniTree.Tree.Elements | src/Kopernicus/IniTreeGeneration.cs:63-74 | returns the storage list (the same object on every access after the first), holding the pre-order listing of the root |
| IniTree.Tree.AddNodesToList | src/Kopernicus/IniTreeGeneration.cs:76-82 | appends exactly the node's pre-order listing |
| IniTree.Tree.AddSubtreesToList | src/Kopernicus/IniTreeGeneration.cs:79-81 | the foreach appends the children's listings in list order |

## Left out

- The Chapman-function approximation, `MagicIntegrationA/B`, the log-ratio scale height, `Math.Exp`, `ClosestPoint`'s square root and `UtilMath.Lerp`: transcendental floating-point maths. They are parameters that carry only the sign and range facts the branches need.
- Floating-point rounding: doubles are exact reals, and the 0.99 clamp is modelled but the rounding it guards against is not.
- ThermoHelper.AtmosphericOpticalDepth: the value past the early exits is the `chapman` parameter times the density, not the Chapman approximation itself.
- ThermoHelper.FluxAt: requires the position to differ from every star's centre, where the source divides by zero.
- KopernicusStar.Flux: requires the vessel to be away from the star and the ray-hit distance to be non-zero. The scaled-space transforms and `Physics.Raycast` result are a `Sight` parameter per star.
- KopernicusStar.FluxGlobals.SunBodyFlux: `BaseFICalculateSunBodyFlux`, whose results the source discards, is not modelled.
  - For a non-null integrator that foreign call is taken not to throw. For a null integrator it throws, and the model reports that.
  - A null `Vessel` throws when the flag is reapplied, and the model reports that too.
- `KopernicusStar` `Awake`/`Start`/`LateUpdate`, the sun flare, the scatter culler and `GetLocalTimeAtPosition`: rendering and trigonometry, outside this model.
- KerbalismVessel.VesselData.EvaluateEnvironment: the vessel position is not modelled, so the distance < 1.0 throw is not either.
  - The null `mainSun` dereference is modelled; it throws while no star has ever given positive raw flux.
  - The `Sim.*`/`Lib.*` situation queries are foreign calls and are left out.
- KerbalismVessel.VesselData.EvaluateStatus: `Lib.IsPowered` and the solar-panel exposure average are foreign calls. The model counts the evaluations instead.
- `VesselData.ResourceUpdate`, `ResourceCache`, `VesselResources.Sync` and `Background.Update`: resource simulation, not part of this model.
- `mainSun` aliases one `SunInfo` object of `sunsInfo`. The model stores `SunInfo` as a value. After the proportion loop it equals that list entry (KerbalismVessel.SunsStepOf), and when no star qualifies it is the previous value. Later in-place writes through one alias are not represented.
- `VesselData`'s ConfigNode `Load`/`Save` bodies and `FieldsDefaultInit`: persistence of the record's other fields. A record restored from a save is modelled with its defaults.
- KerbalismVessel.VesselData.FromVessel: requires distinct part ids. With duplicates the source's `Dictionary.Add` throws, and the model does not represent a throwing constructor.
- KerbalismVessel.VesselData.FromProtoVessel: requires distinct proto-part ids, for the same reason.
- KerbalismDB.Database.Save: requires distinct part ids for every proto-vessel of a present flight state, for the same reason (a record may be created on the way).
- KerbalismDB.Database.Load: requires distinct part ids for every proto-vessel, since each becomes a record through the proto-vessel constructor. A duplicate would throw inside the loop, and that throw is not represented.
- KerbalismDB.LoadVessels: requires distinct part ids for every proto-vessel, for the same reason.
- KerbalismDB.Database.VesselKerbalismData: requires distinct part ids when the record is missing, because it is then built by the in-flight constructor.
- KerbalismDB.Database.ProtoVesselKerbalismData: requires distinct part ids when the record is missing, for the same reason (proto-vessel constructor).
- KerbalismDB.Database.OnDecoupleOrUndock, KerbalismDB.Database.OnPartCouple and KerbalismDB.Database.OnPartWillDie: require distinct part ids for a vessel without a record, for the same reason (through `VesselKerbalismData`).
- KerbalismDB.Database.OnPartCouple: also requires the two vessels' existing records to file each part under its own flight id. Every constructor and handler keeps this, since each `Add` uses the part's `flightID`.
- KerbalismDB.Database.KerbalismIsValid: requires distinct part ids when the record is missing, for the same reason (through `VesselKerbalismData`).
- KerbalismSystem.Kerbalism.OnLoad: inherits `Database.Load`'s distinct-part-ids requires. `OnLoad` would catch a duplicate-part failure inside `DB.Load`, but the model does not represent that failure.
- KerbalismSystem.Kerbalism.OnLoad: its uid clause follows the corrected `Database.Load` (see Findings). As written, a save newer than 1.2 leaves `DB.uid`, and so `savegame_uid`, at the previous game's value (KerbalismDB.LoadAsWrittenKeepsUid).
- KerbalismSystem.Kerbalism.OnSave: inherits `Database.Save`'s distinct-part-ids requires. The game's handling of the throw on a missing flight state is not modelled; the model reports it as `!completed`.
- KerbalismSystem.Kerbalism.FixedUpdate: requires distinct part ids for every flight vessel, because a vessel without a record gets one from the in-flight constructor.
- KerbalismSystem.FlightLoop, KerbalismSystem.FlightPass, KerbalismSystem.TickRecord and KerbalismSystem.GetRecord: the same requires, inherited from `FixedUpdate`'s loop.
- KerbalismSystem.Kerbalism.FixedUpdate: also requires the flight vessels' GUIDs to be distinct (`DistinctVessels`). The game holds each vessel once in `FlightGlobals.Vessels`, so this excludes no real input. A repeated id would tick its one record twice in the source.
- KerbalismSystem.Kerbalism.FixedUpdate, KerbalismSystem.FlightLoop and KerbalismSystem.FlightPass: when a loop body throws, the contracts state only that existing record objects are kept. The records' states after the throw are not stated, although in the source every vessel before the throwing one has already been ticked.
- KerbalismSystem.Kerbalism.FixedUpdate: does not restate, over the whole vessel loop, that the records keep their parts, supplies and scan ids, that only flight vessels get new records, and that each met vessel's record has its Vessel reference set. Each pass states this (`TickRecord`'s `PassEffect`), and `PassesTicked` composes it over a run of passes, but the loop's invariant does not carry it, because that proof grows too expensive for the verifier.
- KerbalismSystem.FlightLoop and KerbalismSystem.FlightPass: the same gap as `FixedUpdate`, for the same reason.
- KerbalismDB.Database.Load: the `drives` conversion block (lines 50-66) only fills a local dictionary that is then dropped, so it has no effect and is left out.
  - `System.Version` parsing is a parameter.
  - The version is compared only against 1.2.
- `Misc.ClearLocks`, `Cache`, the load-failure popup, `Sim.Init` and `Time.time`: UI and caches. The time is a parameter.
- KerbalismSystem.Kerbalism.FixedUpdate: the background block (lines 238-257) is not modelled because `last_v` starts null and is never assigned, so it never runs.
- `IniTreeGeneration.Awake`: scene plumbing that indexes an empty list.
- IniTree.Tree.Elements: requires a root and a witness of acyclicity. With no root the source throws a null reference, and on a cyclic tree its recursion does not terminate.
- IniTree.Node.SetParent and IniTree.Node.AddChildren: the element reference is non-null; the source throws on null.
- IniTree.Node.WithParent: the parent reference is non-null; `new Node(item, null)` throws in the source (lines 95-100).
- Concurrency and Unity event ordering: the game calls everything on one thread, and each operation is modelled as one atomic step.

### Where the model follows the code rather than its documentation

- When every star's raw flux is 0, `UpdateSunsInfo` divides 0 by 0. The flux proportions and the sunlight factor become NaN, not 0 (KerbalismVessel.SunlightFactorWithoutFlux).
- The ray/sphere test is strict. A ray tangent to a body does not hit it (ThermoHelper.RaycastGrazingMisses).

## Findings

| source | as written | input that shows it | evidently intended | confidence | as-written member | corrected member |
|---|---|---|---|---|---|---|
| src/Kopernicus/Components/KopernicusHeatManager.cs:179 | `DirectSunlight` casts the ray from the star along −delta. Seen from the star, that points away from the observer, so a body between star and observer only occludes when it contains the star's centre | sun at (1,2,3) with radius 0.5; planet at (3,4,5) with radius 1, midway; observer at (5,6,7): the planet eclipses the sun, yet `DirectSunlight` returns true | the ray points from the star toward the observer (+delta), so any non-skipped body on the segment blocks the light | not executed | ThermoHelper.DirectSunlightMissesEclipse | ThermoHelper.BodyOnSegment |
| src/Kopernicus/Components/KERBALISMLITE/Database/DB.cs:19-22 | the log call after `if (version <= new Version(1, 2))` is commented out, so the `uid = …` assignment became the body of the `if`. Saves newer than 1.2 never restore their uid | version "1.3", previous uid 5, stored uid 7: uid stays 5 | the uid is read from the save (or generated) whatever the version | not executed | KerbalismDB.LoadAsWrittenStaleUid | KerbalismDB.Database.Load |
