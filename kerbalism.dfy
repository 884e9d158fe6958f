/** The scenario module `Kerbalism` and the main-menu add-on `KerbalismCoreSystems`
  * (src/Kopernicus/Components/KERBALISMLITE/System/Kerbalism.cs): the initialisation flags, the
  * savegame id check of `OnLoad`, and the physics tick `FixedUpdate` that detects warp blending
  * and drives every vessel record.
  *
  * The static members of `Kerbalism` become the fields of one object, which also holds the
  * database. What the game supplies (whether it is paused, `TimeWarp.fixedDeltaTime`, the
  * vessels of `FlightGlobals.Vessels` and what the simulation helpers compute for them,
  * `Time.time`) is given to the model as parameters. */
module KerbalismSystem {
  import opened Numerics
  import opened KerbalismVessel
  import opened KerbalismDB

  // ---------------------------------------------------------------- Warp blending

  /** Range of the C# `uint` counter. */
  const UintRange: nat := 0x1_0000_0000

  type Uint32 = x: nat | x < UintRange

  /** The tolerance under which two consecutive fixed time steps count as equal. */
  const StepTolerance: real := 0.001

  /** One `FixedUpdate` on the blending counter: reset by a step equal (within the tolerance) to
    * the previous one, incremented, with `uint` wrap-around, by any other. */
  function WarpStep(counter: Uint32, previousStep: real, fixedDeltaTime: real): (r: Uint32)
    ensures Abs(fixedDeltaTime - previousStep) < StepTolerance ==> r == 0
    ensures Abs(fixedDeltaTime - previousStep) >= StepTolerance && counter + 1 < UintRange ==> r == counter + 1
    ensures Abs(fixedDeltaTime - previousStep) >= StepTolerance && counter + 1 == UintRange ==> r == 0
  {
    if Abs(fixedDeltaTime - previousStep) < StepTolerance then 0 else (counter + 1) % UintRange
  }

  /** `WarpBlending`: the counter is above 2. */
  predicate Blending(counter: Uint32)
  {
    counter > 2
  }

  /** The counter after the fixed time steps `steps`, starting from `counter` with `previousStep`
    * the value of `elapsed_s`. */
  function CounterAfter(counter: Uint32, previousStep: real, steps: seq<real>): Uint32
    decreases |steps|
  {
    if |steps| == 0 then counter
    else CounterAfter(WarpStep(counter, previousStep, steps[0]), steps[0], steps[1..])
  }

  /** Whether the step `steps[i]` differs from the one before it (`previousStep` for the first). */
  predicate ChangedAt(previousStep: real, steps: seq<real>, i: nat)
    requires i < |steps|
  {
    Abs(steps[i] - (if i == 0 then previousStep else steps[i - 1])) >= StepTolerance
  }

  /** Without wrap-around the counter is the number of consecutive changed steps at the end:
    * after a steady step it restarts from 0 and each changed step adds one. */
  lemma {:induction false} CounterCountsChanges(counter: Uint32, previousStep: real, steps: seq<real>)
    requires counter + |steps| < UintRange
    ensures (forall i :: 0 <= i < |steps| ==> ChangedAt(previousStep, steps, i)) ==>
      CounterAfter(counter, previousStep, steps) == counter + |steps|
    ensures forall i :: 0 <= i < |steps| && !ChangedAt(previousStep, steps, i) ==>
      CounterAfter(counter, previousStep, steps) <= |steps| - 1 - i
    decreases |steps|
  {
    if |steps| > 0 {
      var c := WarpStep(counter, previousStep, steps[0]);
      var rest := steps[1..];
      CounterCountsChanges(c, steps[0], rest);
      assert forall j :: 0 <= j < |rest| ==> (ChangedAt(steps[0], rest, j) <==> ChangedAt(previousStep, steps, j + 1));
      if forall i :: 0 <= i < |steps| ==> ChangedAt(previousStep, steps, i) {
        assert ChangedAt(previousStep, steps, 0);
        assert c == counter + 1;
        assert forall j :: 0 <= j < |rest| ==> ChangedAt(steps[0], rest, j);
      }
      forall i | 0 <= i < |steps| && !ChangedAt(previousStep, steps, i)
        ensures CounterAfter(counter, previousStep, steps) <= |steps| - 1 - i
      {
        if i == 0 {
          assert c == 0;
          CounterBound(c, steps[0], rest);
        } else {
          assert !ChangedAt(steps[0], rest, i - 1);
        }
      }
    }
  }

  /** The counter grows by at most one a step. */
  lemma {:induction false} CounterBound(counter: Uint32, previousStep: real, steps: seq<real>)
    requires counter + |steps| < UintRange
    ensures CounterAfter(counter, previousStep, steps) <= counter + |steps|
    decreases |steps|
  {
    if |steps| > 0 {
      CounterBound(WarpStep(counter, previousStep, steps[0]), steps[0], steps[1..]);
    }
  }

  /** Warp blending after three or more steps: it holds when each of the last three steps
    * changed the step size, and fails when one of them did not. */
  lemma {:induction false} BlendingMeansThreeChanges(counter: Uint32, previousStep: real, steps: seq<real>)
    requires counter + |steps| < UintRange && |steps| >= 3
    ensures Blending(CounterAfter(counter, previousStep, steps))
      <==> forall i :: |steps| - 3 <= i < |steps| ==> ChangedAt(previousStep, steps, i)
  {
    var n := |steps|;
    var k := n - 3;
    var front := steps[..k];
    var back := steps[k..];
    CounterSplit(counter, previousStep, front, back);
    var c := CounterAfter(counter, previousStep, front);
    CounterBound(counter, previousStep, front);
    var p := if k == 0 then previousStep else steps[k - 1];
    assert steps == front + back;
    assert forall i :: 0 <= i < 3 ==> (ChangedAt(p, back, i) <==> ChangedAt(previousStep, steps, k + i));
    CounterCountsChanges(c, p, back);
    if forall i :: k <= i < n ==> ChangedAt(previousStep, steps, i) {
      assert forall i :: 0 <= i < 3 ==> ChangedAt(p, back, i);
    } else {
      var i :| k <= i < n && !ChangedAt(previousStep, steps, i);
      assert !ChangedAt(p, back, i - k);
    }
  }

  /** The steps can be taken in two runs. */
  lemma {:induction false} CounterSplit(counter: Uint32, previousStep: real, front: seq<real>, back: seq<real>)
    ensures CounterAfter(counter, previousStep, front + back)
      == CounterAfter(CounterAfter(counter, previousStep, front),
                      if |front| == 0 then previousStep else front[|front| - 1], back)
    decreases |front|
  {
    if |front| == 0 {
      assert front + back == back;
    } else {
      var c := WarpStep(counter, previousStep, front[0]);
      assert (front + back)[0] == front[0] && (front + back)[1..] == front[1..] + back;
      CounterSplit(c, front[0], front[1..], back);
      if |front| > 1 {
        assert front[1..][|front| - 2] == front[|front| - 1];
      }
    }
  }

  /** The wrap-around: after 2^32 - 1 changed steps the next one takes the counter back to 0, so
    * blending stops although the step size keeps changing. */
  lemma {:induction false} BlendingWrapsAround(previousStep: real, fixedDeltaTime: real)
    requires Abs(fixedDeltaTime - previousStep) >= StepTolerance
    ensures Blending(UintRange - 1) && !Blending(WarpStep(UintRange - 1, previousStep, fixedDeltaTime))
  {
  }

  // ---------------------------------------------------------------- Initialisation flags

  datatype InitFlags = InitFlags(coreMainMenuInitDone: bool, coreGameInitDone: bool, saveGameInitDone: bool)

  /** The two lifecycle calls that touch the flags. */
  datatype LifecycleEvent = GameLoaded | MainMenuStarted

  /** `OnLoad`: both the one-time game init and the savegame init are done afterwards. */
  function OnLoadFlags(f: InitFlags): InitFlags
  {
    f.(coreGameInitDone := true, saveGameInitDone := true)
  }

  /** `KerbalismCoreSystems.Start`: the savegame init is undone and the main menu init done. */
  function StartFlags(f: InitFlags): InitFlags
  {
    f.(saveGameInitDone := false, coreMainMenuInitDone := true)
  }

  function FlagsAfter(f: InitFlags, events: seq<LifecycleEvent>): InitFlags
    decreases |events|
  {
    if |events| == 0 then f
    else
      var g := FlagsAfter(f, events[..|events| - 1]);
      if events[|events| - 1] == GameLoaded then OnLoadFlags(g) else StartFlags(g)
  }

  /** The one-time flags: each is set by its own event and never cleared again; the savegame
    * flag says whether the last of the events was a load. */
  lemma {:induction false} FlagsMeaning(f: InitFlags, events: seq<LifecycleEvent>)
    ensures FlagsAfter(f, events).coreGameInitDone <==> f.coreGameInitDone || GameLoaded in events
    ensures FlagsAfter(f, events).coreMainMenuInitDone <==> f.coreMainMenuInitDone || MainMenuStarted in events
    ensures FlagsAfter(f, events).saveGameInitDone
      <==> if |events| == 0 then f.saveGameInitDone else events[|events| - 1] == GameLoaded
    decreases |events|
  {
    if |events| > 0 {
      var front := events[..|events| - 1];
      FlagsMeaning(f, front);
      assert events == front + [events[|events| - 1]];
    }
  }

  // ---------------------------------------------------------------- The vessel loop

  /** One vessel of `FlightGlobals.Vessels`: its id, the flight ids of its parts, what
    * `Lib.IsVessel` says of it, whether it is loaded, the `Lib.RandomDouble` its record would
    * draw and the star samples at its position. */
  datatype FlightVessel = FlightVessel(vesselId: Guid, partIds: seq<nat>, isVessel: bool, loaded: bool,
                                       randomElapsed: real, samples: seq<SunSample>)

  /** The holdings of a record `KerbalismData()` has just created for the flight vessel `v`: one
    * part entry per part of the vessel, no supplies and no scan ids. */
  predicate NewFlightHoldings(h: RecordHoldings, v: FlightVessel)
  {
    h.parts.Keys == IdSet(v.partIds) && Consistent(h.parts) && h.supplies == map[] && h.scansatId == []
  }

  /** A record at the start of the flight loop: after `EarlyUpdate` when it existed, else new. */
  function StartState(states: map<Guid, VesselState>, id: Guid): VesselState
  {
    if id in states then EarlyStep(states[id]) else NewVesselState
  }

  /** What the loop body does to the record of one flight vessel: `Update`, then a non-forced
    * `Evaluate(false, elapsed_s)` when the record is simulated and the vessel loaded. */
  function FlightTick(s: VesselState, v: FlightVessel, elapsed: real): VesselState
  {
    var u := UpdateStep(s, v.isVessel, v.randomElapsed, v.samples);
    if u.isSimulated && v.loaded then EvaluateStep(u, false, elapsed, v.samples) else u
  }

  /** Whether the loop body throws for that vessel. */
  predicate FlightTickThrows(s: VesselState, v: FlightVessel, elapsed: real)
  {
    var u := UpdateStep(s, v.isVessel, v.randomElapsed, v.samples);
    UpdateThrows(s, v.isVessel, v.samples)
    || (u.isSimulated && v.loaded && EvaluationRuns(u, false, elapsed) && EnvironmentThrows(u, v.samples))
  }

  /** After the tick a flight vessel's record is present in flight and simulated exactly when
    * `Lib.IsVessel` holds; an invalid vessel, or one not loaded, gets no non-forced evaluation. */
  lemma {:induction false} FlightTickMeaning(s: VesselState, v: FlightVessel, elapsed: real)
    ensures var r := FlightTick(s, v, elapsed);
      r.existsInFlight && r.isSimulated == v.isVessel && r.isVessel == v.isVessel
    ensures !v.isVessel ==> FlightTick(s, v, elapsed).statusEvaluations == s.statusEvaluations
    ensures !v.loaded ==> FlightTick(s, v, elapsed) == UpdateStep(s, v.isVessel, v.randomElapsed, v.samples)
    ensures v.isVessel && s.isSimulated && v.loaded ==>
      FlightTick(s, v, elapsed) == EvaluateStep(s.(existsInFlight := true, isVessel := true), false, elapsed, v.samples)
  {
    UpdateTransition(s, v.isVessel, v.randomElapsed, v.samples);
    var u := UpdateStep(s, v.isVessel, v.randomElapsed, v.samples);
    EvaluateThrottle(u, false, elapsed, v.samples);
  }

  /** The ids of the first `k` flight vessels. */
  function FlightIds(vs: seq<FlightVessel>, k: nat): set<Guid>
    requires k <= |vs|
  {
    set i | 0 <= i < k :: vs[i].vesselId
  }

  /** The flight vessels' ids are distinct (`FlightGlobals.Vessels` holds each vessel once):
    * no vessel's id is among those before it. */
  predicate DistinctVessels(vs: seq<FlightVessel>)
  {
    forall k :: 0 <= k < |vs| ==> vs[k].vesselId !in FlightIds(vs, k)
  }

  /** Distinct ids pairwise: two vessels at different places have different ids. */
  lemma {:induction false} DistinctVesselsPairwise(vs: seq<FlightVessel>, i: nat, j: nat)
    requires DistinctVessels(vs) && i < j < |vs|
    ensures vs[i].vesselId != vs[j].vesselId
  {
    assert vs[i].vesselId in FlightIds(vs, j);
  }

  /** The ids of a prefix are among those of a longer one. */
  lemma {:induction false} FlightIdsGrow(vs: seq<FlightVessel>, k: nat, j: nat)
    requires k <= j <= |vs|
    ensures FlightIds(vs, k) <= FlightIds(vs, j)
  {
  }

  /** `EarlyUpdate` on every record. */
  function EarlyStates(states: map<Guid, VesselState>): map<Guid, VesselState>
  {
    map g | g in states :: EarlyStep(states[g])
  }

  /** The records' states after the first loop and the first `k` passes of the flight loop over
    * `vs`, from the states `before` the tick. */
  function TickStates(before: map<Guid, VesselState>, vs: seq<FlightVessel>, k: nat, elapsed: real): map<Guid, VesselState>
    requires k <= |vs|
    decreases k
  {
    if k == 0 then EarlyStates(before)
    else
      var v := vs[k - 1];
      TickStates(before, vs, k - 1, elapsed)[v.vesselId := FlightTick(StartState(before, v.vesselId), v, elapsed)]
  }

  /** A vessel not yet reached by the flight loop still has its start state. */
  lemma {:induction false} TickStatesUntouched(before: map<Guid, VesselState>, vs: seq<FlightVessel>, k: nat, elapsed: real, id: Guid)
    requires k <= |vs| && id !in FlightIds(vs, k)
    ensures id in TickStates(before, vs, k, elapsed) <==> id in before
    ensures id in before ==> TickStates(before, vs, k, elapsed)[id] == StartState(before, id)
    decreases k
  {
    if k > 0 {
      assert vs[k - 1].vesselId in FlightIds(vs, k);
      assert FlightIds(vs, k - 1) <= FlightIds(vs, k);
      TickStatesUntouched(before, vs, k - 1, elapsed, id);
    }
  }

  /** The next flight vessel, not met before in the loop, starts from its start state. */
  lemma {:induction false} TickStatesNext(before: map<Guid, VesselState>, vs: seq<FlightVessel>, k: nat, elapsed: real)
    requires k < |vs| && vs[k].vesselId !in FlightIds(vs, k)
    ensures var current := TickStates(before, vs, k, elapsed);
      StartState(before, vs[k].vesselId) == if vs[k].vesselId in current then current[vs[k].vesselId] else NewVesselState
  {
    TickStatesUntouched(before, vs, k, elapsed, vs[k].vesselId);
  }

  /** The flight ids grow by one vessel per pass. */
  lemma FlightIdsNext(vs: seq<FlightVessel>, k: nat)
    requires 0 < k <= |vs|
    ensures FlightIds(vs, k) == FlightIds(vs, k - 1) + {vs[k - 1].vesselId}
  {
    forall g | g in FlightIds(vs, k) ensures g in FlightIds(vs, k - 1) + {vs[k - 1].vesselId} {
      var j :| 0 <= j < k && vs[j].vesselId == g;
      if j < k - 1 {
        assert g in FlightIds(vs, k - 1);
      }
    }
  }

  /** After `k` passes the records are those before the tick and the first `k` flight vessels'. */
  lemma {:induction false} TickStatesKeys(before: map<Guid, VesselState>, vs: seq<FlightVessel>, k: nat, elapsed: real)
    requires k <= |vs|
    ensures TickStates(before, vs, k, elapsed).Keys == before.Keys + FlightIds(vs, k)
    decreases k
  {
    if k > 0 {
      TickStatesKeys(before, vs, k - 1, elapsed);
      FlightIdsNext(vs, k);
    }
  }

  /** Each of the first `k` flight vessels' records was ticked once, from its start state. */
  lemma {:induction false} TickStatesTicked(before: map<Guid, VesselState>, vs: seq<FlightVessel>, k: nat, elapsed: real)
    requires k <= |vs| && DistinctVessels(vs)
    ensures forall i :: 0 <= i < k ==>
      && vs[i].vesselId in TickStates(before, vs, k, elapsed)
      && TickStates(before, vs, k, elapsed)[vs[i].vesselId] == FlightTick(StartState(before, vs[i].vesselId), vs[i], elapsed)
    decreases k
  {
    if k > 0 {
      TickStatesTicked(before, vs, k - 1, elapsed);
      var v := vs[k - 1];
      var cur := TickStates(before, vs, k, elapsed);
      assert cur == TickStates(before, vs, k - 1, elapsed)[v.vesselId := FlightTick(StartState(before, v.vesselId), v, elapsed)];
      forall i | 0 <= i < k
        ensures vs[i].vesselId in cur && cur[vs[i].vesselId] == FlightTick(StartState(before, vs[i].vesselId), vs[i], elapsed)
      {
        if i < k - 1 {
          DistinctVesselsPairwise(vs, i, k - 1);
        }
      }
    }
  }

  /** The tick's effect on the records, vessel by vessel: every record present (the flight
    * vessels' ones created when missing), each flight vessel's record ticked once from its start
    * state, and every other record only marked absent from flight. */
  lemma TickStatesMeaning(before: map<Guid, VesselState>, vs: seq<FlightVessel>, k: nat, elapsed: real)
    requires k <= |vs| && DistinctVessels(vs)
    ensures TickStates(before, vs, k, elapsed).Keys == before.Keys + FlightIds(vs, k)
    ensures forall g :: g in before && g !in FlightIds(vs, k) ==> TickStates(before, vs, k, elapsed)[g] == EarlyStep(before[g])
    ensures forall i :: 0 <= i < k ==>
      TickStates(before, vs, k, elapsed)[vs[i].vesselId] == FlightTick(StartState(before, vs[i].vesselId), vs[i], elapsed)
  {
    TickStatesKeys(before, vs, k, elapsed);
    TickStatesTicked(before, vs, k, elapsed);
    forall g | g in before && g !in FlightIds(vs, k)
      ensures TickStates(before, vs, k, elapsed)[g] == EarlyStep(before[g])
    {
      TickStatesUntouched(before, vs, k, elapsed, g);
    }
  }

  /** The evaluation state of every record. */
  ghost function States(m: map<Guid, VesselData>): map<Guid, VesselState>
    reads m.Values
  {
    map g | g in m :: m[g].State()
  }

  /** Filing one more record adds its state. */
  lemma {:induction false} StatesUpdate(m: map<Guid, VesselData>, id: Guid, vd: VesselData)
    requires id !in m
    ensures States(m[id := vd]) == States(m)[id := vd.State()]
  {
  }

  /** The holdings of every record. */
  ghost function Holdings(m: map<Guid, VesselData>): map<Guid, RecordHoldings>
    reads m.Values
  {
    map g | g in m :: m[g].Holdings()
  }

  /** The ids of the records whose `Vessel` reference is set. */
  ghost function Attached(m: map<Guid, VesselData>): set<Guid>
    reads m.Values
  {
    set g | g in m && m[g].hasVessel
  }

  /** Filing one more record adds its holdings, and its id when its reference is set. */
  lemma {:induction false} HoldingsUpdate(m: map<Guid, VesselData>, id: Guid, vd: VesselData)
    requires id !in m
    ensures Holdings(m[id := vd]) == Holdings(m)[id := vd.Holdings()]
    ensures Attached(m[id := vd]) == if vd.hasVessel then Attached(m) + {id} else Attached(m)
  {
  }

  /** After the record `vd`, filed under `id`, is ticked, the records stand as before (`s0`,
    * `h0`, `a0`) except for `vd`'s state and its reference now set, when no other record
    * changed. */
  lemma {:induction false} RecordsKept(m: map<Guid, VesselData>, id: Guid, vd: VesselData, s0: map<Guid, VesselState>,
                                       h0: map<Guid, RecordHoldings>, a0: set<Guid>)
    requires id in m && m[id] == vd && s0.Keys == m.Keys && h0.Keys == m.Keys && a0 <= m.Keys
    requires forall g :: g in m && g != id ==>
      m[g].State() == s0[g] && m[g].Holdings() == h0[g] && (m[g].hasVessel <==> g in a0)
    requires vd.Holdings() == h0[id] && vd.hasVessel
    ensures States(m) == s0[id := vd.State()]
    ensures Holdings(m) == h0
    ensures Attached(m) == a0 + {id}
  {
  }

  /** After `EarlyUpdate` on every record, the records' states are those before (`s0`) stepped
    * once, and their holdings (`h0`) and references (`a0`) are kept. */
  lemma {:induction false} RecordsEarly(m: map<Guid, VesselData>, s0: map<Guid, VesselState>,
                                        h0: map<Guid, RecordHoldings>, a0: set<Guid>)
    requires s0.Keys == m.Keys && h0.Keys == m.Keys && a0 <= m.Keys
    requires forall g :: g in m ==>
      m[g].State() == EarlyStep(s0[g]) && m[g].Holdings() == h0[g] && (m[g].hasVessel <==> g in a0)
    ensures States(m) == EarlyStates(s0)
    ensures Holdings(m) == h0
    ensures Attached(m) == a0
  {
  }

  /** The two steps of a pass, `GetRecord` then `TickFiled`, seen on the holdings and
    * references, make up `PassEffect`. */
  lemma {:induction false} PassOfSteps(h0: map<Guid, RecordHoldings>, a0: set<Guid>, h1: map<Guid, RecordHoldings>,
                                       a1: set<Guid>, x: RecordHoldings, h: map<Guid, RecordHoldings>, a: set<Guid>,
                                       v: FlightVessel)
    requires v.vesselId in h0 ==> h1 == h0 && a1 == a0
    requires v.vesselId !in h0 ==> h1 == h0[v.vesselId := x] && NewFlightHoldings(x, v) && a1 == a0 + {v.vesselId}
    requires h == h1 && a == a1 + {v.vesselId}
    ensures PassEffect(h0, a0, h, a, v)
  {
  }

  /** A second update of the same key overrides the first. */
  lemma {:induction false} UpdateTwice<K, V>(m: map<K, V>, k: K, x: V, y: V)
    ensures m[k := x][k := y] == m[k := y]
  {
  }

  /** One pass of the flight loop for vessel `v`, seen on the records' holdings and references
    * (`h0`, `a0` before, `h`, `a` after): the vessel's record is created when missing, holding
    * the vessel's parts; it gets its reference set; every other record keeps both. */
  predicate PassEffect(h0: map<Guid, RecordHoldings>, a0: set<Guid>, h: map<Guid, RecordHoldings>, a: set<Guid>,
                       v: FlightVessel)
  {
    && h.Keys == h0.Keys + {v.vesselId}
    && (forall g :: g in h0 ==> h[g] == h0[g])
    && (v.vesselId !in h0 ==> NewFlightHoldings(h[v.vesselId], v))
    && a == a0 + {v.vesselId}
  }

  /** The records' holdings `h` and references `a` after the first `k` passes of the flight loop
    * over `vs`, from `h0` and `a0`: no record goes, and the only new ids are flight vessels';
    * no existing record's holdings change, and a record created for a flight vessel holds that
    * vessel's parts and nothing else; a record of no flight vessel met keeps its reference. */
  predicate Ticked(h: map<Guid, RecordHoldings>, a: set<Guid>, h0: map<Guid, RecordHoldings>, a0: set<Guid>,
                   vs: seq<FlightVessel>, k: nat)
    requires k <= |vs|
  {
    && h0.Keys <= h.Keys <= h0.Keys + FlightIds(vs, k)
    && (forall g :: g in h0 ==> h[g] == h0[g])
    && (forall g :: g in h0 && g !in FlightIds(vs, k) ==> (g in a <==> g in a0))
    && (forall j :: 0 <= j < k && vs[j].vesselId !in h0 && vs[j].vesselId in h ==> NewFlightHoldings(h[vs[j].vesselId], vs[j]))
  }

  /** One more pass extends `Ticked` by one vessel, since the ids are distinct. */
  lemma {:induction false} TickedStep(h0: map<Guid, RecordHoldings>, a0: set<Guid>, hp: map<Guid, RecordHoldings>, ap: set<Guid>,
                                      h: map<Guid, RecordHoldings>, a: set<Guid>, vs: seq<FlightVessel>, k: nat)
    requires k < |vs| && DistinctVessels(vs)
    requires Ticked(hp, ap, h0, a0, vs, k) && PassEffect(hp, ap, h, a, vs[k])
    ensures Ticked(h, a, h0, a0, vs, k + 1)
  {
    FlightIdsNext(vs, k + 1);
    forall j | 0 <= j < k + 1 && vs[j].vesselId !in h0 && vs[j].vesselId in h
      ensures NewFlightHoldings(h[vs[j].vesselId], vs[j])
    {
      if j < k {
        assert vs[j].vesselId in FlightIds(vs, k);
      }
    }
  }

  /** A loop stopped after `k` passes has met no later vessel's record, since the ids are
    * distinct. */
  lemma {:induction false} TickedWiden(h: map<Guid, RecordHoldings>, a: set<Guid>, h0: map<Guid, RecordHoldings>, a0: set<Guid>,
                                       vs: seq<FlightVessel>, k: nat)
    requires k <= |vs| && DistinctVessels(vs) && Ticked(h, a, h0, a0, vs, k)
    ensures Ticked(h, a, h0, a0, vs, |vs|)
  {
    forall j | k <= j < |vs|
      ensures vs[j].vesselId !in FlightIds(vs, k)
    {
      FlightIdsGrow(vs, k, j);
    }
  }

  /** The flight loop seen as the trace of its passes, `hs[j]` and `refs[j]` being the records'
    * holdings and references before pass `j`: when each pass has `PassEffect`, which
    * `TickRecord` ensures of every pass, the records after `k` passes stand as `Ticked` says, and
    * every vessel met has its record's reference set. */
  lemma {:induction false} PassesTicked(hs: seq<map<Guid, RecordHoldings>>, refs: seq<set<Guid>>, vs: seq<FlightVessel>, k: nat)
    requires k <= |vs| && |hs| == k + 1 && |refs| == k + 1 && DistinctVessels(vs)
    requires forall j :: 0 <= j < k ==> PassEffect(hs[j], refs[j], hs[j + 1], refs[j + 1], vs[j])
    ensures Ticked(hs[k], refs[k], hs[0], refs[0], vs, k)
    ensures forall j :: 0 <= j < k ==> vs[j].vesselId in refs[k]
    decreases k
  {
    if k > 0 {
      PassesTicked(hs[..k], refs[..k], vs, k - 1);
      TickedStep(hs[0], refs[0], hs[k - 1], refs[k - 1], hs[k], refs[k], vs, k - 1);
    }
  }

  /** Whether none of the first `k` passes of the flight loop over `vs` throws, from the states
    * `before` the tick. */
  predicate PassesComplete(before: map<Guid, VesselState>, vs: seq<FlightVessel>, k: nat, elapsed: real)
    requires k <= |vs|
    decreases k
  {
    k == 0 || (PassesComplete(before, vs, k - 1, elapsed) &&
               !FlightTickThrows(StartState(before, vs[k - 1].vesselId), vs[k - 1], elapsed))
  }

  /** The first `k` passes complete exactly when the tick of none of their vessels, from its start
    * state, throws. */
  lemma {:induction false} PassesCompleteMeaning(before: map<Guid, VesselState>, vs: seq<FlightVessel>, k: nat, elapsed: real)
    requires k <= |vs|
    ensures PassesComplete(before, vs, k, elapsed) <==>
      forall j :: 0 <= j < k ==> !FlightTickThrows(StartState(before, vs[j].vesselId), vs[j], elapsed)
    decreases k
  {
    if k > 0 {
      PassesCompleteMeaning(before, vs, k - 1, elapsed);
    }
  }

  /** A pass that throws stops every longer run of passes from completing. */
  lemma {:induction false} PassesStop(before: map<Guid, VesselState>, vs: seq<FlightVessel>, k: nat, n: nat, elapsed: real)
    requires k < n <= |vs| && FlightTickThrows(StartState(before, vs[k].vesselId), vs[k], elapsed)
    ensures !PassesComplete(before, vs, n, elapsed)
    decreases n
  {
    if n > k + 1 {
      PassesStop(before, vs, k, n - 1, elapsed);
    }
  }

  class Kerbalism {
    var isCoreMainMenuInitDone: bool
    var isCoreGameInitDone: bool
    var isSaveGameInitDone: bool
    var elapsedS: real
    var warpBlending: Uint32
    var savegameUid: Int32
    var gameLoadTime: real
    const db: Database

    constructor (db: Database)
      ensures this.db == db
      ensures Flags() == InitFlags(false, false, false) && warpBlending == 0 && savegameUid == 0
    {
      this.db := db;
      isCoreMainMenuInitDone := false;
      isCoreGameInitDone := false;
      isSaveGameInitDone := false;
      elapsedS := 0.0;
      warpBlending := 0;
      savegameUid := 0;
      gameLoadTime := 0.0;
    }

    function Flags(): InitFlags
      reads this
    {
      InitFlags(isCoreMainMenuInitDone, isCoreGameInitDone, isSaveGameInitDone)
    }

    function WarpBlending(): bool
      reads this
    {
      Blending(warpBlending)
    }

    /** `OnLoad(node)`, with the node's values and the game's proto-vessels as for `DB.Load`
      * and `Time.time` given. A failing `DB.Load` is caught (the popup is only built). */
    method OnLoad(storedVersion: Option<string>, currentVersion: string, parse: string -> Option<Version>,
                  storedUid: Option<Int32>, randomUid: Int32, flightState: Option<seq<ProtoVesselInfo>>, time: real)
      requires db.Valid()
      requires 0 <= randomUid as int < IntMaxValue
      requires flightState.Some? ==> forall i :: 0 <= i < |flightState.value| ==> Distinct(flightState.value[i].partIds)
      modifies this, db
      ensures Flags() == OnLoadFlags(old(Flags()))
      ensures db.Valid() && savegameUid == db.uid && gameLoadTime == time
      ensures var parsed := parse(SanitizeVersion(ConfigValue(storedVersion, currentVersion)));
        && (parsed.None? ==> db.version == old(db.version) && db.uid == old(db.uid) && db.vessels == old(db.vessels))
        && (parsed.Some? ==>
              && db.version == parsed.value && db.uid == ConfigValue(storedUid, randomUid)
              && forall g :: g in db.vessels ==> fresh(db.vessels[g]))
        && (parsed.Some? && flightState.None? ==> db.vessels == map[])
        && (parsed.Some? && flightState.Some? ==>
              && LoadedAs(db.vessels, UniqueIds(flightState.value), flightState.value)
              && forall g :: g in db.vessels ==> SavedRecord(db.vessels[g], g, flightState.value))
      ensures elapsedS == old(elapsedS) && warpBlending == old(warpBlending)
    {
      if !isCoreGameInitDone {
        isCoreGameInitDone := true;
      }
      if !isSaveGameInitDone {
        isSaveGameInitDone := true;
      }
      var loaded := db.Load(storedVersion, currentVersion, parse, storedUid, randomUid, flightState);
      if db.uid != savegameUid {
        savegameUid := db.uid;
      }
      gameLoadTime := time;
    }

    /** `OnSave(node)`: nothing when the module is disabled, else `DB.Save`, which throws
      * (`!completed`) when the game has no flight state. */
    method OnSave(enabled: bool, currentVersion: string, flightState: Option<seq<ProtoVesselInfo>>)
      returns (node: Option<SavedNode>, completed: bool)
      requires db.Valid()
      requires flightState.Some? ==> forall i :: 0 <= i < |flightState.value| ==> Distinct(flightState.value[i].partIds)
      modifies db
      ensures db.Valid() && db.uid == old(db.uid) && db.version == old(db.version)
      ensures completed <==> !enabled || flightState.Some?
      ensures !enabled ==> node.None? && db.vessels == old(db.vessels)
      ensures enabled && flightState.None? ==>
        node == Some(SavedNode(currentVersion, db.uid, [])) && db.vessels == old(db.vessels)
      ensures enabled && flightState.Some? ==>
        node == Some(SavedNode(currentVersion, db.uid, SavedIds(flightState.value)))
      ensures enabled && flightState.Some? ==>
        db.vessels.Keys == old(db.vessels).Keys + PersistedIds(flightState.value)
      ensures forall g :: g in old(db.vessels) ==> db.vessels[g] == old(db.vessels)[g]
      ensures enabled && flightState.Some? ==> forall g :: g in db.vessels && g !in old(db.vessels) ==>
        fresh(db.vessels[g]) && SavedRecord(db.vessels[g], g, flightState.value)
    {
      if !enabled {
        return None, true;
      }
      var saved;
      saved, completed := db.Save(currentVersion, flightState);
      node := Some(saved);
    }

    /** `FixedUpdate()`. `completed` is false when an `Update` or `Evaluate` throws, which
      * abandons the rest of the tick. The background block is never reached: `last_v` is never
      * assigned. */
    method FixedUpdate(paused: bool, fixedDeltaTime: real, vessels: seq<FlightVessel>) returns (completed: bool)
      requires db.Valid() && DistinctVessels(vessels)
      requires forall i :: 0 <= i < |vessels| ==> Distinct(vessels[i].partIds)
      modifies this, db, db.vessels.Values
      ensures db.Valid()
      ensures paused ==>
        && completed && elapsedS == old(elapsedS) && warpBlending == old(warpBlending)
        && db.vessels == old(db.vessels) && States(db.vessels) == old(States(db.vessels))
      ensures paused ==> forall g :: g in db.vessels ==>
        db.vessels[g].Holdings() == old(db.vessels[g].Holdings()) && db.vessels[g].hasVessel == old(db.vessels[g].hasVessel)
      ensures !paused ==>
        && warpBlending == WarpStep(old(warpBlending), old(elapsedS), fixedDeltaTime)
        && elapsedS == fixedDeltaTime
      ensures !paused && completed ==>
        States(db.vessels) == TickStates(old(States(db.vessels)), vessels, |vessels|, fixedDeltaTime)
      ensures forall g :: g in old(db.vessels) ==> g in db.vessels && db.vessels[g] == old(db.vessels)[g]
      ensures !paused ==>
        (completed <==> PassesComplete(old(States(db.vessels)), vessels, |vessels|, fixedDeltaTime))
      ensures Flags() == old(Flags()) && savegameUid == old(savegameUid) && db.uid == old(db.uid)
      ensures db.version == old(db.version)
    {
      ghost var before := States(db.vessels);
      if paused {
        return true;
      }
      warpBlending := WarpStep(warpBlending, elapsedS, fixedDeltaTime);
      elapsedS := fixedDeltaTime;
      assert States(db.vessels) == before;
      EarlyUpdateAll(db);
      completed := FlightLoop(db, vessels, elapsedS, before);
    }
  }

  /** The main-menu add-on `KerbalismCoreSystems`; the flags it writes are the static ones of
    * `Kerbalism`, here those of the one `Kerbalism` object. */
  class KerbalismCoreSystems {
    const kerbalism: Kerbalism

    constructor (kerbalism: Kerbalism)
      ensures this.kerbalism == kerbalism
    {
      this.kerbalism := kerbalism;
    }

    /** `Start()`, run each time the main menu is shown. */
    method Start()
      modifies kerbalism
      ensures kerbalism.Flags() == StartFlags(old(kerbalism.Flags()))
      ensures kerbalism.elapsedS == old(kerbalism.elapsedS) && kerbalism.warpBlending == old(kerbalism.warpBlending)
      ensures kerbalism.savegameUid == old(kerbalism.savegameUid) && kerbalism.gameLoadTime == old(kerbalism.gameLoadTime)
    {
      kerbalism.isSaveGameInitDone := false;
      if !kerbalism.isCoreMainMenuInitDone {
        kerbalism.isCoreMainMenuInitDone := true;
      }
    }
  }

  /** The first loop of `FixedUpdate`: `EarlyUpdate` on every record. */
  method EarlyUpdateAll(db: Database)
    requires db.Valid()
    modifies db.vessels.Values
    ensures States(db.vessels) == EarlyStates(old(States(db.vessels)))
    ensures Holdings(db.vessels) == old(Holdings(db.vessels)) && Attached(db.vessels) == old(Attached(db.vessels))
  {
    ghost var s0, h0, a0 := States(db.vessels), Holdings(db.vessels), Attached(db.vessels);
    var rest := db.vessels.Keys;
    while rest != {}
      invariant rest <= db.vessels.Keys
      invariant forall g :: g in db.vessels ==>
        db.vessels[g].State() == if g in rest then old(db.vessels[g].State()) else EarlyStep(old(db.vessels[g].State()))
      invariant forall g :: g in db.vessels ==>
        db.vessels[g].Holdings() == old(db.vessels[g].Holdings()) && db.vessels[g].hasVessel == old(db.vessels[g].hasVessel)
      decreases rest
    {
      var g :| g in rest;
      db.vessels[g].EarlyUpdate();
      rest := rest - {g};
    }
    RecordsEarly(db.vessels, s0, h0, a0);
  }

  /** The second loop of `FixedUpdate`, over `FlightGlobals.Vessels`, from the records' states
    * `before` the first loop. */
  method FlightLoop(db: Database, vessels: seq<FlightVessel>, elapsed: real, ghost before: map<Guid, VesselState>)
    returns (completed: bool)
    requires db.Valid() && DistinctVessels(vessels)
    requires forall i :: 0 <= i < |vessels| ==> Distinct(vessels[i].partIds)
    requires States(db.vessels) == EarlyStates(before)
    modifies db, db.vessels.Values
    ensures db.Valid() && db.uid == old(db.uid) && db.version == old(db.version)
    ensures forall g :: g in old(db.vessels) ==> g in db.vessels && db.vessels[g] == old(db.vessels)[g]
    ensures completed ==> States(db.vessels) == TickStates(before, vessels, |vessels|, elapsed)
    ensures completed <==> PassesComplete(before, vessels, |vessels|, elapsed)
  {
    completed := true;
    for i := 0 to |vessels|
      invariant db.Valid() && db.uid == old(db.uid) && db.version == old(db.version)
      invariant forall g :: g in old(db.vessels) ==> g in db.vessels && db.vessels[g] == old(db.vessels)[g]
      invariant forall g :: g in db.vessels && g !in old(db.vessels) ==> fresh(db.vessels[g])
      invariant States(db.vessels) == TickStates(before, vessels, i, elapsed)
      invariant PassesComplete(before, vessels, i, elapsed)
    {
      completed := FlightPass(db, vessels, i, elapsed, before);
      if !completed {
        return;
      }
    }
  }

  /** Pass `i` of the flight loop, in terms of the loop's progress: after it the records' states
    * are those after `i + 1` passes when it completes; when it throws, the loop as a whole does
    * not complete. */
  method FlightPass(db: Database, vessels: seq<FlightVessel>, i: nat, elapsed: real, ghost before: map<Guid, VesselState>)
    returns (completed: bool)
    requires i < |vessels| && db.Valid() && DistinctVessels(vessels) && Distinct(vessels[i].partIds)
    requires States(db.vessels) == TickStates(before, vessels, i, elapsed)
    requires PassesComplete(before, vessels, i, elapsed)
    modifies db, db.vessels.Values
    ensures db.Valid() && db.uid == old(db.uid) && db.version == old(db.version)
    ensures forall g :: g in old(db.vessels) ==> g in db.vessels && db.vessels[g] == old(db.vessels)[g]
    ensures forall g :: g in db.vessels && g !in old(db.vessels) ==> fresh(db.vessels[g])
    ensures db.vessels.Keys == old(db.vessels).Keys + {vessels[i].vesselId}
    ensures completed ==> States(db.vessels) == TickStates(before, vessels, i + 1, elapsed)
    ensures completed ==> PassesComplete(before, vessels, i + 1, elapsed)
    ensures !completed ==> !PassesComplete(before, vessels, |vessels|, elapsed)
  {
    assert vessels[i].vesselId !in FlightIds(vessels, i);
    TickStatesNext(before, vessels, i, elapsed);
    completed := TickRecord(db, vessels[i], elapsed);
    if !completed {
      PassesStop(before, vessels, i, |vessels|, elapsed);
    }
  }

  /** One pass of the flight loop of `FixedUpdate` for vessel `v`: the record, created when
    * missing, is ticked. */
  method TickRecord(db: Database, v: FlightVessel, elapsed: real) returns (completed: bool)
    requires db.Valid() && Distinct(v.partIds)
    modifies db, db.vessels.Values
    ensures db.Valid() && db.uid == old(db.uid)
    ensures forall g :: g in old(db.vessels) ==> g in db.vessels && db.vessels[g] == old(db.vessels)[g]
    ensures db.vessels.Keys == old(db.vessels).Keys + {v.vesselId}
    ensures v.vesselId !in old(db.vessels) ==> fresh(db.vessels[v.vesselId])
    ensures var start := if v.vesselId in old(States(db.vessels)) then old(States(db.vessels))[v.vesselId] else NewVesselState;
      && (completed <==> !FlightTickThrows(start, v, elapsed))
      && (completed ==> States(db.vessels) == old(States(db.vessels))[v.vesselId := FlightTick(start, v, elapsed)])
    ensures db.version == old(db.version)
    ensures PassEffect(old(Holdings(db.vessels)), old(Attached(db.vessels)), Holdings(db.vessels), Attached(db.vessels), v)
  {
    ghost var s0, h0, a0 := States(db.vessels), Holdings(db.vessels), Attached(db.vessels);
    var vd := GetRecord(db, v);
    ghost var s1, h1, a1, x := States(db.vessels), Holdings(db.vessels), Attached(db.vessels), vd.Holdings();
    completed := TickFiled(db, vd, v, elapsed);
    if completed {
      UpdateTwice(s0, v.vesselId, s1[v.vesselId], vd.State());
    }
    PassOfSteps(h0, a0, h1, a1, x, Holdings(db.vessels), Attached(db.vessels), v);
  }

  /** `v.KerbalismData()`, with what it means for the records' states: a new record comes with
    * the state of a vessel met in flight, and nothing else changes. */
  method GetRecord(db: Database, v: FlightVessel) returns (vd: VesselData)
    requires db.Valid() && Distinct(v.partIds)
    modifies db
    ensures db.Valid() && db.uid == old(db.uid)
    ensures v.vesselId in db.vessels && vd == db.vessels[v.vesselId]
    ensures forall g :: g in old(db.vessels) ==> g in db.vessels && db.vessels[g] == old(db.vessels)[g]
    ensures db.vessels.Keys == old(db.vessels).Keys + {v.vesselId}
    ensures v.vesselId !in old(db.vessels) ==> fresh(vd)
    ensures vd.State() == if v.vesselId in old(States(db.vessels)) then old(States(db.vessels))[v.vesselId] else NewVesselState
    ensures States(db.vessels) == old(States(db.vessels))[v.vesselId := vd.State()]
    ensures db.version == old(db.version)
    ensures v.vesselId in old(db.vessels) ==>
      Holdings(db.vessels) == old(Holdings(db.vessels)) && Attached(db.vessels) == old(Attached(db.vessels))
    ensures v.vesselId !in old(db.vessels) ==>
      && Holdings(db.vessels) == old(Holdings(db.vessels))[v.vesselId := vd.Holdings()]
      && NewFlightHoldings(vd.Holdings(), v)
      && Attached(db.vessels) == old(Attached(db.vessels)) + {v.vesselId}
  {
    ghost var old0 := States(db.vessels);
    ghost var h0, a0 := Holdings(db.vessels), Attached(db.vessels);
    vd := db.VesselKerbalismData(v.vesselId, v.partIds);
    if v.vesselId !in old0 {
      StatesUpdate(old(db.vessels), v.vesselId, vd);
      HoldingsUpdate(old(db.vessels), v.vesselId, vd);
    } else {
      assert old0[v.vesselId := vd.State()] == old0;
    }
  }

  /** The record `vd`, filed under `v`'s id, is ticked; the other records are untouched. */
  method TickFiled(db: Database, vd: VesselData, v: FlightVessel, elapsed: real) returns (completed: bool)
    requires db.Valid() && v.vesselId in db.vessels && vd == db.vessels[v.vesselId]
    modifies vd
    ensures completed <==> !FlightTickThrows(old(vd.State()), v, elapsed)
    ensures completed ==> States(db.vessels) == old(States(db.vessels))[v.vesselId := FlightTick(old(vd.State()), v, elapsed)]
    ensures Holdings(db.vessels) == old(Holdings(db.vessels))
    ensures Attached(db.vessels) == old(Attached(db.vessels)) + {v.vesselId}
  {
    ghost var s0, h0, a0 := States(db.vessels), Holdings(db.vessels), Attached(db.vessels);
    completed := RunRecord(vd, v, elapsed);
    RecordsKept(db.vessels, v.vesselId, vd, s0, h0, a0);
  }

  /** The body of the flight loop on the record `vd` of vessel `v`: `Update(v)` and, when the
    * record is simulated and the vessel loaded, `Evaluate(false, elapsed_s)`. */
  method RunRecord(vd: VesselData, v: FlightVessel, elapsed: real) returns (completed: bool)
    modifies vd
    ensures completed <==> !FlightTickThrows(old(vd.State()), v, elapsed)
    ensures completed ==> vd.State() == FlightTick(old(vd.State()), v, elapsed)
    ensures vd.parts == old(vd.parts) && vd.supplies == old(vd.supplies) && vd.scansatId == old(vd.scansatId) && vd.hasVessel
  {
    completed := vd.Update(v.isVessel, v.randomElapsed, v.samples);
    if completed && vd.isSimulated && v.loaded {
      completed := vd.Evaluate(false, elapsed, v.samples);
    }
  }
}
