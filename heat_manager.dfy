/** The background-radiation accumulator `KopernicusHeatManager`
  * (src/Kopernicus/Components/KopernicusHeatManager.cs). Its two static fields become the fields
  * of one object; the event that lets other components report temperatures becomes the sequence
  * of `NewTemp` calls they make. */
module HeatManager {

  /** One call `NewTemp(temp, sum)` made by an event handler. */
  datatype TempReport = TempReport(temp: real, sum: bool)

  /** The pair of accumulators: the largest reported temperature and the sum of the summed ones. */
  datatype HeatState = HeatState(maxTemp: real, sumTemp: real)

  /** The effect of one `NewTemp` call on the accumulators. */
  function NewTempStep(s: HeatState, report: TempReport): (r: HeatState)
    ensures r.maxTemp >= s.maxTemp && r.sumTemp >= s.sumTemp
    ensures report.sum && report.temp > 0.0 ==> r.maxTemp == s.maxTemp && r.sumTemp == s.sumTemp + report.temp
    ensures !(report.sum && report.temp > 0.0) ==>
      r.sumTemp == s.sumTemp && r.maxTemp >= report.temp && (r.maxTemp == s.maxTemp || r.maxTemp == report.temp)
  {
    if report.sum && report.temp > 0.0 then HeatState(s.maxTemp, s.sumTemp + report.temp)
    else if report.temp > s.maxTemp then HeatState(report.temp, s.sumTemp)
    else s
  }

  /** The accumulators after the reports `reports`, made in order from `s`. */
  function Accumulate(s: HeatState, reports: seq<TempReport>): HeatState
    decreases |reports|
  {
    if |reports| == 0 then s else Accumulate(NewTempStep(s, reports[0]), reports[1..])
  }

  /** A report without the sum flag, or with a non-positive temperature, takes part in the maximum. */
  predicate MaxReport(report: TempReport)
  {
    !(report.sum && report.temp > 0.0)
  }

  /** The total of the temperatures of the summed reports. */
  function SummedTemps(reports: seq<TempReport>): real
    decreases |reports|
  {
    if |reports| == 0 then 0.0
    else (if MaxReport(reports[0]) then 0.0 else reports[0].temp) + SummedTemps(reports[1..])
  }

  /** After the reports, `maxTemp` is the largest of the start value and the temperatures of the
    * max reports, and `sumTemp` grew by exactly the temperatures of the summed reports. */
  lemma {:induction false} AccumulateMeaning(s: HeatState, reports: seq<TempReport>)
    ensures var r := Accumulate(s, reports);
      r.maxTemp >= s.maxTemp
      && (forall i :: 0 <= i < |reports| && MaxReport(reports[i]) ==> r.maxTemp >= reports[i].temp)
      && (r.maxTemp == s.maxTemp || exists i :: 0 <= i < |reports| && MaxReport(reports[i]) && r.maxTemp == reports[i].temp)
    ensures Accumulate(s, reports).sumTemp == s.sumTemp + SummedTemps(reports)
    decreases |reports|
  {
    if |reports| > 0 {
      var s' := NewTempStep(s, reports[0]);
      var rest := reports[1..];
      AccumulateMeaning(s', rest);
      var r := Accumulate(s, reports);
      assert r == Accumulate(s', rest);
      forall i | 0 <= i < |reports| && MaxReport(reports[i])
        ensures r.maxTemp >= reports[i].temp
      {
        if i > 0 {
          assert reports[i] == rest[i - 1];
        }
      }
      if r.maxTemp != s.maxTemp {
        if r.maxTemp == s'.maxTemp {
          assert MaxReport(reports[0]) && r.maxTemp == reports[0].temp;
        } else {
          var j :| 0 <= j < |rest| && MaxReport(rest[j]) && r.maxTemp == rest[j].temp;
          assert reports[j + 1] == rest[j];
        }
      }
    }
  }

  /** Summed reports only ever add positive temperatures. */
  lemma {:induction false} SummedTempsNonNegative(reports: seq<TempReport>)
    ensures SummedTemps(reports) >= 0.0
    decreases |reports|
  {
    if |reports| > 0 {
      SummedTempsNonNegative(reports[1..]);
    }
  }

  /** The background radiation temperature of `RadiationTemperature` given the (lerped) stock
    * value and the reports: the maximum plus the sum. */
  function RadiationTemperatureOf(lerpedBase: real, reports: seq<TempReport>): real
  {
    var r := Accumulate(HeatState(lerpedBase, 0.0), reports);
    r.maxTemp + r.sumTemp
  }

  /** However the handlers report, the result is never below the stock value, and without
    * reports it is the stock value. */
  lemma {:induction false} RadiationTemperatureAtLeastBase(lerpedBase: real, reports: seq<TempReport>)
    ensures RadiationTemperatureOf(lerpedBase, reports) >= lerpedBase
    ensures |reports| == 0 ==> RadiationTemperatureOf(lerpedBase, reports) == lerpedBase
  {
    AccumulateMeaning(HeatState(lerpedBase, 0.0), reports);
    SummedTempsNonNegative(reports);
  }

  class KopernicusHeatManager {
    var maxTemp: real
    var sumTemp: real

    constructor ()
      ensures maxTemp == 0.0 && sumTemp == 0.0
    {
      maxTemp := 0.0;
      sumTemp := 0.0;
    }

    function State(): HeatState
      reads this
    {
      HeatState(maxTemp, sumTemp)
    }

    method NewTemp(newTemp: real, sum: bool)
      modifies this
      ensures State() == NewTempStep(old(State()), TempReport(newTemp, sum))
    {
      if sum && newTemp > 0.0 {
        sumTemp := sumTemp + newTemp;
      } else if newTemp > maxTemp {
        maxTemp := newTemp;
      }
    }

    /** `lerpedBase` is the stock temperature after `UtilMath.Lerp`; `reports` are the `NewTemp`
      * calls the handlers of `OnCalculateBackgroundRadiationTemperature` make while it fires. */
    method RadiationTemperature(lerpedBase: real, reports: seq<TempReport>) returns (baseTemp: real)
      modifies this
      ensures State() == Accumulate(HeatState(lerpedBase, 0.0), reports)
      ensures baseTemp == RadiationTemperatureOf(lerpedBase, reports)
    {
      maxTemp := lerpedBase;
      sumTemp := 0.0;
      for i := 0 to |reports|
        invariant Accumulate(State(), reports[i..]) == Accumulate(HeatState(lerpedBase, 0.0), reports)
      {
        assert reports[i..][1..] == reports[i + 1..];
        NewTemp(reports[i].temp, reports[i].sum);
      }
      assert reports[|reports|..] == [];
      baseTemp := maxTemp + sumTemp;
    }
  }
}
