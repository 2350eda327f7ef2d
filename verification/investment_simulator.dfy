/** The projection behind the investment simulator form
    (components/InvestmentSimulator.tsx): `getTimeMultiplier` turns the
    chosen timeframe into a number of months, and `calculateSimulation`
    derives the projected, best-case and worst-case values, the risk level
    and the advice text from the amount, that multiplier and the risk
    tolerance. Numbers are exact reals; a NaN is `None`. */
module InvestmentSimulator {
  import opened Wrappers
  import Ascii
  import JsString
  import RealFacts

  // ---------------------------------------------------------------------------
  // Inputs and results

  /** What the form hands to the calculation. `crypto` and `investmentType`
      are carried along but never read. */
  datatype SimulationParams = SimulationParams(
    amount: real,
    timeframe: string,
    crypto: string,
    investmentType: string,
    riskTolerance: real)

  /** The numeric part of the result. A return relative to the amount is
      `None` (NaN) when the amount is 0. */
  datatype Projection = Projection(
    projectedValue: real,
    potentialReturn: real,
    bestCase: real,
    bestCaseReturn: Option<real>,
    worstCase: real,
    worstCaseReturn: Option<real>)

  /** The whole result. `projection` is `None` when the time multiplier is
      NaN, which makes every number of the result NaN. */
  datatype SimulationData = SimulationData(
    projection: Option<Projection>,
    marketTiming: string,
    riskLevel: string,
    safetyRecommendation: string)

  /** Return per month before the risk adjustment (10%). */
  const BaseMonthlyReturn: real := 0.1
  /** Half-width of the best/worst band, as a fraction of the risk multiplier. */
  const ScenarioSpread: real := 0.5
  /** A month counts as 30 days of 24 hours. */
  const DaysPerMonth: real := 30.0
  const HoursPerMonth: real := 24.0 * 30.0
  const MonthsPerYear: real := 12.0
  const MarketTimingMessage: string := "Current market conditions are favorable for your strategy"
  /** The fixed parts of the advice text around the risk level. */
  const AdvicePrefix: string := "Consider "
  const AdviceSuffix: string := " investment approach based on your risk tolerance"

  // ---------------------------------------------------------------------------
  // getTimeMultiplier

  /** The unit words the switch recognises. "years" is not among them. */
  predicate IsTableUnit(u: string) {
    u in {"hour", "hours", "day", "days", "month", "months", "year"}
  }

  /** The switch on the unit: the count converted into months, NaN when the
      count is NaN and the unit is known, and 1 for any other unit (or none). */
  function MonthsFor(count: Option<int>, unit: Option<string>): (r: Option<real>)
    ensures unit.None? || !IsTableUnit(unit.value) ==> r == Some(1.0)
    ensures unit.Some? && IsTableUnit(unit.value) ==> (r.None? <==> count.None?)
    ensures (unit == Some("hour") || unit == Some("hours")) && count.Some? ==>
      r.Some? && r.value * HoursPerMonth == count.value as real
    ensures (unit == Some("day") || unit == Some("days")) && count.Some? ==>
      r.Some? && r.value * DaysPerMonth == count.value as real
    ensures (unit == Some("month") || unit == Some("months")) && count.Some? ==>
      r == Some(count.value as real)
    ensures unit == Some("year") && count.Some? ==>
      r.Some? && r.value == MonthsPerYear * count.value as real
  {
    match unit
    case None => Some(1.0)
    case Some(u) =>
      if !IsTableUnit(u) then Some(1.0)
      else
        match count
        case None => None
        case Some(n) =>
          if u == "hour" || u == "hours" then Some(n as real / HoursPerMonth)
          else if u == "day" || u == "days" then Some(n as real / DaysPerMonth)
          else if u == "month" || u == "months" then Some(n as real)
          else Some(n as real * MonthsPerYear)
  }

  /** `getTimeMultiplier(timeframe)`: the text before the first space is read
      with `parseInt`, the text between the first and second space is the
      unit (absent when there is no space). */
  function TimeMultiplier(timeframe: string): (r: Option<real>)
  {
    var parts := JsString.Split(timeframe, ' ');
    var unit := if |parts| >= 2 then Some(parts[1]) else None;
    MonthsFor(JsString.ParseInt(parts[0]), unit)
  }

  /** Without a space there is no unit, and the multiplier is 1 whatever
      the text ("1month", "", "abc"). */
  lemma NoSpaceDefaults(timeframe: string)
    requires ' ' !in timeframe
    ensures TimeMultiplier(timeframe) == Some(1.0)
  {
    JsString.SplitNoSep(timeframe, ' ');
  }

  /** A decimal count, possibly followed by text that stops `parseInt` (such
      as ".5"), a space and a unit word: the multiplier is that count in
      the unit. */
  lemma TimeMultiplierOfDecimal(n: nat, tail: string, unit: string)
    requires tail == [] || (!('0' <= tail[0] <= '9') && tail[0] != 'x' && tail[0] != 'X')
    requires ' ' !in tail && ' ' !in unit
    ensures TimeMultiplier(JsString.DecimalString(n) + tail + " " + unit) == MonthsFor(Some(n), Some(unit))
  {
    var value := JsString.DecimalString(n) + tail;
    var d := JsString.DecimalString(n);
    forall i | 0 <= i < |d|
      ensures d[i] != ' '
    {
    }
    var s := JsString.DecimalString(n) + tail + " " + unit;
    assert s == value + [' '] + unit;
    JsString.SplitPieceThenSep(value, ' ', unit);
    JsString.SplitNoSep(unit, ' ');
    assert JsString.Split(s, ' ') == [value, unit];
    JsString.ParseIntDecimal(n, tail);
  }

  /** The form's own values: a decimal count, a space and a unit word. */
  lemma TimeMultiplierOfCount(n: nat, unit: string)
    requires ' ' !in unit
    ensures TimeMultiplier(JsString.DecimalString(n) + " " + unit) == MonthsFor(Some(n), Some(unit))
  {
    assert JsString.DecimalString(n) + " " + unit == JsString.DecimalString(n) + [] + " " + unit;
    TimeMultiplierOfDecimal(n, [], unit);
  }

  /** "years" is not a unit the switch knows: any count of "years" is one
      month (while "year" counts twelve months per year, as `MonthsFor`
      states). */
  lemma YearsFallsToDefault(n: nat)
    ensures TimeMultiplier(JsString.DecimalString(n) + " years") == Some(1.0)
  {
    assert JsString.DecimalString(n) + " years" == JsString.DecimalString(n) + " " + "years";
    TimeMultiplierOfCount(n, "years");
  }

  /** A count that `parseInt` cannot read gives NaN for a known unit. */
  lemma NotANumberCount(count: string, unit: string)
    requires count == [] || (!JsString.IsStrWhiteSpace(count[0]) && count[0] != '-' && count[0] != '+' && !('0' <= count[0] <= '9'))
    requires ' ' !in count && ' ' !in unit && IsTableUnit(unit)
    ensures TimeMultiplier(count + " " + unit) == None
  {
    assert count + " " + unit == count + [' '] + unit;
    JsString.SplitPieceThenSep(count, ' ', unit);
    JsString.SplitNoSep(unit, ' ');
    JsString.ParseIntNoDigits(count);
  }

  /** The hour options "1 hour", "6 hours" and "12 hours" of the timeframe
      select reach the `hour`/`hours` case of the switch. */
  lemma HourOptions()
    ensures TimeMultiplier("1 hour") == Some(1.0 / 720.0)
    ensures TimeMultiplier("6 hours") == Some(6.0 / 720.0)
    ensures TimeMultiplier("12 hours") == Some(12.0 / 720.0)
  {
    assert JsString.DecimalString(1) == "1";
    assert JsString.DecimalString(6) == "6";
    assert JsString.DecimalString(12) == "12" by {
      assert JsString.DecimalString(1) == "1";
    }
    assert "1 hour" == JsString.DecimalString(1) + " " + "hour";
    assert "6 hours" == JsString.DecimalString(6) + " " + "hours";
    assert "12 hours" == JsString.DecimalString(12) + " " + "hours";
    TimeMultiplierOfCount(1, "hour");
    TimeMultiplierOfCount(6, "hours");
    TimeMultiplierOfCount(12, "hours");
    assert MonthsFor(Some(1), Some("hour")) == Some(1.0 / 720.0);
    assert MonthsFor(Some(6), Some("hours")) == Some(6.0 / 720.0);
    assert MonthsFor(Some(12), Some("hours")) == Some(12.0 / 720.0);
  }

  /** The day options "1 day" and "3 days" reach the `day`/`days` case. */
  lemma DayOptions()
    ensures TimeMultiplier("1 day") == Some(1.0 / 30.0)
    ensures TimeMultiplier("3 days") == Some(3.0 / 30.0)
  {
    assert JsString.DecimalString(1) == "1";
    assert JsString.DecimalString(3) == "3";
    assert "1 day" == JsString.DecimalString(1) + " " + "day";
    assert "3 days" == JsString.DecimalString(3) + " " + "days";
    TimeMultiplierOfCount(1, "day");
    TimeMultiplierOfCount(3, "days");
    assert MonthsFor(Some(1), Some("day")) == Some(1.0 / 30.0);
    assert MonthsFor(Some(3), Some("days")) == Some(3.0 / 30.0);
  }

  /** The week options "7 days" and "14 days" reach the `day`/`days` case. */
  lemma WeekOptions()
    ensures TimeMultiplier("7 days") == Some(7.0 / 30.0)
    ensures TimeMultiplier("14 days") == Some(14.0 / 30.0)
  {
    assert JsString.DecimalString(7) == "7";
    assert JsString.DecimalString(14) == "14" by {
      assert JsString.DecimalString(1) == "1";
    }
    assert "7 days" == JsString.DecimalString(7) + " " + "days";
    assert "14 days" == JsString.DecimalString(14) + " " + "days";
    TimeMultiplierOfCount(7, "days");
    TimeMultiplierOfCount(14, "days");
    assert MonthsFor(Some(7), Some("days")) == Some(7.0 / 30.0);
    assert MonthsFor(Some(14), Some("days")) == Some(14.0 / 30.0);
  }

  /** The month options "1 month", "3 months" and "6 months" reach the
      `month`/`months` case; for "1 month" that case agrees with the default. */
  lemma MonthOptions()
    ensures TimeMultiplier("1 month") == Some(1.0)
    ensures TimeMultiplier("3 months") == Some(3.0)
    ensures TimeMultiplier("6 months") == Some(6.0)
    ensures TimeMultiplier("1 month") == MonthsFor(Some(1), Some("month")) && IsTableUnit("month")
    ensures TimeMultiplier("3 months") == MonthsFor(Some(3), Some("months")) && IsTableUnit("months")
    ensures TimeMultiplier("6 months") == MonthsFor(Some(6), Some("months"))
  {
    assert JsString.DecimalString(1) == "1";
    assert JsString.DecimalString(3) == "3";
    assert JsString.DecimalString(6) == "6";
    assert "1 month" == JsString.DecimalString(1) + " " + "month";
    assert "3 months" == JsString.DecimalString(3) + " " + "months";
    assert "6 months" == JsString.DecimalString(6) + " " + "months";
    TimeMultiplierOfCount(1, "month");
    TimeMultiplierOfCount(3, "months");
    TimeMultiplierOfCount(6, "months");
    assert MonthsFor(Some(1), Some("month")) == Some(1.0);
    assert MonthsFor(Some(3), Some("months")) == Some(3.0);
    assert MonthsFor(Some(6), Some("months")) == Some(6.0);
  }

  /** The year option "1 year" reaches the `year` case. */
  lemma YearOption()
    ensures TimeMultiplier("1 year") == Some(12.0)
  {
    assert JsString.DecimalString(1) == "1";
    assert "1 year" == JsString.DecimalString(1) + " " + "year";
    TimeMultiplierOfCount(1, "year");
    assert MonthsFor(Some(1), Some("year")) == Some(12.0);
  }

  // ---------------------------------------------------------------------------
  // Risk level

  /** The risk bucket of a tolerance: below 33, below 66, or above. */
  function RiskLevel(riskTolerance: real): (level: string)
    ensures level == "Conservative" <==> riskTolerance < 33.0
    ensures level == "Moderate" <==> 33.0 <= riskTolerance < 66.0
    ensures level == "Aggressive" <==> 66.0 <= riskTolerance
  {
    if riskTolerance < 33.0 then "Conservative"
    else if riskTolerance < 66.0 then "Moderate"
    else "Aggressive"
  }

  /** The order of the buckets from cautious to bold. */
  function Rank(level: string): nat {
    if level == "Conservative" then 0 else if level == "Moderate" then 1 else 2
  }

  /** A higher tolerance never gives a more cautious bucket. */
  lemma RiskLevelMonotone(a: real, b: real)
    requires a <= b
    ensures Rank(RiskLevel(a)) <= Rank(RiskLevel(b))
  {
  }

  /** The advice text, naming the bucket in lower case. */
  function SafetyRecommendation(level: string): string {
    AdvicePrefix + Ascii.ToLower(level) + AdviceSuffix
  }

  /** Two levels get the same advice exactly when they agree up to letter
      case: the level is the only variable part of the text. */
  lemma SafetyRecommendationCaseInsensitive(a: string, b: string)
    ensures SafetyRecommendation(a) == SafetyRecommendation(b) <==> Ascii.ToLower(a) == Ascii.ToLower(b)
  {
    var la, lb := Ascii.ToLower(a), Ascii.ToLower(b);
    if SafetyRecommendation(a) == SafetyRecommendation(b) {
      assert |la| == |lb|;
      assert SafetyRecommendation(a)[|AdvicePrefix|..|AdvicePrefix| + |la|] == la;
      assert SafetyRecommendation(b)[|AdvicePrefix|..|AdvicePrefix| + |lb|] == lb;
    }
  }

  /** Lower-casing a capitalised word lowers only its first letter. */
  lemma LowerInitial(c: char, rest: string)
    requires Ascii.IsUpperLetter(c)
    requires forall i :: 0 <= i < |rest| ==> !Ascii.IsUpperLetter(rest[i])
    ensures Ascii.ToLower([c] + rest) == [Ascii.LowerChar(c)] + rest
  {
    var s := [c] + rest;
    forall i | 1 <= i < |s|
      ensures Ascii.ToLower(s)[i] == s[i]
    {
      assert s[i] == rest[i - 1];
    }
  }

  // The three texts the form can show.

  lemma ConservativeAdvice()
    ensures SafetyRecommendation("Conservative") == AdvicePrefix + "conservative" + AdviceSuffix
  {
    assert "Conservative" == ['C'] + "onservative";
    LowerInitial('C', "onservative");
  }

  lemma ModerateAdvice()
    ensures SafetyRecommendation("Moderate") == AdvicePrefix + "moderate" + AdviceSuffix
  {
    assert "Moderate" == ['M'] + "oderate";
    LowerInitial('M', "oderate");
  }

  lemma AggressiveAdvice()
    ensures SafetyRecommendation("Aggressive") == AdvicePrefix + "aggressive" + AdviceSuffix
  {
    assert "Aggressive" == ['A'] + "ggressive";
    LowerInitial('A', "ggressive");
  }

  // ---------------------------------------------------------------------------
  // calculateSimulation

  /** `(value - amount) / amount`, NaN when the amount is 0. */
  function RelativeTo(value: real, amount: real): (r: Option<real>)
    ensures r.None? <==> amount == 0.0
    ensures r.Some? ==> amount + amount * r.value == value
  {
    if amount == 0.0 then None
    else
      var q := (value - amount) / amount;
      assert amount * q == value - amount;
      Some(q)
  }

  /** The numbers of `calculateSimulation` for a known time multiplier. */
  function Project(amount: real, timeMultiplier: real, riskTolerance: real): (p: Projection)
    ensures p.bestCaseReturn.None? <==> amount == 0.0
    ensures p.worstCaseReturn.None? <==> amount == 0.0
  {
    var riskMultiplier := riskTolerance / 100.0;
    var baseReturn := BaseMonthlyReturn * timeMultiplier;
    var projectedReturn := baseReturn * (1.0 + riskMultiplier);
    var projectedValue := amount * (1.0 + projectedReturn);
    var bestCase := projectedValue * (1.0 + riskMultiplier * ScenarioSpread);
    var worstCase := projectedValue * (1.0 - riskMultiplier * ScenarioSpread);
    Projection(projectedValue, projectedReturn,
      bestCase, RelativeTo(bestCase, amount),
      worstCase, RelativeTo(worstCase, amount))
  }

  /** `calculateSimulation(params)`. */
  function CalculateSimulation(params: SimulationParams): (d: SimulationData)
    ensures d.projection.None? <==> TimeMultiplier(params.timeframe).None?
    ensures d.riskLevel == RiskLevel(params.riskTolerance)
    ensures d.marketTiming == MarketTimingMessage
    ensures d.safetyRecommendation == SafetyRecommendation(d.riskLevel)
  {
    var level := RiskLevel(params.riskTolerance);
    var projection :=
      match TimeMultiplier(params.timeframe)
      case None => None
      case Some(t) => Some(Project(params.amount, t, params.riskTolerance));
    SimulationData(projection, MarketTimingMessage, level, SafetyRecommendation(level))
  }

  // ---------------------------------------------------------------------------
  // Properties of the projection

  lemma SpreadSum(v: real, x: real)
    ensures v * (1.0 + x) + v * (1.0 - x) == 2.0 * v
  {
  }

  /** The best and worst cases lie symmetrically around the projected value. */
  lemma ScenarioSymmetry(amount: real, timeMultiplier: real, riskTolerance: real)
    ensures var p := Project(amount, timeMultiplier, riskTolerance);
      p.bestCase + p.worstCase == 2.0 * p.projectedValue
  {
    var p := Project(amount, timeMultiplier, riskTolerance);
    SpreadSum(p.projectedValue, riskTolerance / 100.0 * ScenarioSpread);
  }

  /** Whenever the simulation has a projection, its best and worst cases lie
      symmetrically around the projected value, and for a non-negative risk
      tolerance and projected value they bracket it. */
  lemma SimulationScenarios(params: SimulationParams)
    ensures var d := CalculateSimulation(params);
      d.projection.Some? ==>
        d.projection.value.bestCase + d.projection.value.worstCase == 2.0 * d.projection.value.projectedValue
    ensures var d := CalculateSimulation(params);
      d.projection.Some? && params.riskTolerance >= 0.0 && d.projection.value.projectedValue >= 0.0 ==>
        d.projection.value.worstCase <= d.projection.value.projectedValue <= d.projection.value.bestCase
  {
    var m := TimeMultiplier(params.timeframe);
    if m.Some? {
      ScenarioSymmetry(params.amount, m.value, params.riskTolerance);
      if params.riskTolerance >= 0.0 {
        ScenarioOrdering(params.amount, m.value, params.riskTolerance);
      }
    }
  }

  lemma BandOrder(v: real, x: real)
    requires v >= 0.0 && x >= 0.0
    ensures v * (1.0 - x) <= v <= v * (1.0 + x)
  {
    RealFacts.MulNonNegative(v, x);
    assert v * (1.0 + x) == v + v * x;
    assert v * (1.0 - x) == v - v * x;
  }

  lemma BandStrict(v: real, x: real)
    requires v > 0.0 && x > 0.0
    ensures v * (1.0 - x) < v < v * (1.0 + x)
  {
    RealFacts.MulPositive(v, x);
    assert v * (1.0 + x) == v + v * x;
    assert v * (1.0 - x) == v - v * x;
  }

  /** For a non-negative projected value and tolerance, the worst case is at
      most and the best case at least the projected value; strictly so when
      both are positive. */
  lemma ScenarioOrdering(amount: real, timeMultiplier: real, riskTolerance: real)
    requires riskTolerance >= 0.0
    ensures var p := Project(amount, timeMultiplier, riskTolerance);
      p.projectedValue >= 0.0 ==> p.worstCase <= p.projectedValue <= p.bestCase
    ensures var p := Project(amount, timeMultiplier, riskTolerance);
      p.projectedValue > 0.0 && riskTolerance > 0.0 ==> p.worstCase < p.projectedValue < p.bestCase
  {
    var p := Project(amount, timeMultiplier, riskTolerance);
    var x := riskTolerance / 100.0 * ScenarioSpread;
    if p.projectedValue >= 0.0 {
      BandOrder(p.projectedValue, x);
    }
    assert p.bestCase == p.projectedValue * (1.0 + x);
    assert p.worstCase == p.projectedValue * (1.0 - x);
    if p.projectedValue > 0.0 && riskTolerance > 0.0 {
      assert x > 0.0;
      BandStrict(p.projectedValue, x);
    }
  }

  lemma GrowthStep(amount: real, t: real, m: real)
    requires amount >= 0.0 && t >= 0.0 && m >= 0.0
    ensures amount * (1.0 + BaseMonthlyReturn * t * (1.0 + m)) >= amount
  {
    RealFacts.MulNonNegative(t, 1.0 + m);
    var g := BaseMonthlyReturn * t * (1.0 + m);
    assert g >= 0.0;
    RealFacts.MulNonNegative(amount, g);
    assert amount * (1.0 + g) == amount + amount * g;
  }

  /** A non-negative amount, time and tolerance never project a loss. */
  lemma ProjectedValueAtLeastAmount(amount: real, timeMultiplier: real, riskTolerance: real)
    requires amount >= 0.0 && timeMultiplier >= 0.0 && riskTolerance >= 0.0
    ensures Project(amount, timeMultiplier, riskTolerance).projectedValue >= amount
  {
    GrowthStep(amount, timeMultiplier, riskTolerance / 100.0);
  }

  /** With no risk tolerance the band collapses onto the projected value and
      the projected return is the base return. */
  lemma ZeroRiskCollapse(amount: real, timeMultiplier: real)
    ensures var p := Project(amount, timeMultiplier, 0.0);
      p.bestCase == p.projectedValue && p.worstCase == p.projectedValue
      && p.potentialReturn == BaseMonthlyReturn * timeMultiplier
      && p.bestCaseReturn == p.worstCaseReturn
  {
  }

  /** The potential return is the return on the amount: for a non-zero
      amount, projected value = amount · (1 + potential return); and it does
      not depend on the amount. */
  lemma PotentialReturnIsRoi(amount: real, other: real, timeMultiplier: real, riskTolerance: real)
    ensures var p := Project(amount, timeMultiplier, riskTolerance);
      p.projectedValue == amount + amount * p.potentialReturn
    ensures Project(amount, timeMultiplier, riskTolerance).potentialReturn
         == Project(other, timeMultiplier, riskTolerance).potentialReturn
  {
  }

  /** The scenario returns turn the amount into the scenario values. */
  lemma ScenarioReturns(amount: real, timeMultiplier: real, riskTolerance: real)
    requires amount != 0.0
    ensures var p := Project(amount, timeMultiplier, riskTolerance);
      p.bestCaseReturn.Some? && amount + amount * p.bestCaseReturn.value == p.bestCase
      && p.worstCaseReturn.Some? && amount + amount * p.worstCaseReturn.value == p.worstCase
  {
  }

  /** The form's starting values: 200 over "1 month" at tolerance 50. */
  lemma DefaultSimulation()
    ensures var d := CalculateSimulation(SimulationParams(200.0, "1 month", "BTC", "one-time", 50.0));
      d.projection == Some(Projection(230.0, 0.15, 287.5, Some(0.4375), 172.5, Some(-0.1375)))
      && d.riskLevel == "Moderate"
      && d.safetyRecommendation == AdvicePrefix + "moderate" + AdviceSuffix
  {
    MonthOptions();
    ModerateAdvice();
    var p := Project(200.0, 1.0, 50.0);
    assert p.projectedValue == 230.0;
    assert p.bestCase == 287.5;
    assert p.worstCase == 172.5;
  }

  /** The asset and the investment type do not change the result. */
  lemma SimulationIgnoresAssetAndCadence(params: SimulationParams, crypto: string, investmentType: string)
    ensures CalculateSimulation(params)
         == CalculateSimulation(params.(crypto := crypto, investmentType := investmentType))
  {
  }
}
