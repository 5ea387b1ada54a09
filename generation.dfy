/** Generation.java: a fixed capacity, the member list and the generation
    averages over the members' outcomes. */
module Generations {
  import opened Common
  import opened Chromosomes

  /** The in-game time budget of each stage, by world (rows) and level (columns). */
  const LevelTimeMapping: seq<seq<int>> := [
    [400, 400, 300, 300],
    [400, 400, 300, 300],
    [400, 300, 300, 300],
    [400, 400, 300, 400],
    [300, 400, 300, 300],
    [400, 400, 300, 300],
    [400, 400, 300, 400],
    [300, 400, 300, 400]]

  /** `levelTimeMapping[world - 1][level - 1]`, or None where that indexing throws. */
  function LevelBudget(world: int, level: int): (b: Option<int>)
    ensures b.Some? <==> 1 <= world <= 8 && 1 <= level <= 4
    ensures b.Some? ==> b.value == 300 || b.value == 400
  {
    if 1 <= world <= 8 && 1 <= level <= 4 then Some(LevelTimeMapping[world - 1][level - 1]) else None
  }

  /** The stage of world 1, level 1 (the default) has a budget of 400. */
  lemma DefaultStageBudget()
    ensures LevelBudget(1, 1) == Some(400)
  {
  }

  /** The four integer metrics of an outcome that have an average. */
  datatype Metric = XPos | TimeLeft | Coins | Score

  function MetricOf(r: RunResult, m: Metric): int
  {
    match m
    case XPos => r.xPos
    case TimeLeft => r.timeLeft
    case Coins => r.coins
    case Score => r.score
  }

  /** The members' outcomes, in list order. */
  function Outcomes(gen: seq<Chromosome>): (outs: seq<Option<RunResult>>)
    reads set c | c in gen
    ensures |outs| == |gen|
    ensures forall i :: 0 <= i < |gen| ==> outs[i] == gen[i].results
  {
    if |gen| == 0 then [] else Outcomes(gen[..|gen| - 1]) + [gen[|gen| - 1].results]
  }

  /** The members' fitness values, in list order. */
  function Fitnesses(gen: seq<Chromosome>): (fits: seq<Double>)
    reads set c | c in gen
    ensures |fits| == |gen|
    ensures forall i :: 0 <= i < |gen| ==> fits[i] == gen[i].fitnessValue
  {
    if |gen| == 0 then [] else Fitnesses(gen[..|gen| - 1]) + [gen[|gen| - 1].fitnessValue]
  }

  predicate AllEvaluated(outs: seq<Option<RunResult>>)
  {
    forall i :: 0 <= i < |outs| ==> outs[i].Some?
  }

  /** The metric summed over the outcomes (a missing one adds nothing). */
  function MetricTotal(outs: seq<Option<RunResult>>, m: Metric): int
  {
    if |outs| == 0 then 0 else MetricTotal(outs[..|outs| - 1], m) + MetricOrZero(outs[|outs| - 1], m)
  }

  function MetricOrZero(o: Option<RunResult>, m: Metric): int
  {
    match o
    case Some(r) => MetricOf(r, m)
    case None => 0
  }

  /** The average the pos, time, coins and score methods return: the total
      divided by the capacity, or 0 as soon as one member has no outcome. */
  function Average(outs: seq<Option<RunResult>>, m: Metric, population: int): (r: Double)
    ensures (exists k :: 0 <= k < |outs| && outs[k].None?) ==> r == Real(0.0)
    ensures AllEvaluated(outs) && population != 0 ==> r == Real(MetricTotal(outs, m) as real / population as real)
  {
    if !AllEvaluated(outs) then Real(0.0)
    else Div(Real(MetricTotal(outs, m) as real), population as real)
  }

  /** One member's speed: `pos / (budget - time)`, in doubles. */
  function Speed(r: RunResult, budget: int): Double
  {
    Div(Real(r.xPos as real), (budget - r.timeLeft) as real)
  }

  /** The speeds summed in double arithmetic, from the first member on. */
  function SpeedTotal(outs: seq<Option<RunResult>>, budget: int): Double
  {
    if |outs| == 0 then Real(0.0) else Add(SpeedTotal(outs[..|outs| - 1], budget), SpeedOrZero(outs[|outs| - 1], budget))
  }

  function SpeedOrZero(o: Option<RunResult>, budget: int): Double
  {
    match o
    case Some(r) => Speed(r, budget)
    case None => Real(0.0)
  }

  /** What calculateGenAverageSpeed does. The first member's missing outcome
      is met before the table lookup, and a lookup out of range propagates
      instead of being caught. */
  function SpeedAverage(outs: seq<Option<RunResult>>, world: int, level: int, population: int): (r: Result<Double>)
    ensures r.Err? <==> |outs| > 0 && outs[0].Some? && !(1 <= world <= 8 && 1 <= level <= 4)
    ensures r.Err? ==> r.fault == IndexOutOfBounds
    ensures (exists k :: 0 <= k < |outs| && outs[k].None?) && (outs[0].None? || (1 <= world <= 8 && 1 <= level <= 4))
            ==> r == Ok(Real(0.0))
    ensures |outs| > 0 && AllEvaluated(outs) && 1 <= world <= 8 && 1 <= level <= 4 ==>
            r == Ok(Div(SpeedTotal(outs, LevelBudget(world, level).value), population as real))
  {
    if |outs| == 0 then Ok(Div(Real(0.0), population as real))
    else if outs[0].None? then Ok(Real(0.0))
    else if LevelBudget(world, level).None? then Err(IndexOutOfBounds)
    else if !AllEvaluated(outs) then Ok(Real(0.0))
    else Ok(Div(SpeedTotal(outs, LevelBudget(world, level).value), population as real))
  }

  /** The fitness values summed in double arithmetic. */
  function FitnessTotal(fits: seq<Double>): Double
  {
    if |fits| == 0 then Real(0.0) else Add(FitnessTotal(fits[..|fits| - 1]), fits[|fits| - 1])
  }

  /** If every member scores v on a metric, the total is v times the member count. */
  lemma {:induction false} MetricTotalOfEqualScores(outs: seq<Option<RunResult>>, m: Metric, v: int)
    requires forall i :: 0 <= i < |outs| ==> outs[i].Some? && MetricOf(outs[i].value, m) == v
    ensures MetricTotal(outs, m) == |outs| * v
  {
    if |outs| > 0 {
      MetricTotalOfEqualScores(outs[..|outs| - 1], m, v);
    }
  }

  /** The divisor is the capacity, not the number of members: a generation
      holding k members that all score v averages v * k / population. */
  lemma AverageDividesByCapacity(outs: seq<Option<RunResult>>, m: Metric, v: int, population: int)
    requires population > 0
    requires forall i :: 0 <= i < |outs| ==> outs[i].Some? && MetricOf(outs[i].value, m) == v
    ensures Average(outs, m, population) == Real((|outs| * v) as real / population as real)
  {
    MetricTotalOfEqualScores(outs, m, v);
  }

  /** Equal finite fitness values in a full generation average to that value:
      the fitness average does not depend on outcomes. */
  lemma {:induction false} FitnessTotalOfEqualValues(fits: seq<Double>, x: real)
    requires forall i :: 0 <= i < |fits| ==> fits[i] == Real(x)
    ensures FitnessTotal(fits) == Real(|fits| as real * x)
  {
    if |fits| > 0 {
      FitnessTotalOfEqualValues(fits[..|fits| - 1], x);
    }
  }

  lemma FullGenerationFitnessAverage(fits: seq<Double>, x: real)
    requires |fits| > 0
    requires forall i :: 0 <= i < |fits| ==> fits[i] == Real(x)
    ensures Div(FitnessTotal(fits), |fits| as real) == Real(x)
  {
    FitnessTotalOfEqualValues(fits, x);
  }

  class Generation {
    const population: int
    var generation: seq<Chromosome>
    var genAvgPos: Double
    var genAvgSpeed: Double

    /** An empty generation of the given capacity; the averages start at 0.
        A negative capacity would make the list allocation throw
        IllegalArgumentException; the engine only passes a configured
        population size, which lies in 0..1000, or the capacity of an
        existing generation, so that path is not modelled. */
    constructor (population: int)
      ensures this.population == population
      ensures generation == [] && genAvgPos == Real(0.0) && genAvgSpeed == Real(0.0)
    {
      this.population := population;
      generation := [];
      genAvgPos := Real(0.0);
      genAvgSpeed := Real(0.0);
    }

    function GetGeneration(): seq<Chromosome>
      reads this
    {
      generation
    }

    /** Replaces the member list, whatever its length; the capacity stays. */
    method SetGeneration(generation: seq<Chromosome>)
      modifies this
      ensures this.generation == generation
      ensures genAvgPos == old(genAvgPos) && genAvgSpeed == old(genAvgSpeed)
    {
      this.generation := generation;
    }

    /** calculateGenAveragePos, ...Time, ...Coins and ...Score: sum the metric
        over the members, stop with 0 at the first missing outcome, and divide
        by the capacity. */
    method CalculateGenAverage(m: Metric) returns (avg: Double)
      ensures avg == Average(Outcomes(generation), m, population)
    {
      ghost var outs := Outcomes(generation);
      var total := 0;
      var i := 0;
      while i < |generation|
        invariant i <= |generation|
        invariant AllEvaluated(outs[..i]) && total == MetricTotal(outs[..i], m)
      {
        var r := generation[i].results;
        if r.None? {
          assert !AllEvaluated(outs);
          return Real(0.0);
        }
        assert outs[..i + 1][..i] == outs[..i];
        total := total + MetricOf(r.value, m);
        i := i + 1;
      }
      assert outs[..i] == outs;
      avg := Div(Real(total as real), population as real);
    }

    /** calculateGenAverageSpeed: the speeds summed in doubles, divided by the
        capacity. */
    method CalculateGenAverageSpeed(world: int, level: int) returns (avg: Result<Double>)
      ensures avg == SpeedAverage(Outcomes(generation), world, level, population)
    {
      ghost var outs := Outcomes(generation);
      var speed := Real(0.0);
      var i := 0;
      while i < |generation|
        invariant i <= |generation|
        invariant AllEvaluated(outs[..i])
        invariant i > 0 ==> LevelBudget(world, level).Some?
        invariant i > 0 ==> speed == SpeedTotal(outs[..i], LevelBudget(world, level).value)
        invariant i == 0 ==> speed == Real(0.0)
      {
        var r := generation[i].results;
        if r.None? {
          return Ok(Real(0.0));
        }
        if !(1 <= world <= 8 && 1 <= level <= 4) {
          return Err(IndexOutOfBounds);
        }
        var budget := LevelTimeMapping[world - 1][level - 1];
        assert outs[..i + 1][..i] == outs[..i];
        speed := Add(speed, Div(Real(r.value.xPos as real), (budget - r.value.timeLeft) as real));
        i := i + 1;
      }
      assert outs[..i] == outs;
      avg := Ok(Div(speed, population as real));
    }

    /** calculateGenAverageFitnessScore: the fitness values summed in doubles,
        divided by the capacity. */
    method CalculateGenAverageFitnessScore() returns (avg: Double)
      ensures avg == Div(FitnessTotal(Fitnesses(generation)), population as real)
    {
      ghost var fits := Fitnesses(generation);
      var fitness := Real(0.0);
      var i := 0;
      while i < |generation|
        invariant i <= |generation|
        invariant fitness == FitnessTotal(fits[..i])
      {
        assert fits[..i + 1][..i] == fits[..i];
        fitness := Add(fitness, generation[i].fitnessValue);
        i := i + 1;
      }
      assert fits[..i] == fits;
      avg := Div(fitness, population as real);
    }

    function GetGenAvgPos(): Double
      reads this
    {
      genAvgPos
    }

    method SetGenAvgPos(genAvgPos: Double)
      modifies this
      ensures this.genAvgPos == genAvgPos
      ensures generation == old(generation) && genAvgSpeed == old(genAvgSpeed)
    {
      this.genAvgPos := genAvgPos;
    }

    function GetGenAvgSpeed(): Double
      reads this
    {
      genAvgSpeed
    }

    method SetGenAvgSpeed(genAvgSpeed: Double)
      modifies this
      ensures this.genAvgSpeed == genAvgSpeed
      ensures generation == old(generation) && genAvgPos == old(genAvgPos)
    {
      this.genAvgSpeed := genAvgSpeed;
    }

    /** Object.clone: a new generation with the same capacity, members and averages. */
    method Clone() returns (c: Generation)
      ensures fresh(c)
      ensures c.population == population && c.generation == generation
      ensures c.genAvgPos == genAvgPos && c.genAvgSpeed == genAvgSpeed
    {
      c := new Generation(population);
      c.generation := generation;
      c.genAvgPos := genAvgPos;
      c.genAvgSpeed := genAvgSpeed;
    }
  }
}
