/** The configuration the GeneticAlgorithm constructor reads from its
    properties (GeneticAlgorithm.java:73-286): each group of settings is
    validated on its own and, when a value is missing, malformed or out of
    range, the group keeps or falls back to its defaults. */
module Configuration {
  import opened Common
  import opened Text
  import opened Buttons

  datatype CrossoverType = OnePoint | MultiPoint | Uniform

  /** The stage: world, level within the world and the gym environment name. */
  datatype Stage = Stage(world: int, lvl: int, level: string)

  /** The weights of score, coins and speed in the fitness. */
  datatype Weights = Weights(score: int, coin: int, speedrun: int)

  /** The crossover and mutation settings. A rate is stored as a real: a
      double outside [0, 1], NaN included, is never stored. */
  datatype Crossover = Crossover(
    crossoverType: CrossoverType,
    onePointRate: real,
    multiPointMin: real,
    multiPointMax: real,
    uniformRate: real,
    crossoverFrequency: real,
    mutationFrequency: real)

  /** The population size and the selection scheme; the selection group of
      the constructor may reset the size too. */
  datatype Population = Population(
    size: int,
    fitnessProportionate: bool,
    stochastic: bool,
    tournament: bool,
    truncation: bool,
    elitism: bool,
    top: int)

  /** The configuration fields of GeneticAlgorithm, grouped as the
      constructor validates them. */
  datatype Config = Config(
    render: bool,
    stage: Stage,
    buttonFrequencies: seq<int>,
    weights: Weights,
    crossover: Crossover,
    population: Population)

  /** The field initialisers; the weights keep Java's zero default. */
  const Defaults: Config := Config(
    false,
    Stage(1, 1, "SuperMarioBros-1-1-v0"),
    DefaultFrequencies,
    Weights(0, 0, 0),
    Crossover(Uniform, 0.5, 0.0, 0.0, 0.5, 0.95, 0.015),
    Population(100, true, false, false, false, true, 5))

  /** The properties as the constructor reads them. A numeric entry is None
      when it is missing or does not parse (the parser throws); a boolean
      entry is Boolean.parseBoolean's result, false when missing; the
      crossover type is None unless it names one of the three types. The
      k-th entry of `frequencies` is FREQUENCY_BUTTON_k. */
  datatype Properties = Properties(
    render: bool,
    world: Option<int>,
    level: Option<int>,
    version: Option<int>,
    frequencies: seq<Option<int>>,
    scoreWeight: Option<int>,
    coinWeight: Option<int>,
    speedrunWeight: Option<int>,
    populationSize: Option<int>,
    crossoverType: Option<CrossoverType>,
    onePointRate: Option<Double>,
    multiPointMin: Option<Double>,
    multiPointMax: Option<Double>,
    uniformRate: Option<Double>,
    crossoverFrequency: Option<Double>,
    mutationFrequency: Option<Double>,
    fitnessProportionate: bool,
    stochastic: bool,
    tournament: bool,
    truncation: bool,
    elitism: bool,
    top: Option<int>)

  /** The gym environment name of a stage. */
  function LevelName(world: int, lvl: int, version: int): string
  {
    "SuperMarioBros-" + IntToString(world) + "-" + IntToString(lvl) + "-v" + IntToString(version)
  }

  predicate Between(x: int, lo: int, hi: int)
  {
    lo <= x <= hi
  }

  /** A double d with 0 <= d <= 1; NaN and the infinities fail the comparison. */
  predicate IsRate(d: Double)
  {
    d.Real? && 0.0 <= d.r <= 1.0
  }

  ghost predicate ValidStage(s: Stage)
  {
    Between(s.world, 1, 8) && Between(s.lvl, 1, 4)
    && (exists v :: Between(v, 0, 3) && s.level == LevelName(s.world, s.lvl, v))
  }

  predicate ValidWeights(w: Weights)
  {
    Between(w.score, 0, 10) && Between(w.coin, 0, 10) && Between(w.speedrun, 0, 10)
  }

  predicate ValidCrossover(x: Crossover)
  {
    0.0 <= x.onePointRate <= 1.0 && 0.0 <= x.uniformRate <= 1.0
    && 0.0 <= x.multiPointMin && x.multiPointMax <= 1.0
    && (x.crossoverType == MultiPoint ==> x.multiPointMin < x.multiPointMax)
    && 0.0 <= x.crossoverFrequency <= 1.0 && 0.0 <= x.mutationFrequency <= 1.0
  }

  /** Exactly one of the four selection schemes is on. */
  predicate OneSelection(fp: bool, st: bool, to: bool, tr: bool)
  {
    (fp && !st && !to && !tr) || (!fp && st && !to && !tr)
    || (!fp && !st && to && !tr) || (!fp && !st && !to && tr)
  }

  predicate ValidPopulation(p: Population)
  {
    Between(p.size, 0, 1000)
    && OneSelection(p.fitnessProportionate, p.stochastic, p.tournament, p.truncation)
    && p.elitism && p.top >= 1
  }

  /** What every configuration the constructor builds satisfies. */
  ghost predicate ValidConfig(c: Config)
  {
    ValidStage(c.stage) && ValidFrequencies(c.buttonFrequencies) && ValidWeights(c.weights)
    && ValidCrossover(c.crossover) && ValidPopulation(c.population)
  }

  // ---------------------------------------------------------------------------
  // the groups of settings, in the order the constructor reads them
  // ---------------------------------------------------------------------------

  /** World, level and version: all three are read first; the stage changes
      exactly when all three parse and lie in range. */
  function ApplyStage(s: Stage, world: Option<int>, lvl: Option<int>, version: Option<int>): (s': Stage)
    ensures ValidStage(s) ==> ValidStage(s')
    ensures world.Some? && lvl.Some? && version.Some?
            && Between(world.value, 1, 8) && Between(lvl.value, 1, 4) && Between(version.value, 0, 3)
            ==> s' == Stage(world.value, lvl.value, LevelName(world.value, lvl.value, version.value))
    ensures s' != s ==> world.Some? && lvl.Some? && version.Some? && Between(world.value, 1, 8) && Between(lvl.value, 1, 4) && Between(version.value, 0, 3)
  {
    if world.Some? && lvl.Some? && version.Some?
       && Between(world.value, 1, 8) && Between(lvl.value, 1, 4) && Between(version.value, 0, 3)
    then
      var s' := Stage(world.value, lvl.value, LevelName(world.value, lvl.value, version.value));
      assert ValidStage(s') by {
        assert Between(version.value, 0, 3) && s'.level == LevelName(s'.world, s'.lvl, version.value);
      }
      s'
    else s
  }

  /** The FREQUENCY_BUTTON_k entry. */
  function FrequencyEntry(frequencies: seq<Option<int>>, k: nat): Option<int>
  {
    if k < |frequencies| then frequencies[k] else None
  }

  predicate AllEntries(frequencies: seq<Option<int>>)
  {
    forall k :: 0 <= k < 12 ==> FrequencyEntry(frequencies, k).Some?
  }

  /** The twelve entries, once all of them have parsed. */
  function Entries(frequencies: seq<Option<int>>): (f: seq<int>)
    requires AllEntries(frequencies)
    ensures |f| == 12 && forall k :: 0 <= k < 12 ==> FrequencyEntry(frequencies, k) == Some(f[k])
  {
    seq(12, k requires 0 <= k < 12 => FrequencyEntry(frequencies, k).value)
  }

  /** The twelve button frequencies, with the check as the code evidently
      intends it: taken only when all twelve parse, none is negative and
      they sum to 100. */
  function ApplyFrequencies(f: seq<int>, frequencies: seq<Option<int>>): (f': seq<int>)
    ensures ValidFrequencies(f) ==> ValidFrequencies(f')
    ensures AllEntries(frequencies) && ValidFrequencies(Entries(frequencies)) ==> f' == Entries(frequencies)
    ensures !AllEntries(frequencies) ==> f' == f
    ensures AllEntries(frequencies) && !ValidFrequencies(Entries(frequencies)) ==> f' == f
  {
    if AllEntries(frequencies) && ValidFrequencies(Entries(frequencies)) then Entries(frequencies) else f
  }

  /** Java int arithmetic: n reduced into the int range modulo 2^32. */
  function WrapInt(n: int): (w: int)
    ensures IsInt32(w)
    ensures IsInt32(n) ==> w == n
  {
    (n - MinInt) % 0x1_0000_0000 + MinInt
  }

  /** The frequency check as written: the twelve values are added as Java
      ints, so the sum wraps around, and a wrapped sum of 100 passes. */
  predicate AcceptedAsWritten(f: seq<int>)
  {
    |f| == 12 && (forall k :: 0 <= k < 12 ==> f[k] >= 0) && WrapInt(Sum(f)) == 100
  }

  function ApplyFrequenciesAsWritten(f: seq<int>, frequencies: seq<Option<int>>): (f': seq<int>)
    ensures !AllEntries(frequencies) ==> f' == f
    ensures AllEntries(frequencies) && AcceptedAsWritten(Entries(frequencies)) ==> f' == Entries(frequencies)
    ensures AllEntries(frequencies) && !AcceptedAsWritten(Entries(frequencies)) ==> f' == f
  {
    if AllEntries(frequencies) && AcceptedAsWritten(Entries(frequencies)) then Entries(frequencies) else f
  }

  /** Zeros appended to a list do not change its sum. */
  lemma {:induction false} SumTrailingZeros(a: seq<int>, n: nat)
    ensures Sum(a + Repeat(0, n)) == Sum(a)
  {
    if n == 0 {
      assert a + Repeat(0, n) == a;
    } else {
      SumTrailingZeros(a, n - 1);
      assert (a + Repeat(0, n))[..|a| + n - 1] == a + Repeat(0, n - 1);
    }
  }

  /** Two near-maximal frequencies and a 102 wrap around to a sum of 100,
      so the check as written stores frequencies far from a percentage. */
  lemma FrequencySumOverflowAccepted()
    ensures var f := [MaxInt, MaxInt, 102] + Repeat(0, 9);
            AcceptedAsWritten(f) && !ValidFrequencies(f)
            && ApplyFrequenciesAsWritten(DefaultFrequencies, seq(12, k requires 0 <= k < 12 => Some(f[k]))) == f
  {
    var a := [MaxInt, MaxInt, 102];
    var f := a + Repeat(0, 9);
    assert Sum(a) == 2 * MaxInt + 102 by {
      var b := [MaxInt, MaxInt];
      assert a[..|a| - 1] == b;
      assert b[..|b| - 1] == [MaxInt];
      assert Sum([MaxInt]) == MaxInt by { assert [MaxInt][..0] == []; }
    }
    SumTrailingZeros(a, 9);
    var entries := seq(12, k requires 0 <= k < 12 => Some(f[k]));
    assert Entries(entries) == f;
  }

  /** Where no wrap-around happens the two checks agree. */
  lemma FrequencyChecksAgree(f: seq<int>)
    requires |f| == 12 && IsInt32(Sum(f))
    ensures AcceptedAsWritten(f) <==> ValidFrequencies(f)
  {
  }

  /** The three fitness weights: if any of them does not parse all three
      become 10; otherwise each one in 0..10 is taken and the others kept. */
  function ApplyWeights(w: Weights, score: Option<int>, coin: Option<int>, speedrun: Option<int>): (w': Weights)
    ensures ValidWeights(w) ==> ValidWeights(w')
    ensures score.None? || coin.None? || speedrun.None? ==> w' == Weights(10, 10, 10)
    ensures score.Some? && coin.Some? && speedrun.Some? ==>
              (w'.score == (if Between(score.value, 0, 10) then score.value else w.score))
              && (w'.coin == (if Between(coin.value, 0, 10) then coin.value else w.coin))
              && (w'.speedrun == (if Between(speedrun.value, 0, 10) then speedrun.value else w.speedrun))
  {
    if score.None? || coin.None? || speedrun.None? then Weights(10, 10, 10)
    else
      Weights(if Between(score.value, 0, 10) then score.value else w.score,
              if Between(coin.value, 0, 10) then coin.value else w.coin,
              if Between(speedrun.value, 0, 10) then speedrun.value else w.speedrun)
  }

  /** The population size: taken when in 0..1000; when it does not parse,
      the catch sets the field to 1000. */
  function ApplyPopulationSize(p: Population, size: Option<int>): (p': Population)
    ensures p'.(size := p.size) == p
    ensures Between(p.size, 0, 1000) ==> Between(p'.size, 0, 1000)
    ensures size.None? ==> p'.size == 1000
    ensures size.Some? ==> p'.size == (if Between(size.value, 0, 1000) then size.value else p.size)
  {
    match size
    case None => p.(size := 1000)
    case Some(n) => if Between(n, 0, 1000) then p.(size := n) else p
  }

  /** The MULTI_POINT bounds are taken when both parse, lie in [0, 1] and
      increase strictly. */
  predicate IsBoundPair(min: Option<Double>, max: Option<Double>)
  {
    min.Some? && max.Some? && min.value.Real? && max.value.Real?
    && 0.0 <= min.value.r && 0.0 <= max.value.r && max.value.r <= 1.0 && max.value.r > min.value.r
  }

  /** The crossover type, followed by the rates of the type then current. A
      rate that does not parse switches the type to ONE_POINT; so does an
      out-of-range rate for MULTI_POINT and UNIFORM, while for ONE_POINT it
      is ignored. */
  function ApplyRates(x: Crossover, t: Option<CrossoverType>, onePoint: Option<Double>,
                      min: Option<Double>, max: Option<Double>, uniform: Option<Double>): (x': Crossover)
    requires ValidCrossover(x.(crossoverType := OnePoint))
    ensures ValidCrossover(x')
    ensures x'.crossoverFrequency == x.crossoverFrequency && x'.mutationFrequency == x.mutationFrequency
    ensures x'.crossoverType == OnePoint || x'.crossoverType == (if t.Some? then t.value else x.crossoverType)
    ensures x'.crossoverType == MultiPoint ==>
              min == Some(Real(x'.multiPointMin)) && max == Some(Real(x'.multiPointMax))
    ensures x'.crossoverType == Uniform ==> uniform == Some(Real(x'.uniformRate))
    ensures x'.onePointRate != x.onePointRate ==> onePoint == Some(Real(x'.onePointRate))
    // the type chosen is kept exactly when its rates are acceptable
    ensures var c := if t.Some? then t.value else x.crossoverType;
            x'.crossoverType == c <==>
              (c == OnePoint || (c == MultiPoint && IsBoundPair(min, max))
               || (c == Uniform && uniform.Some? && IsRate(uniform.value)))
    // an acceptable setting is stored, and nothing else changes
    ensures var c := if t.Some? then t.value else x.crossoverType;
            c == Uniform && uniform.Some? && IsRate(uniform.value) ==>
              x' == x.(crossoverType := Uniform, uniformRate := uniform.value.r)
    ensures var c := if t.Some? then t.value else x.crossoverType;
            c == MultiPoint && IsBoundPair(min, max) ==>
              x' == x.(crossoverType := MultiPoint, multiPointMin := min.value.r, multiPointMax := max.value.r)
    ensures var c := if t.Some? then t.value else x.crossoverType;
            c == OnePoint ==>
              x' == x.(crossoverType := OnePoint,
                       onePointRate := if onePoint.Some? && IsRate(onePoint.value) then onePoint.value.r else x.onePointRate)
    // a fall-back from another type changes the type and nothing else
    ensures var c := if t.Some? then t.value else x.crossoverType;
            x'.crossoverType == OnePoint && c != OnePoint ==> x' == x.(crossoverType := OnePoint)
  {
    var chosen := if t.Some? then t.value else x.crossoverType;
    match chosen
    case OnePoint =>
      if onePoint.Some? && IsRate(onePoint.value) then x.(crossoverType := OnePoint, onePointRate := onePoint.value.r)
      else x.(crossoverType := OnePoint)
    case MultiPoint =>
      if IsBoundPair(min, max) then x.(crossoverType := MultiPoint, multiPointMin := min.value.r, multiPointMax := max.value.r)
      else x.(crossoverType := OnePoint)
    case Uniform =>
      if uniform.Some? && IsRate(uniform.value) then x.(crossoverType := Uniform, uniformRate := uniform.value.r)
      else x.(crossoverType := OnePoint)
  }

  /** The crossover and mutation frequencies: both are read first; each is
      then taken when it lies in [0, 1]. */
  function ApplyOperatorFrequencies(x: Crossover, crossover: Option<Double>, mutation: Option<Double>): (x': Crossover)
    ensures x'.(crossoverFrequency := x.crossoverFrequency, mutationFrequency := x.mutationFrequency) == x
    ensures ValidCrossover(x) ==> ValidCrossover(x')
    ensures crossover.None? || mutation.None? ==> x' == x
    ensures crossover.Some? && mutation.Some? && IsRate(crossover.value) ==> Real(x'.crossoverFrequency) == crossover.value
    ensures crossover.Some? && mutation.Some? && IsRate(mutation.value) ==> Real(x'.mutationFrequency) == mutation.value
    ensures crossover.Some? && !IsRate(crossover.value) ==> x'.crossoverFrequency == x.crossoverFrequency
    ensures mutation.Some? && !IsRate(mutation.value) ==> x'.mutationFrequency == x.mutationFrequency
  {
    if crossover.None? || mutation.None? then x
    else
      x.(crossoverFrequency := if IsRate(crossover.value) then crossover.value.r else x.crossoverFrequency,
         mutationFrequency := if IsRate(mutation.value) then mutation.value.r else x.mutationFrequency)
  }

  /** The catch of the selection group: population 100, fitness-proportionate
      selection, elitism with the top 5. */
  const ResetSelection: Population := Population(100, true, false, false, false, true, 5)

  /** The selection scheme. Exactly one of the four schemes must be on; when
      the ELITISM flag is on, TOP must parse and lie in 1..size/2 of the
      current population size. Anything else resets the group. The elitism
      field is never switched off, and with the flag off TOP is not checked. */
  function ApplySelection(p: Population, fp: bool, st: bool, to: bool, tr: bool, elitism: bool, top: Option<int>): (p': Population)
    requires p.elitism && p.top >= 1
    ensures Between(p.size, 0, 1000) ==> ValidPopulation(p')
    ensures !OneSelection(fp, st, to, tr) ==> p' == ResetSelection
    ensures elitism ==> 1 <= p'.top <= p'.size / 2
    ensures elitism && OneSelection(fp, st, to, tr) && top.Some? && 1 <= top.value <= p.size / 2
            ==> p' == Population(p.size, fp, st, to, tr, p.elitism, top.value)
    ensures elitism && (top.None? || !(1 <= top.value <= p.size / 2)) ==> p' == ResetSelection
    ensures !elitism && OneSelection(fp, st, to, tr) ==> p' == Population(p.size, fp, st, to, tr, p.elitism, p.top)
  {
    if !OneSelection(fp, st, to, tr) then ResetSelection
    else
      var chosen := p.(fitnessProportionate := fp, stochastic := st, tournament := to, truncation := tr);
      if !elitism then chosen
      else if top.Some? && 1 <= top.value <= p.size / 2 then chosen.(top := top.value)
      else ResetSelection
  }

  /** The constructor's reading of the properties, group by group. Whatever
      the properties say, the configuration is valid, the render flag is the
      one read, and elitism is on (ELITISM_SELECTION=false does not turn it
      off). */
  function Configure(p: Properties): (c: Config)
    ensures ValidConfig(c)
    ensures c.render == p.render
    ensures c.population.elitism
  {
    DefaultsValid();
    var x := ApplyRates(Defaults.crossover, p.crossoverType, p.onePointRate, p.multiPointMin, p.multiPointMax, p.uniformRate);
    var pop := ApplyPopulationSize(Defaults.population, p.populationSize);
    Config(
      p.render,
      ApplyStage(Defaults.stage, p.world, p.level, p.version),
      ApplyFrequencies(Defaults.buttonFrequencies, p.frequencies),
      ApplyWeights(Defaults.weights, p.scoreWeight, p.coinWeight, p.speedrunWeight),
      ApplyOperatorFrequencies(x, p.crossoverFrequency, p.mutationFrequency),
      ApplySelection(pop, p.fitnessProportionate, p.stochastic, p.tournament, p.truncation, p.elitism, p.top))
  }

  // ---------------------------------------------------------------------------
  // properties
  // ---------------------------------------------------------------------------

  /** The initial values of the fields form a valid configuration. */
  lemma DefaultsValid()
    ensures ValidConfig(Defaults)
  {
    DefaultFrequenciesValid();
    assert Defaults.stage.level == LevelName(1, 1, 0);
  }

  /** With the elitism flag on, TOP ends up within half the population. */
  lemma TopWithinHalfWhenRequested(p: Properties)
    requires p.elitism
    ensures 1 <= Configure(p).population.top <= Configure(p).population.size / 2
  {
  }

  /** With the elitism flag off, TOP keeps its default of 5 whatever the
      population size: a population of 4 still asks for the top 5. */
  lemma TopUncheckedWithoutElitismFlag(p: Properties)
    requires !p.elitism && p.populationSize == Some(4)
    requires OneSelection(p.fitnessProportionate, p.stochastic, p.tournament, p.truncation)
    ensures Configure(p).population.top == 5 && Configure(p).population.size == 4
  {
  }

  /** A selection without exactly one scheme resets the population size to
      100, whatever POPULATION_SIZE said. */
  lemma AmbiguousSelectionResets(p: Properties)
    requires !OneSelection(p.fitnessProportionate, p.stochastic, p.tournament, p.truncation)
    ensures Configure(p).population == Population(100, true, false, false, false, true, 5)
  {
  }

  /** A weight that does not parse sets all three weights to 10. */
  lemma UnreadableWeightGivesTen(p: Properties)
    requires p.scoreWeight.None? || p.coinWeight.None? || p.speedrunWeight.None?
    ensures Configure(p).weights == Weights(10, 10, 10)
  {
  }

  /** MULTI_POINT with min >= max falls back to ONE_POINT. */
  lemma MultiPointNeedsIncreasingBounds(p: Properties, lo: real, hi: real)
    requires p.crossoverType == Some(MultiPoint)
    requires p.multiPointMin == Some(Real(lo)) && p.multiPointMax == Some(Real(hi)) && hi <= lo
    ensures Configure(p).crossover.crossoverType == OnePoint
  {
  }

  /** A single-digit stage gives a 21-character name with the digits at
      positions 15, 17 and 20 and no ':' in it. */
  lemma LevelNameShape(world: int, lvl: int, version: int)
    requires Between(world, 0, 9) && Between(lvl, 0, 9) && Between(version, 0, 9)
    ensures |LevelName(world, lvl, version)| == 21
    ensures LevelName(world, lvl, version)[15] == DigitChar(world)
    ensures LevelName(world, lvl, version)[17] == DigitChar(lvl)
    ensures LevelName(world, lvl, version)[20] == DigitChar(version)
    ensures ':' !in LevelName(world, lvl, version)
  {
    var name := LevelName(world, lvl, version);
    assert IntToString(world) == [DigitChar(world)];
    assert IntToString(lvl) == [DigitChar(lvl)];
    assert IntToString(version) == [DigitChar(version)];
    assert forall i :: 0 <= i < |name| ==> name[i] != ':';
  }
}
