/** GeneticAlgorithm.java: the engine that seeds the first generation,
    breeds each next one, post-processes the fitness values the game runs
    produce and imports a generation from a dump. The random sources are the
    oracle `rng`; the draw cursor `t` advances with every draw. */
module Engine {
  import opened Common
  import opened Chromosomes
  import opened Generations
  import opened Blocks
  import opened Buttons
  import opened Operators
  import Sel = Selection
  import opened Configuration
  import IF = ImportFormat
  import opened Fitness

  class GeneticAlgorithm {
    const config: Config
    /** The action sequence of the first member of the first generation. */
    const baseline: seq<int>
    const rng: Rng
    var t: nat
    var currGen: Generation?
    var numGen: int
    var bestFit: Chromosome?
    var chromosome: int

    ghost predicate Valid()
    {
      ValidConfig(config)
    }

    /** The constructor. Without a properties file every field keeps its
        initial value and no generation exists; otherwise the settings are
        read and the first generation is seeded. */
    constructor (props: Option<Properties>, rng: Rng, baseline: seq<int>)
      ensures Valid()
      ensures props.None? ==> config == Defaults && currGen == null && numGen == 0
      ensures props.Some? ==> config == Configure(props.value) && currGen != null && numGen == 1
      ensures props.Some? ==> fresh(currGen) && currGen.population == config.population.size
      ensures props.Some? ==> |currGen.generation| == config.population.size
      ensures props.Some? ==> forall i :: 0 <= i < |currGen.generation| ==> Seeded(currGen.generation[i], i, baseline, ButtonTable(), rng, 0)
      ensures t == (if props.Some? then SeedCursor(ButtonTable(), rng, 0, config.population.size) else 0)
      ensures bestFit == null && chromosome == 0 && this.baseline == baseline && this.rng == rng
    {
      this.config := if props.Some? then Configure(props.value) else Defaults;
      this.baseline := baseline;
      this.rng := rng;
      t := 0;
      currGen := null;
      numGen := 0;
      bestFit := null;
      chromosome := 0;
      new;
      if props.Some? {
        Start();
      } else {
        DefaultsValid();
      }
    }

    /** The last two steps of the constructor: the first generation becomes
        the current one and the generation count is 1. */
    method Start()
      requires Valid()
      modifies this
      ensures fresh(currGen) && currGen.population == config.population.size
      ensures |currGen.generation| == config.population.size && numGen == 1
      ensures forall i :: 0 <= i < |currGen.generation| ==> Seeded(currGen.generation[i], i, baseline, ButtonTable(), rng, old(t))
      ensures t == SeedCursor(ButtonTable(), rng, old(t), config.population.size)
      ensures bestFit == old(bestFit) && chromosome == old(chromosome)
    {
      currGen := PopulateFirstGen();
      numGen := 1;
    }

    /** The button table built from the configured frequencies. */
    function ButtonTable(): SlotTable
      requires Valid()
    {
      SlotsOf(config.buttonFrequencies)
    }

    /** populateFistGen: populationSize new chromosomes, the first with the
        baseline sequence and each other one with 101 to 200 random bursts. */
    method PopulateFirstGen() returns (g: Generation)
      requires Valid()
      modifies this
      ensures fresh(g) && g.population == config.population.size
      ensures |g.generation| == config.population.size
      ensures forall i :: 0 <= i < |g.generation| ==> fresh(g.generation[i]) && fresh(g.generation[i].inputs)
      ensures forall i :: 0 <= i < |g.generation| ==> Seeded(g.generation[i], i, baseline, ButtonTable(), rng, old(t))
      ensures currGen == old(currGen) && numGen == old(numGen) && bestFit == old(bestFit)
      ensures chromosome == old(chromosome) && t == SeedCursor(ButtonTable(), rng, old(t), config.population.size)
    {
      var size := config.population.size;
      var buttons := BuildButtonTable(config.buttonFrequencies);
      var members;
      members, t := SeedMembers(size, baseline, buttons, rng, t);
      g := new Generation(size);
      g.SetGeneration(members);
    }

    /** What crossover makes of the parents' inputs once its draw has fired,
        with any UNIFORM draws starting at t0: an exception inside ends the
        program (Exit), and MULTI_POINT returns null, which the caller then
        dereferences. */
    ghost function CrossoverChildren(in1: seq<int>, in2: seq<int>, t0: nat): Result<(seq<int>, seq<int>)>
      requires Valid()
    {
      if |in1| == 0 || |in2| == 0 then Err(Exit)
      else
        match config.crossover.crossoverType
        case OnePoint => OnePointChildren(Segments(in1), Segments(in2), config.crossover.onePointRate)
        case MultiPoint => Err(NullPointer)
        case Uniform => Ok(UniformChildren(Segments(in1), Segments(in2), rng, t0, config.crossover.uniformRate))
    }

    /** The cursor after the recombination of in1 and in2 drawing from t0
        on: UNIFORM draws once per block of the second parent; the other
        types, and inputs the block split rejects, draw nothing. */
    function CrossoverEnd(in1: seq<int>, in2: seq<int>, t0: nat): nat
      requires Valid()
    {
      if |in1| == 0 || |in2| == 0 then t0
      else if config.crossover.crossoverType.Uniform? then t0 + |Segments(in2)|
      else t0
    }

    /** The recombination of two input sequences by the configured type. */
    method Recombine(in1: seq<int>, in2: seq<int>) returns (r: Result<(seq<int>, seq<int>)>)
      requires Valid()
      modifies this
      ensures r == CrossoverChildren(in1, in2, old(t))
      ensures t == CrossoverEnd(in1, in2, old(t))
      ensures currGen == old(currGen) && numGen == old(numGen) && bestFit == old(bestFit) && chromosome == old(chromosome)
    {
      var blocks1 := SeparateArrayByBlocks(in1);
      var blocks2 := SeparateArrayByBlocks(in2);
      if blocks1.Err? || blocks2.Err? {
        return Err(Exit);
      }
      match config.crossover.crossoverType {
        case OnePoint =>
          r := OnePointCrossover(blocks1.value, blocks2.value, config.crossover.onePointRate);
        case MultiPoint =>
          r := Err(NullPointer);
        case Uniform =>
          var children;
          children, t := UniformCrossoverInputs(blocks1.value, blocks2.value, config.crossover.uniformRate, rng, t);
          r := Ok(children);
      }
    }

    /** What crossing parents with inputs in1 and in2 gives, its crossover
        coin drawn at t0: the exception, None when both children have their
        parents' inputs (always so when the coin does not come up), or the
        two children's inputs; and the cursor after the last draw. */
    ghost function CrossingOutcome(in1: seq<int>, in2: seq<int>, t0: nat): (r: (Result<Option<(seq<int>, seq<int>)>>, nat))
      requires Valid()
      ensures r.1 > t0
    {
      if !(rng.reals(t0) < config.crossover.crossoverFrequency) then (Ok(None), t0 + 1)
      else
        var children := CrossoverChildren(in1, in2, t0 + 1);
        var t' := CrossoverEnd(in1, in2, t0 + 1);
        if children.Err? then (Err(children.fault), t')
        else if children.value == (in1, in2) then (Ok(None), t')
        else (Ok(Some(children.value)), t')
    }

    /** One pass of the fill loop on values, drawing from t0 on with `left`
        slots to fill: the first parent is the member of gen at position
        nextInt(populationSize), the second the pool member the roulette
        accepts, and the two are bred as BreedOutcome says. The result is
        the children's inputs, None for a pass to repeat, or the exception;
        and the cursor after the last draw. */
    ghost function PassOutcome(genos: seq<seq<int>>, keys: seq<Double>, poolGenos: seq<seq<int>>, left: nat, fuel: nat, t0: nat)
      : (r: (Result<Option<seq<seq<int>>>>, nat))
      requires Valid() && |keys| == |poolGenos| && left > 0 && config.population.size > 0
      ensures r.0.Ok? && r.0.value.Some? ==> |r.0.value.value| == (if left == 1 then 1 else 2)
      ensures r.1 > t0
    {
      var pos := NextInt(rng, t0, config.population.size);
      if pos >= |genos| then (Err(IndexOutOfBounds), t0 + 1)
      else
        var d := SecondDraw(keys, poolGenos, genos[pos], rng, t0 + 1, fuel);
        if d.0.Err? then (Err(d.0.fault), d.1)
        else BreedOutcome(genos[pos], poolGenos[d.0.value], left, d.1)
    }

    /** Breeding parents with inputs in1 and in2, drawing from t0 on with
        `left` slots to fill: they are crossed and, when that gives
        children, the first child is mutated and, with two or more slots
        left, the second one too. */
    ghost function BreedOutcome(in1: seq<int>, in2: seq<int>, left: nat, t0: nat)
      : (r: (Result<Option<seq<seq<int>>>>, nat))
      requires Valid() && left > 0
      ensures r.0.Ok? && r.0.value.Some? ==> |r.0.value.value| == (if left == 1 then 1 else 2)
      ensures r.1 > t0
    {
      var x := CrossingOutcome(in1, in2, t0);
      if x.0.Err? then (Err(x.0.fault), x.1)
      else if x.0.value.None? then (Ok(None), x.1)
      else
        var m := MutationsOutcome(x.0.value.value, left, x.1);
        if m.0.Err? then (Err(m.0.fault), m.1) else (Ok(Some(m.0.value)), m.1)
    }

    /** The mutation step of a pass on the crossed children's inputs from t0
        on: child 1 mutated, then child 2 when more than one slot is left;
        the first exception stops it. */
    ghost function MutationsOutcome(children: (seq<int>, seq<int>), left: nat, t0: nat)
      : (r: (Result<seq<seq<int>>>, nat))
      requires Valid() && left > 0
      ensures r.0.Ok? ==> |r.0.value| == (if left == 1 then 1 else 2)
      ensures r.1 > t0
    {
      var m1 := MutationOutcome(children.0, t0);
      if m1.0.Err? then (Err(m1.0.fault), m1.1)
      else if left == 1 then (Ok([m1.0.value]), m1.1)
      else
        var m2 := MutationOutcome(children.1, m1.1);
        if m2.0.Err? then (Err(m2.0.fault), m2.1)
        else (Ok([m1.0.value, m2.0.value]), m2.1)
    }

    /** The passes of the fill loop for these parents, as a function of the
        slots left and the cursor: PassOutcome. No pass runs with no slot
        left; with a population size of 0, nextInt(0) would throw. */
    lemma PassOf(genos: seq<seq<int>>, keys: seq<Double>, poolGenos: seq<seq<int>>, fuel: nat) returns (pass: Pass)
      requires Valid() && |keys| == |poolGenos|
      ensures PassFills(pass)
      ensures IsPass(pass, genos, keys, poolGenos, fuel)
    {
      pass := (left: int, t0: nat) =>
        if left > 0 && config.population.size > 0 then PassOutcome(genos, keys, poolGenos, left, fuel, t0)
        else (Err(IllegalArgument), t0);
      forall left: int, t0: nat | left > 0 && pass(left, t0).0.Ok? && pass(left, t0).0.value.Some?
        ensures |pass(left, t0).0.value.value| == (if left == 1 then 1 else 2)
      {
        assert config.population.size > 0;
      }
    }

    /** pass gives the outcome PassOutcome describes whenever a slot is
        left in a population that is not empty. */
    ghost predicate IsPass(pass: Pass, genos: seq<seq<int>>, keys: seq<Double>, poolGenos: seq<seq<int>>, fuel: nat)
      requires Valid() && |keys| == |poolGenos|
    {
      forall left: int, t0: nat {:trigger PassOutcome(genos, keys, poolGenos, left, fuel, t0)} ::
        left > 0 && config.population.size > 0 ==> pass(left, t0) == PassOutcome(genos, keys, poolGenos, left, fuel, t0)
    }

    /** crossover. With probability crossoverFrequency two new chromosomes
        with the recombined inputs; otherwise the parents themselves. */
    method Crossover(parent1: Chromosome, parent2: Chromosome) returns (r: Result<(Chromosome, Chromosome)>)
      requires Valid()
      modifies this
      ensures t == if rng.reals(old(t)) < config.crossover.crossoverFrequency
                   then CrossoverEnd(parent1.inputs.elems, parent2.inputs.elems, old(t) + 1) else old(t) + 1
      ensures currGen == old(currGen) && numGen == old(numGen) && bestFit == old(bestFit) && chromosome == old(chromosome)
      ensures !(rng.reals(old(t)) < config.crossover.crossoverFrequency) ==> r == Ok((parent1, parent2))
      ensures rng.reals(old(t)) < config.crossover.crossoverFrequency ==>
                var children := CrossoverChildren(parent1.inputs.elems, parent2.inputs.elems, old(t) + 1);
                (r.Err? <==> children.Err?)
                && (r.Err? ==> r.fault == children.fault)
                && (r.Ok? ==> fresh(r.value.0) && fresh(r.value.1) && fresh(r.value.0.inputs) && fresh(r.value.1.inputs)
                              && r.value.0.inputs.elems == children.value.0 && r.value.1.inputs.elems == children.value.1
                              && r.value.0.fitnessValue == Real(0.0) && r.value.1.fitnessValue == Real(0.0)
                              && r.value.0.results == None && r.value.1.results == None)
    {
      var rand := rng.reals(t);
      t := t + 1;
      if !(rand < config.crossover.crossoverFrequency) {
        return Ok((parent1, parent2));
      }
      var children := Recombine(parent1.inputs.elems, parent2.inputs.elems);
      if children.Err? {
        return Err(children.fault);
      }
      var child1 := new Chromosome();
      var child2 := new Chromosome();
      var list1 := new IntList(children.value.0);
      var list2 := new IntList(children.value.1);
      child1.SetInputs(list1);
      child2.SetInputs(list2);
      r := Ok((child1, child2));
    }

    /** What mutate makes of a chromosome with these inputs, its coin drawn
        at t0: the inputs of the chromosome it returns (its own when the
        coin does not come up, those of the mutation otherwise) or the
        exception the block split throws on empty inputs; and the cursor
        after the last draw. */
    function MutationOutcome(inputs: seq<int>, t0: nat): (r: (Result<seq<int>>, nat))
      requires Valid()
      ensures r.1 > t0
    {
      if !(rng.reals(t0) < config.crossover.mutationFrequency) then (Ok(inputs), t0 + 1)
      else if |inputs| == 0 then (Err(IndexOutOfBounds), t0 + 1)
      else
        var m := BlockMutation(inputs, ButtonTable(), rng, t0 + 1);
        (Ok(m.0), m.1)
    }

    /** mutate. With probability mutationFrequency a new chromosome whose
        inputs have the drawn block replaced by a burst of the drawn button;
        otherwise the same chromosome. An empty sequence makes the block
        split throw. */
    method Mutate(c: Chromosome) returns (r: Result<Chromosome>)
      requires Valid()
      modifies this
      ensures var m := MutationOutcome(c.inputs.elems, old(t));
              t == m.1 && (r.Err? <==> m.0.Err?) && (r.Err? ==> r.fault == m.0.fault)
              && (r.Ok? ==> r.value.inputs.elems == m.0.value)
      ensures currGen == old(currGen) && numGen == old(numGen) && bestFit == old(bestFit) && chromosome == old(chromosome)
      ensures !(rng.reals(old(t)) < config.crossover.mutationFrequency) ==> r == Ok(c)
      ensures rng.reals(old(t)) < config.crossover.mutationFrequency && |c.inputs.elems| > 0 ==>
                r.Ok? && fresh(r.value) && fresh(r.value.inputs) && r.value.fitnessValue == Real(0.0) && r.value.results == None
    {
      var rand := rng.reals(t);
      t := t + 1;
      if !(rand < config.crossover.mutationFrequency) {
        return Ok(c);
      }
      var inputs, blockPos, burst;
      inputs, blockPos, burst, t := MutateInputs(c.inputs.elems, config.buttonFrequencies, rng, t);
      if inputs.Err? {
        return Err(inputs.fault);
      }
      var mutated := new Chromosome();
      var list := new IntList(inputs.value);
      mutated.SetInputs(list);
      r := Ok(mutated);
    }

    /** addMoreCommands: appends the bursts drawn from the cursor on (101 to
        200 of them) to the chromosome's own inputs list, in place, and
        returns the same chromosome. Every chromosome sharing that list sees
        the new commands. */
    method AddMoreCommands(c: Chromosome) returns (same: Chromosome)
      requires Valid()
      modifies this, c.inputs
      ensures same == c && c.inputs == old(c.inputs)
      ensures c.inputs.elems == old(c.inputs.elems) + Flatten(Bursts(ButtonTable(), rng, old(t)).0)
      ensures t == Bursts(ButtonTable(), rng, old(t)).1
      ensures BurstRun(c.inputs.elems[|old(c.inputs.elems)|..], ButtonTable())
      ensures currGen == old(currGen) && numGen == old(numGen) && bestFit == old(bestFit) && chromosome == old(chromosome)
    {
      var buttons := BuildButtonTable(config.buttonFrequencies);
      var commands, bursts;
      ghost var t0 := t;
      commands, bursts, t := AppendBursts(c.inputs.elems, buttons, rng, t);
      BurstsAreBurstRun(buttons, rng, t0);
      assert commands[|c.inputs.elems|..] == Flatten(bursts);
      c.inputs.elems := commands;
      same := c;
    }

    /** The two fields the fitness loop leaves behind. */
    method Record(best: Chromosome?, t': nat)
      modifies this
      ensures bestFit == best && t == t'
      ensures currGen == old(currGen) && numGen == old(numGen) && chromosome == old(chromosome)
    {
      bestFit, t := best, t';
    }

    /** calculateFitness, with raw[i] the value the fitness formula gives
        member i. Without a generation the first average call throws. The
        members are otherwise treated in order, each compared against bestFit
        by its raw value and given its stored value, up to the first member
        whose treatment throws. */
    method CalculateFitness(raw: seq<Double>) returns (fault: Option<Fault>, ghost v0: seq<MemberState>, ghost v: seq<MemberState>)
      requires Valid()
      requires currGen != null ==> |raw| == |currGen.generation| && Distinct(currGen.generation)
      modifies this
      modifies if currGen == null then {} else set c | c in currGen.generation
      modifies if currGen == null then {} else set c | c in currGen.generation :: c.inputs
      ensures currGen == old(currGen) && numGen == old(numGen) && chromosome == old(chromosome)
      ensures currGen == null ==> fault == Some(NullPointer) && bestFit == old(bestFit) && t == old(t)
      ensures currGen != null ==> currGen.generation == old(currGen.generation)
      ensures currGen != null ==> v0 == old(View(currGen.generation)) && v == View(currGen.generation)
      ensures currGen != null ==> Finished(v0, v, raw, ButtonTable(), rng, old(t), Processed(v0), fault)
      ensures currGen != null ==> t == TreatCursor(v0, ButtonTable(), rng, old(t), Processed(v0))
      ensures currGen != null ==>
                bestFit == Holder(currGen.generation, BestAfter(old(StartBest(currGen.generation, bestFit)), Fits(v0), raw, Processed(v0)), old(bestFit))
    {
      if currGen == null {
        return Some(NullPointer), [], [];
      }
      var gen := currGen.generation;
      var best, t';
      fault, best, t', v0, v := UpdateGeneration(gen, raw, bestFit, ButtonTable(), rng, t);
      Record(best, t');
    }

    /** breedNewGen with fitness-proportionate selection: the `top` fittest
        members by the sort and reverse, then children of roulette-drawn
        parents until the new generation holds populationSize members; it
        becomes the current one and the generation count goes up. The other
        selection schemes do nothing. Every configuration the constructor
        builds has elitism on, so the elitism branch is always taken. */
    method BreedNewGen(fuel: nat) returns (fault: Option<Fault>, ghost pass: Pass)
      requires Valid()
      modifies this
      ensures bestFit == old(bestFit) && chromosome == old(chromosome) && t >= old(t)
      ensures !config.population.fitnessProportionate ==> fault.None? && currGen == old(currGen) && numGen == old(numGen) && t == old(t)
      ensures fault.Some? ==> currGen == old(currGen) && numGen == old(numGen)
      ensures config.population.fitnessProportionate && old(currGen) == null ==> fault == Some(NullPointer)
      ensures config.population.fitnessProportionate && old(currGen) != null && config.population.top > |old(currGen.generation)| ==>
                fault == Some(IndexOutOfBounds)
      ensures config.population.fitnessProportionate && fault.None? ==>
                old(currGen) != null && fresh(currGen) && numGen == old(numGen) + 1
                && currGen.population == config.population.size
                && NewGeneration(currGen.generation, old(currGen.generation), old(Sel.Elites(Fitnesses(currGen.generation), config.population.top)).value, config.population.size)
                && forall i :: config.population.top <= i < |currGen.generation| ==> fresh(currGen.generation[i])
      ensures config.population.fitnessProportionate && fault.None? ==> AllNewborn(currGen.generation, config.population.top)
      ensures config.population.fitnessProportionate && old(currGen) != null ==>
                PassFills(pass)
                && IsPass(pass, old(Genotypes(currGen.generation)), old(Sel.RouletteKeys(Fitnesses(currGen.generation))),
                          old(Genotypes(currGen.generation)), fuel)
      ensures config.population.fitnessProportionate && old(currGen) != null && config.population.top <= |old(currGen.generation)| ==>
                var k := if config.population.top <= 0 then 0 else config.population.top;
                var f := FillFrom(pass, config.population.size - k, fuel, old(t), []);
                t == f.1 && (fault.Some? <==> f.0.Err?) && (fault.Some? ==> fault.value == f.0.fault)
                && (fault.None? ==> Genotypes(currGen.generation[k..]) == f.0.value)
    {
      pass := (left: int, t0: nat) => (Err(IllegalArgument), t0);
      if !config.population.fitnessProportionate {
        fault := None;
        return;
      }
      if currGen == null {
        fault := Some(NullPointer);
        return;
      }
      var generation;
      generation, pass := NextGeneration(this, currGen.generation, fuel);
      if generation.Err? {
        fault := Some(generation.fault);
        return;
      }
      ghost var k := if config.population.top <= 0 then 0 else config.population.top;
      Install(generation.value, if k <= |generation.value| then k else 0);
      fault := None;
    }

    /** The end of breedNewGen: the new generation becomes the current one
        and the generation count goes up; its members are left alone. */
    method Install(g: seq<Chromosome>, ghost k: nat)
      requires k <= |g|
      modifies this
      ensures currGen != null && fresh(currGen) && currGen.generation == g
      ensures currGen.population == config.population.size && numGen == old(numGen) + 1
      ensures bestFit == old(bestFit) && chromosome == old(chromosome) && t == old(t)
      ensures AllNewborn(g, config.population.top) == old(AllNewborn(g, config.population.top))
      ensures Genotypes(g[k..]) == old(Genotypes(g[k..]))
    {
      var newGen := new Generation(config.population.size);
      newGen.SetGeneration(g);
      currGen := newGen;
      numGen := numGen + 1;
    }

    /** readGenFromFile on the lines of the import file, with stageValid the
        answer of worldStageValidate. Every CHROMOSOME line sets the
        chromosome counter and every SOLUTION line adds a chromosome with
        those inputs; a line that throws stops the import, leaving the
        counter as the earlier lines set it and the current generation as
        it was. */
    method ReadGenFromLines(stageValid: bool, lines: seq<string>) returns (fault: Option<Fault>)
      requires Valid()
      modifies this
      ensures numGen == old(numGen) && bestFit == old(bestFit) && t == old(t)
      ensures !stageValid ==> fault.None? && currGen == old(currGen) && chromosome == old(chromosome)
      ensures stageValid ==>
                var rd := IF.ReadLines(lines, IF.Reader(old(chromosome), [], None));
                fault == rd.failed && chromosome == rd.chromosome
                && (fault.Some? ==> currGen == old(currGen))
                && (fault.None? ==> fresh(currGen) && currGen.population == config.population.size
                                    && Imported(currGen.generation, rd.solutions)
                                    && forall k :: 0 <= k < |currGen.generation| ==> fresh(currGen.generation[k]) && fresh(currGen.generation[k].inputs))
    {
      if !stageValid {
        return None;
      }
      var counter, members;
      counter, members, fault := ReadMembers(lines, chromosome);
      chromosome := counter;
      if fault.Some? {
        return;
      }
      var newGen := new Generation(config.population.size);
      newGen.SetGeneration(members);
      currGen := newGen;
    }
  }

  /** The cursor at which member i of the first generation starts drawing
      its bursts, when member 1 starts at t0: the baseline member draws
      nothing, and each later member starts where the one before stopped. */
  function SeedCursor(buttons: SlotTable, rng: Rng, t0: nat, i: nat): (t: nat)
    ensures t >= t0
    ensures i >= 2 ==> t > t0
  {
    if i <= 1 then t0 else Bursts(buttons, rng, SeedCursor(buttons, rng, t0, i - 1)).1
  }

  /** Member i of the first generation: fitness 0, no outcome, and the
      inputs SeedInputs gives. */
  ghost predicate Seeded(c: Chromosome, i: nat, baseline: seq<int>, buttons: SlotTable, rng: Rng, t0: nat)
    reads c, c.inputs
  {
    c.fitnessValue == Real(0.0) && c.results == None
    && c.inputs.elems == SeedInputs(i, baseline, buttons, rng, t0)
  }

  /** The inputs of member i of the first generation: the baseline for
      member 0, the bursts drawn from its cursor on for every other one. */
  function SeedInputs(i: nat, baseline: seq<int>, buttons: SlotTable, rng: Rng, t0: nat): seq<int>
  {
    if i == 0 then baseline else Flatten(Bursts(buttons, rng, SeedCursor(buttons, rng, t0, i)).0)
  }

  /** Every member of the first generation but the first holds a run of
      bursts, each a table button held 6 to 10 frames. */
  lemma SeedInputsAreBursts(i: nat, baseline: seq<int>, buttons: SlotTable, rng: Rng, t0: nat)
    requires i > 0
    ensures BurstRun(SeedInputs(i, baseline, buttons, rng, t0), buttons)
  {
    BurstsAreBurstRun(buttons, rng, SeedCursor(buttons, rng, t0, i));
  }

  /** The member loop of populateFistGen, with the draws starting at t0. */
  method SeedMembers(size: nat, baseline: seq<int>, buttons: SlotTable, rng: Rng, t0: nat)
    returns (members: seq<Chromosome>, t: nat)
    ensures |members| == size && t == SeedCursor(buttons, rng, t0, size)
    ensures forall i :: 0 <= i < size ==> fresh(members[i]) && fresh(members[i].inputs)
    ensures forall i :: 0 <= i < size ==> Seeded(members[i], i, baseline, buttons, rng, t0)
  {
    members := [];
    t := t0;
    var chromoNum := 0;
    while chromoNum < size
      invariant chromoNum <= size && |members| == chromoNum && t == SeedCursor(buttons, rng, t0, chromoNum)
      invariant forall i :: 0 <= i < chromoNum ==> fresh(members[i]) && fresh(members[i].inputs)
      invariant forall i :: 0 <= i < chromoNum ==> Seeded(members[i], i, baseline, buttons, rng, t0)
    {
      var c;
      c, t := SeedMember(chromoNum, baseline, buttons, rng, t0, t);
      ghost var before := members;
      members := members + [c];
      forall i | 0 <= i <= chromoNum
        ensures fresh(members[i]) && fresh(members[i].inputs) && Seeded(members[i], i, baseline, buttons, rng, t0)
      {
        if i < chromoNum {
          assert members[i] == before[i];
        }
      }
      chromoNum := chromoNum + 1;
    }
  }

  /** One pass of the member loop of populateFistGen: member i, drawing from t on. */
  method SeedMember(i: nat, baseline: seq<int>, buttons: SlotTable, rng: Rng, ghost t0: nat, t: nat)
    returns (c: Chromosome, t': nat)
    requires t == SeedCursor(buttons, rng, t0, i)
    ensures fresh(c) && fresh(c.inputs)
    ensures Seeded(c, i, baseline, buttons, rng, t0)
    ensures t' == SeedCursor(buttons, rng, t0, i + 1)
  {
    c := new Chromosome();
    var inputs: seq<int>;
    t' := t;
    if i != 0 {
      var bursts;
      inputs, bursts, t' := AppendBursts([], buttons, rng, t);
      assert inputs == Flatten(bursts);
    } else {
      inputs := baseline;
    }
    var list := new IntList(inputs);
    c.SetInputs(list);
  }

  /** ONE_POINT on both parents' blocks: each child is its parent without
      the block before the crossover position; a position past the last
      block makes separateLists return null and the program exit. */
  function OnePointChildren(b1: seq<Block>, b2: seq<Block>, rate: real): (r: Result<(seq<int>, seq<int>)>)
    requires 0.0 <= rate <= 1.0
    ensures r.Err? <==> OnePointPosition(|b1|, rate) >= |b1| || OnePointPosition(|b2|, rate) >= |b2|
    ensures r.Err? ==> r.fault == Exit
  {
    var pos1 := OnePointPosition(|b1|, rate);
    var pos2 := OnePointPosition(|b2|, rate);
    if pos1 >= |b1| || pos2 >= |b2| then Err(Exit)
    else Ok((Flatten(RemoveBlock(b1, pos1 - 1)), Flatten(RemoveBlock(b2, pos2 - 1))))
  }

  /** Each ONE_POINT child is its parent's inputs with the block before the
      crossover position cut out, everything before and after it kept. */
  lemma OnePointChildrenCut(b1: seq<Block>, b2: seq<Block>, rate: real)
    requires 0.0 <= rate <= 1.0
    ensures var r := OnePointChildren(b1, b2, rate);
      r.Ok? ==>
        var k1, k2 := OnePointPosition(|b1|, rate) - 1, OnePointPosition(|b2|, rate) - 1;
        r.value.0 == Flatten(b1[..k1]) + Flatten(b1[k1 + 1..])
        && r.value.1 == Flatten(b2[..k2]) + Flatten(b2[k2 + 1..])
  {
    var pos1 := OnePointPosition(|b1|, rate);
    var pos2 := OnePointPosition(|b2|, rate);
    if pos1 < |b1| && pos2 < |b2| {
      RemoveBlockKeepsRest(b1, pos1 - 1);
      RemoveBlockKeepsRest(b2, pos2 - 1);
    }
  }

  method OnePointCrossover(b1: seq<Block>, b2: seq<Block>, rate: real) returns (r: Result<(seq<int>, seq<int>)>)
    requires 0.0 <= rate <= 1.0
    ensures r == OnePointChildren(b1, b2, rate)
  {
    var child1 := OnePointChild(b1, rate);
    var child2 := OnePointChild(b2, rate);
    if child1.None? || child2.None? {
      return Err(Exit);
    }
    var out1 := BlockedArrayToArrayList(child1.value);
    var out2 := BlockedArrayToArrayList(child2.value);
    r := Ok((out1, out2));
  }

  /** UNIFORM on both parents' blocks, flattened. */
  function UniformChildren(b1: seq<Block>, b2: seq<Block>, rng: Rng, t0: nat, rate: real): (seq<int>, seq<int>)
  {
    var c := UniformUpTo(b1, b2, |b2|, rng, t0, rate);
    (Flatten(c.0), Flatten(c.1))
  }

  /** The loop's two UNIFORM children are the two children the exchange of
      chosen blocks defines, flattened. */
  lemma UniformChildrenExchange(b1: seq<Block>, b2: seq<Block>, rng: Rng, t0: nat, rate: real)
    ensures UniformChildren(b1, b2, rng, t0, rate)
         == (Flatten(UniformChild1(b1, b2, rng, t0, rate)), Flatten(UniformChild2(b1, b2, rng, t0, rate)))
  {
    UniformUpToChildren(b1, b2, rng, t0, rate);
  }

  method UniformCrossoverInputs(b1: seq<Block>, b2: seq<Block>, rate: real, rng: Rng, t0: nat)
    returns (children: (seq<int>, seq<int>), t: nat)
    ensures children == UniformChildren(b1, b2, rng, t0, rate)
    ensures t == t0 + |b2|
  {
    var c1, c2;
    c1, c2, t := UniformCrossover(b1, b2, rate, rng, t0);
    var out1 := BlockedArrayToArrayList(c1);
    var out2 := BlockedArrayToArrayList(c2);
    children := (out1, out2);
  }

  /** The new generation: the elites (by position in the old one) first,
      then children, populationSize members in all, or just the elites when
      there are more of them. */
  ghost predicate NewGeneration(g: seq<Chromosome>, gen: seq<Chromosome>, order: seq<nat>, size: int)
  {
    |g| == (if size > |order| then size else |order|)
    && forall i :: 0 <= i < |order| ==> order[i] < |gen| && g[i] == gen[order[i]]
  }

  /** The total of the members' fitness values, summed in order. */
  method TotalFitness(gen: seq<Chromosome>) returns (total: Double)
    ensures total == FitnessTotal(Fitnesses(gen))
  {
    ghost var fits := Fitnesses(gen);
    total := Real(0.0);
    for i := 0 to |gen|
      invariant total == FitnessTotal(fits[..i])
    {
      assert fits[..i + 1][..i] == fits[..i];
      total := Add(total, gen[i].fitnessValue);
    }
    assert fits[..|gen|] == fits;
  }

  /** One pass of the fill loop of breedNewGen, given the slots left and
      the cursor: the inputs of the children it adds, None for a pass to
      repeat, or the exception; and the cursor after it. */
  type Pass = (int, nat) -> (Result<Option<seq<seq<int>>>>, nat)

  /** A pass that adds children adds one when one slot is left, two otherwise. */
  ghost predicate PassFills(pass: Pass)
  {
    forall left: int, t0: nat :: left > 0 && pass(left, t0).0.Ok? && pass(left, t0).0.value.Some? ==>
      |pass(left, t0).0.value.value| == (if left == 1 then 1 else 2)
  }

  /** The fill loop on values, from the pass drawing at t0 on, with `left`
      slots still to fill, `retries` repeats still allowed and `born` the
      children's inputs so far: the inputs of all the children, in order,
      or the exception that ends the loop; and the cursor after. */
  ghost function FillFrom(pass: Pass, left: int, retries: nat, t0: nat, born: seq<seq<int>>): (Result<seq<seq<int>>>, nat)
    requires PassFills(pass)
    decreases left, retries
  {
    if left <= 0 then (Ok(born), t0)
    else
      var p := pass(left, t0);
      if p.0.Err? then (Err(p.0.fault), p.1)
      else if p.0.value.None? then
        if retries == 0 then (Err(Diverged), p.1) else FillFrom(pass, left, retries - 1, p.1, born)
      else FillFrom(pass, left - |p.0.value.value|, retries, p.1, born + p.0.value.value)
  }

  /** How the fill loop goes on from the outcome of its next pass. */
  lemma FillStep(pass: Pass, left: int, retries: nat, t0: nat, born: seq<seq<int>>)
    requires PassFills(pass) && left > 0
    ensures var p := pass(left, t0); var f := FillFrom(pass, left, retries, t0, born);
            (p.0.Err? ==> f == (Err(p.0.fault), p.1))
            && (p.0.Ok? && p.0.value.None? && retries == 0 ==> f == (Err(Diverged), p.1))
            && (p.0.Ok? && p.0.value.None? && retries > 0 ==> f == FillFrom(pass, left, retries - 1, p.1, born))
            && (p.0.Ok? && p.0.value.Some? ==> f == FillFrom(pass, left - |p.0.value.value|, retries, p.1, born + p.0.value.value))
  {
  }

  /** The fill loop depends on its pass only where a slot is left. */
  lemma {:induction false} FillFromAgree(p1: Pass, p2: Pass, left: int, retries: nat, t0: nat, born: seq<seq<int>>)
    requires PassFills(p1) && PassFills(p2)
    requires forall l: int, t: nat :: l > 0 ==> p1(l, t) == p2(l, t)
    ensures FillFrom(p1, left, retries, t0, born) == FillFrom(p2, left, retries, t0, born)
    decreases left, retries
  {
    if left > 0 {
      var p := p1(left, t0);
      if p.0.Ok? && p.0.value.None? && retries > 0 {
        FillFromAgree(p1, p2, left, retries - 1, p.1, born);
      } else if p.0.Ok? && p.0.value.Some? {
        FillFromAgree(p1, p2, left - |p.0.value.value|, retries, p.1, born + p.0.value.value);
      }
    }
  }

  /** A fill loop that completes adds exactly the slots it was left, after
      the children it started with. */
  lemma {:induction false} FillFromLength(pass: Pass, left: int, retries: nat, t0: nat, born: seq<seq<int>>)
    requires PassFills(pass)
    ensures var f := FillFrom(pass, left, retries, t0, born);
            f.0.Ok? ==> born <= f.0.value && |f.0.value| == |born| + (if left > 0 then left else 0)
    decreases left, retries
  {
    if left > 0 {
      var p := pass(left, t0);
      if p.0.Ok? && p.0.value.None? && retries > 0 {
        FillFromLength(pass, left, retries - 1, p.1, born);
      } else if p.0.Ok? && p.0.value.Some? {
        var kids := p.0.value.value;
        FillFromLength(pass, left - |kids|, retries, p.1, born + kids);
        assert born <= born + kids;
      }
    }
  }

  /** The chromosomes' input sequences, in order. */
  ghost function Genotypes(cs: seq<Chromosome>): (g: seq<seq<int>>)
    reads set c | c in cs, set c | c in cs :: c.inputs
    ensures |g| == |cs| && forall i :: 0 <= i < |cs| ==> g[i] == cs[i].inputs.elems
  {
    if |cs| == 0 then [] else Genotypes(cs[..|cs| - 1]) + [cs[|cs| - 1].inputs.elems]
  }

  /** The genotypes from k on, given element by element. */
  lemma GenotypesTail(cs: seq<Chromosome>, k: nat, g: seq<seq<int>>)
    requires k <= |cs| && |g| == |cs| - k
    requires forall i :: 0 <= i < |g| ==> g[i] == cs[k + i].inputs.elems
    ensures Genotypes(cs[k..]) == g
  {
  }

  /** The genotypes, given element by element. */
  lemma GenotypesAre(cs: seq<Chromosome>, g: seq<seq<int>>)
    requires |g| == |cs| && forall i :: 0 <= i < |cs| ==> cs[i].inputs.elems == g[i]
    ensures Genotypes(cs) == g
  {
  }

  lemma GenotypesAppend(a: seq<Chromosome>, b: seq<Chromosome>)
    ensures Genotypes(a + b) == Genotypes(a) + Genotypes(b)
  {
    assert forall i :: 0 <= i < |a + b| ==> Genotypes(a + b)[i] == (Genotypes(a) + Genotypes(b))[i];
  }

  /** A copy made by Chromosome.clone: same inputs list, fitness and outcome. */
  ghost predicate CloneOf(c: Chromosome, m: Chromosome)
    reads c, m
  {
    c.inputs == m.inputs && c.fitnessValue == m.fitnessValue && c.results == m.results
  }

  /** One pair of the roulette: the running key advanced by the member's
      share of the total, and a clone of the member. */
  method RouletteEntry(m: Chromosome, currValue: Double, total: Double) returns (key: Double, c: Chromosome)
    ensures key == Add(currValue, DivD(m.fitnessValue, total))
    ensures fresh(c) && CloneOf(c, m)
  {
    key := Add(currValue, DivD(m.fitnessValue, total));
    c := m.Clone();
  }

  /** Every member from position `from` on was made in this breeding. */
  ghost predicate AllNewborn(g: seq<Chromosome>, from: int)
    reads set c | c in g
  {
    forall i :: 0 <= from <= i < |g| ==> Newborn(g[i])
  }

  /** The members of the next generation under fitness-proportionate
      selection with elitism: the elites of gen, then children. */
  method NextGeneration(ga: GeneticAlgorithm, gen: seq<Chromosome>, fuel: nat)
    returns (r: Result<seq<Chromosome>>, ghost pass: Pass)
    requires ga.Valid()
    modifies ga
    ensures ga.currGen == old(ga.currGen) && ga.numGen == old(ga.numGen) && ga.bestFit == old(ga.bestFit)
    ensures ga.chromosome == old(ga.chromosome) && ga.t >= old(ga.t)
    ensures ga.config.population.top > |gen| ==> r == Err(IndexOutOfBounds)
    ensures r.Ok? ==> NewGeneration(r.value, gen, old(Sel.Elites(Fitnesses(gen), ga.config.population.top)).value, ga.config.population.size)
    ensures r.Ok? ==> forall i :: ga.config.population.top <= i < |r.value| ==> fresh(r.value[i])
    ensures r.Ok? ==> AllNewborn(r.value, ga.config.population.top)
    ensures PassFills(pass) && ga.IsPass(pass, old(Genotypes(gen)), old(Sel.RouletteKeys(Fitnesses(gen))), old(Genotypes(gen)), fuel)
    ensures ga.config.population.top <= |gen| ==>
              var k := if ga.config.population.top <= 0 then 0 else ga.config.population.top;
              var f := FillFrom(pass, ga.config.population.size - k, fuel, old(ga.t), []);
              ga.t == f.1 && (r.Err? <==> f.0.Err?) && (r.Err? ==> r.fault == f.0.fault)
              && (r.Ok? ==> Genotypes(r.value[k..]) == f.0.value)
  {
    ghost var genos := Genotypes(gen);
    pass := ga.PassOf(genos, Sel.RouletteKeys(Fitnesses(gen)), genos, fuel);
    var order := Sel.Elites(Fitnesses(gen), ga.config.population.top);
    if order.None? {
      return Err(IndexOutOfBounds), pass;
    }
    var elites := seq(|order.value|, i requires 0 <= i < |order.value| => gen[order.value[i]]);
    var keys, pool := FitnessProportionateSelection(gen);
    r := FillGeneration(ga, gen, keys, pool, elites, fuel, pass, genos, genos);
    if r.Ok? {
      forall i | 0 <= i < |elites|
        ensures r.value[i] == gen[order.value[i]]
      {
        assert r.value[i] == r.value[..|elites|][i];
      }
    }
  }

  /** fitnessProportionateSelection: the roulette keys of the members'
      fitness values and, beside them, a clone of each member. */
  method FitnessProportionateSelection(gen: seq<Chromosome>) returns (keys: seq<Double>, pool: seq<Chromosome>)
    ensures keys == Sel.RouletteKeys(Fitnesses(gen))
    ensures |pool| == |gen|
    ensures forall i :: 0 <= i < |gen| ==> fresh(pool[i]) && CloneOf(pool[i], gen[i])
  {
    ghost var fits := Fitnesses(gen);
    var total := TotalFitness(gen);
    assert total == FitnessTotal(fits);
    var currValue := Real(0.0);
    keys, pool := [], [];
    for i := 0 to |gen|
      invariant currValue == Sel.Running(fits[..i], total)
      invariant keys == Sel.KeysWith(fits[..i], total)
      invariant |pool| == i
      invariant forall j :: 0 <= j < i ==> fresh(pool[j]) && CloneOf(pool[j], gen[j])
    {
      Sel.KeysStep(fits, i, total, currValue);
      var c;
      currValue, c := RouletteEntry(gen[i], currValue, total);
      keys := keys + [currValue];
      ghost var before := pool;
      pool := pool + [c];
      forall j | 0 <= j < i + 1
        ensures fresh(pool[j]) && CloneOf(pool[j], gen[j])
      {
        if j < i {
          assert pool[j] == before[j];
        }
      }
    }
    assert fits[..|gen|] == fits;
    Sel.KeysWithAreRouletteKeys(fits);
  }

  /** A draw of Math.random() that yields a second parent: the first key at
      least rand belongs to a pool member whose inputs differ from those of
      parent 1 (genos holds the pool members' inputs). */
  predicate Accepted(keys: seq<Double>, genos: seq<seq<int>>, parent1: seq<int>, rand: real)
    requires |keys| == |genos|
  {
    var j := Sel.FirstAtLeast(keys, rand);
    j < |keys| && genos[j] != parent1
  }

  /** The second-parent loop on values: the pool position of the first draw
      from t0 on that is accepted, within fuel draws, and the cursor after it. */
  function SecondDraw(keys: seq<Double>, genos: seq<seq<int>>, parent1: seq<int>, rng: Rng, t0: nat, fuel: nat)
    : (r: (Result<nat>, nat))
    requires |keys| == |genos|
    ensures r.0.Ok? ==> r.0.value < |genos| && genos[r.0.value] != parent1
    ensures r.0.Err? ==> r.0.fault == Diverged
    ensures t0 <= r.1 <= t0 + fuel
    decreases fuel
  {
    if fuel == 0 then (Err(Diverged), t0)
    else if Accepted(keys, genos, parent1, rng.reals(t0)) then (Ok(Sel.FirstAtLeast(keys, rng.reals(t0))), t0 + 1)
    else SecondDraw(keys, genos, parent1, rng, t0 + 1, fuel - 1)
  }

  /** One draw of the second-parent loop: an accepted draw ends it, any
      other one leaves the rest of the loop to the next draw. */
  lemma SecondDrawStep(keys: seq<Double>, genos: seq<seq<int>>, parent1: seq<int>, rng: Rng, t: nat, fuel: nat)
    requires |keys| == |genos| && fuel > 0
    ensures Accepted(keys, genos, parent1, rng.reals(t)) ==>
              SecondDraw(keys, genos, parent1, rng, t, fuel) == (Ok(Sel.FirstAtLeast(keys, rng.reals(t))), t + 1)
    ensures !Accepted(keys, genos, parent1, rng.reals(t)) ==>
              SecondDraw(keys, genos, parent1, rng, t, fuel) == SecondDraw(keys, genos, parent1, rng, t + 1, fuel - 1)
  {
  }

  /** SecondDraw is the first accepted draw: every draw before it is
      refused, and without one all fuel draws are refused. */
  lemma {:induction false} SecondDrawIsFirstAccepted(keys: seq<Double>, genos: seq<seq<int>>, parent1: seq<int>, rng: Rng, t0: nat, fuel: nat)
    requires |keys| == |genos|
    ensures var r := SecondDraw(keys, genos, parent1, rng, t0, fuel);
            (r.0.Ok? ==> r.1 > t0 && Accepted(keys, genos, parent1, rng.reals(r.1 - 1))
                         && r.0.value == Sel.FirstAtLeast(keys, rng.reals(r.1 - 1))
                         && forall d :: t0 <= d < r.1 - 1 ==> !Accepted(keys, genos, parent1, rng.reals(d)))
            && (r.0.Err? ==> r.1 == t0 + fuel && forall d :: t0 <= d < r.1 ==> !Accepted(keys, genos, parent1, rng.reals(d)))
    decreases fuel
  {
    if fuel > 0 && !Accepted(keys, genos, parent1, rng.reals(t0)) {
      SecondDrawIsFirstAccepted(keys, genos, parent1, rng, t0 + 1, fuel - 1);
    }
  }

  /** The roulette's selection for rand is accepted exactly when it is
      some pool member whose inputs differ from parent 1's. */
  lemma AcceptedSelection(keys: seq<Double>, genos: seq<seq<int>>, parent1: seq<int>, rand: real, sel: Option<nat>)
    requires |keys| == |genos|
    requires sel == if Sel.FirstAtLeast(keys, rand) < |keys| then Some(Sel.FirstAtLeast(keys, rand)) else None
    ensures Accepted(keys, genos, parent1, rand) <==> sel.Some? && genos[sel.value] != parent1
  {
  }

  /** The second-parent loop of breedNewGen: draws until one is accepted,
      for at most fuel draws; SecondDrawIsFirstAccepted says which draw
      that is. */
  method DrawSecondParent(keys: seq<Double>, pool: seq<Chromosome>, parent1: Chromosome, rng: Rng, t0: nat, fuel: nat)
    returns (r: Result<Chromosome>, t: nat)
    requires |keys| == |pool|
    ensures var d := SecondDraw(keys, Genotypes(pool), parent1.inputs.elems, rng, t0, fuel);
            t == d.1 && (d.0.Err? ==> r == Err(d.0.fault)) && (d.0.Ok? ==> r == Ok(pool[d.0.value]))
  {
    ghost var genos, p1 := Genotypes(pool), parent1.inputs.elems;
    t := t0;
    while t < t0 + fuel
      invariant t0 <= t <= t0 + fuel
      invariant SecondDraw(keys, genos, p1, rng, t0, fuel) == SecondDraw(keys, genos, p1, rng, t, t0 + fuel - t)
    {
      var rand := rng.reals(t);
      var sel := Sel.RouletteSelect(keys, rand);
      AcceptedSelection(keys, genos, p1, rand, sel);
      SecondDrawStep(keys, genos, p1, rng, t, t0 + fuel - t);
      if sel.Some? && !pool[sel.value].IsClone(parent1) {
        return Ok(pool[sel.value]), t + 1;
      }
      t := t + 1;
    }
    r := Err(Diverged);
  }

  /** A new member of the next generation: made by crossover or mutation,
      with fitness 0 and no outcome. */
  ghost predicate Newborn(c: Chromosome)
    reads c
  {
    c.fitnessValue == Real(0.0) && c.results == None
  }

  /** One pass of the fill loop of breedNewGen: a parent at a drawn
      position and a roulette-drawn second parent are crossed; None when
      both children are clones of their parents (the pass is repeated),
      otherwise the first child mutated or, with two or more slots left,
      both children mutated. */
  method BreedPair(ga: GeneticAlgorithm, gen: seq<Chromosome>, keys: seq<Double>, pool: seq<Chromosome>, left: nat, fuel: nat,
                   ghost pass: Pass, ghost genos: seq<seq<int>>, ghost poolGenos: seq<seq<int>>)
    returns (r: Result<Option<seq<Chromosome>>>)
    requires ga.Valid() && |keys| == |pool| && left > 0 && ga.config.population.size > 0
    requires |genos| == |gen| && forall i :: 0 <= i < |gen| ==> gen[i].inputs.elems == genos[i]
    requires |poolGenos| == |pool| && forall i :: 0 <= i < |pool| ==> pool[i].inputs.elems == poolGenos[i]
    requires ga.IsPass(pass, genos, keys, poolGenos, fuel)
    modifies ga
    ensures ga.currGen == old(ga.currGen) && ga.numGen == old(ga.numGen) && ga.bestFit == old(ga.bestFit)
    ensures ga.chromosome == old(ga.chromosome) && ga.t > old(ga.t)
    ensures NextInt(ga.rng, old(ga.t), ga.config.population.size) >= |gen| ==> r == Err(IndexOutOfBounds)
    ensures var p := pass(left, old(ga.t));
            ga.t == p.1 && (r.Err? <==> p.0.Err?) && (r.Err? ==> r.fault == p.0.fault)
            && (r.Ok? ==> (r.value.None? <==> p.0.value.None?))
            && (r.Ok? && r.value.Some? ==> Genotypes(r.value.value) == p.0.value.value)
    ensures r.Ok? && r.value.Some? ==> |r.value.value| == (if left == 1 then 1 else 2)
    ensures r.Ok? && r.value.Some? ==> forall i :: 0 <= i < |r.value.value| ==> fresh(r.value.value[i]) && Newborn(r.value.value[i])
  {
    ghost var p := ga.PassOutcome(genos, keys, poolGenos, left, fuel, ga.t);
    var pos := NextInt(ga.rng, ga.t, ga.config.population.size);
    ga.t := ga.t + 1;
    if pos >= |gen| {
      return Err(IndexOutOfBounds);
    }
    var parent1 := gen[pos];
    GenotypesAre(pool, poolGenos);
    var drawn, t' := DrawSecondParent(keys, pool, parent1, ga.rng, ga.t, fuel);
    ga.t := t';
    if drawn.Err? {
      return Err(drawn.fault);
    }
    r := Breed(ga, parent1, drawn.value, left);
  }

  /** The breeding step of a pass: the parents are crossed; None when both
      children are clones of their parents, otherwise the first child
      mutated or, with two or more slots left, both children mutated. */
  method Breed(ga: GeneticAlgorithm, parent1: Chromosome, parent2: Chromosome, left: nat)
    returns (r: Result<Option<seq<Chromosome>>>)
    requires ga.Valid() && left > 0
    modifies ga
    ensures ga.currGen == old(ga.currGen) && ga.numGen == old(ga.numGen) && ga.bestFit == old(ga.bestFit)
    ensures ga.chromosome == old(ga.chromosome) && ga.t > old(ga.t)
    ensures var b := ga.BreedOutcome(parent1.inputs.elems, parent2.inputs.elems, left, old(ga.t));
            ga.t == b.1 && (r.Err? <==> b.0.Err?) && (r.Err? ==> r.fault == b.0.fault)
            && (r.Ok? ==> (r.value.None? <==> b.0.value.None?))
            && (r.Ok? && r.value.Some? ==> Genotypes(r.value.value) == b.0.value.value)
    ensures r.Ok? && r.value.Some? ==> |r.value.value| == (if left == 1 then 1 else 2)
    ensures r.Ok? && r.value.Some? ==> forall i :: 0 <= i < |r.value.value| ==> fresh(r.value.value[i]) && Newborn(r.value.value[i])
  {
    var children := CrossParents(ga, parent1, parent2);
    if children.Err? {
      return Err(children.fault);
    }
    if children.value.None? {
      return Ok(None);
    }
    var mutated := MutateChildren(ga, children.value.value.0, children.value.value.1, left);
    if mutated.Err? {
      return Err(mutated.fault);
    }
    r := Ok(Some(mutated.value));
  }

  /** The mutation step of a pass: child 1 mutated, then child 2 when more
      than one slot is left. */
  method MutateChildren(ga: GeneticAlgorithm, child1: Chromosome, child2: Chromosome, left: nat)
    returns (r: Result<seq<Chromosome>>)
    requires ga.Valid() && left > 0 && Newborn(child1) && Newborn(child2)
    modifies ga
    ensures ga.currGen == old(ga.currGen) && ga.numGen == old(ga.numGen) && ga.bestFit == old(ga.bestFit)
    ensures ga.chromosome == old(ga.chromosome) && ga.t > old(ga.t)
    ensures var m := ga.MutationsOutcome((child1.inputs.elems, child2.inputs.elems), left, old(ga.t));
            ga.t == m.1 && (r.Err? <==> m.0.Err?) && (r.Err? ==> r.fault == m.0.fault)
            && (r.Ok? ==> Genotypes(r.value) == m.0.value)
    ensures r.Ok? ==> |r.value| == (if left == 1 then 1 else 2)
    ensures r.Ok? ==> forall i :: 0 <= i < |r.value| ==>
              (r.value[i] == child1 || r.value[i] == child2 || fresh(r.value[i])) && Newborn(r.value[i])
  {
    ghost var m1 := ga.MutationOutcome(child1.inputs.elems, ga.t);
    var mutated1 := MutateChild(ga, child1);
    if mutated1.Err? {
      return Err(mutated1.fault);
    }
    if left == 1 {
      r := Ok([mutated1.value]);
      assert Genotypes(r.value) == [m1.0.value];
      return;
    }
    ghost var m2 := ga.MutationOutcome(child2.inputs.elems, ga.t);
    var mutated2 := MutateChild(ga, child2);
    if mutated2.Err? {
      return Err(mutated2.fault);
    }
    r := Ok([mutated1.value, mutated2.value]);
    assert Genotypes(r.value) == [m1.0.value, m2.0.value];
  }

  /** The crossover step of a pass: clones of both parents are crossed;
      None when the children are genotype clones of both parents, which is
      always the case when the crossover draw does not fire. */
  method CrossParents(ga: GeneticAlgorithm, parent1: Chromosome, parent2: Chromosome)
    returns (r: Result<Option<(Chromosome, Chromosome)>>)
    requires ga.Valid()
    modifies ga
    ensures ga.currGen == old(ga.currGen) && ga.numGen == old(ga.numGen) && ga.bestFit == old(ga.bestFit)
    ensures ga.chromosome == old(ga.chromosome) && ga.t > old(ga.t)
    ensures !(ga.rng.reals(old(ga.t)) < ga.config.crossover.crossoverFrequency) ==> r == Ok(None)
    ensures var x := ga.CrossingOutcome(old(parent1.inputs.elems), old(parent2.inputs.elems), old(ga.t));
            ga.t == x.1 && (r.Err? <==> x.0.Err?) && (r.Err? ==> r.fault == x.0.fault)
            && (r.Ok? ==> (r.value.None? <==> x.0.value.None?))
            && (r.Ok? && r.value.Some? ==> (r.value.value.0.inputs.elems, r.value.value.1.inputs.elems) == x.0.value.value)
    ensures r.Ok? && r.value.Some? ==> fresh(r.value.value.0) && fresh(r.value.value.1)
    ensures r.Ok? && r.value.Some? ==> Newborn(r.value.value.0) && Newborn(r.value.value.1)
  {
    var copy1 := parent1.Clone();
    var copy2 := parent2.Clone();
    var children := ga.Crossover(copy1, copy2);
    if children.Err? {
      r := Err(children.fault);
    } else if children.value.0.IsClone(parent1) && children.value.1.IsClone(parent2) {
      r := Ok(None);
    } else {
      r := Ok(Some(children.value));
    }
  }

  /** The mutation step of a pass: the child itself or a new mutated chromosome. */
  method MutateChild(ga: GeneticAlgorithm, child: Chromosome) returns (r: Result<Chromosome>)
    requires ga.Valid()
    modifies ga
    ensures ga.currGen == old(ga.currGen) && ga.numGen == old(ga.numGen) && ga.bestFit == old(ga.bestFit)
    ensures ga.chromosome == old(ga.chromosome) && ga.t > old(ga.t)
    ensures var m := ga.MutationOutcome(child.inputs.elems, old(ga.t));
            ga.t == m.1 && (r.Err? <==> m.0.Err?) && (r.Err? ==> r.fault == m.0.fault)
            && (r.Ok? ==> r.value.inputs.elems == m.0.value)
    ensures r.Ok? ==> r.value == child || (fresh(r.value) && Newborn(r.value))
    ensures r.Ok? && Newborn(child) ==> Newborn(r.value)
  {
    r := ga.Mutate(child);
  }

  /** The fill loop of breedNewGen: from the elites, children are added
      until the generation holds populationSize members. A pass whose
      children are clones is repeated, at most fuel times in all. */
  method FillGeneration(ga: GeneticAlgorithm, gen: seq<Chromosome>, keys: seq<Double>, pool: seq<Chromosome>,
                        elites: seq<Chromosome>, fuel: nat, ghost pass: Pass,
                        ghost genos: seq<seq<int>>, ghost poolGenos: seq<seq<int>>)
    returns (r: Result<seq<Chromosome>>)
    requires ga.Valid() && |keys| == |pool|
    requires |genos| == |gen| && forall i :: 0 <= i < |gen| ==> gen[i].inputs.elems == genos[i]
    requires |poolGenos| == |pool| && forall i :: 0 <= i < |pool| ==> pool[i].inputs.elems == poolGenos[i]
    requires PassFills(pass) && ga.IsPass(pass, genos, keys, poolGenos, fuel)
    modifies ga
    ensures ga.currGen == old(ga.currGen) && ga.numGen == old(ga.numGen) && ga.bestFit == old(ga.bestFit)
    ensures ga.chromosome == old(ga.chromosome) && ga.t >= old(ga.t)
    ensures r.Ok? ==> |r.value| == (if ga.config.population.size > |elites| then ga.config.population.size else |elites|)
    ensures var f := FillFrom(pass, ga.config.population.size - |elites|, fuel, old(ga.t), []);
            ga.t == f.1 && (r.Err? <==> f.0.Err?) && (r.Err? ==> r.fault == f.0.fault)
            && (r.Ok? ==> Genotypes(r.value[|elites|..]) == f.0.value)
    ensures r.Ok? ==> r.value[..|elites|] == elites
    ensures r.Ok? ==> forall i :: |elites| <= i < |r.value| ==> fresh(r.value[i]) && Newborn(r.value[i])
  {
    var size := ga.config.population.size;
    var generation := elites;
    var retries := fuel;
    ghost var born: seq<seq<int>> := [];
    while size > |generation|
      invariant forall i :: 0 <= i < |gen| ==> gen[i].inputs.elems == genos[i]
      invariant forall i :: 0 <= i < |pool| ==> pool[i].inputs.elems == poolGenos[i]
      invariant |elites| <= |generation| && generation[..|elites|] == elites
      invariant size < |generation| ==> generation == elites
      invariant |born| == |generation| - |elites|
      invariant forall i :: 0 <= i < |born| ==> born[i] == generation[|elites| + i].inputs.elems
      invariant forall i :: |elites| <= i < |generation| ==> fresh(generation[i]) && Newborn(generation[i])
      invariant ga.currGen == old(ga.currGen) && ga.numGen == old(ga.numGen) && ga.bestFit == old(ga.bestFit)
      invariant ga.chromosome == old(ga.chromosome) && ga.t >= old(ga.t)
      invariant FillFrom(pass, size - |elites|, fuel, old(ga.t), []) == FillFrom(pass, size - |generation|, retries, ga.t, born)
      decreases size - |generation|, retries
    {
      var next;
      next, born := FillPass(ga, gen, keys, pool, fuel, pass, genos, poolGenos, elites, generation, retries, born);
      if next.Err? {
        return Err(next.fault);
      }
      generation, retries := next.value.0, next.value.1;
    }
    GenotypesTail(generation, |elites|, born);
    r := Ok(generation);
  }

  /** One pass of the fill loop: the children BreedPair gives join the
      generation, a pass of clones uses up one repeat, and the fill loop
      on values goes on alike; a failed pass ends it as it ends the loop. */
  method FillPass(ga: GeneticAlgorithm, gen: seq<Chromosome>, keys: seq<Double>, pool: seq<Chromosome>, fuel: nat,
                  ghost pass: Pass, ghost genos: seq<seq<int>>, ghost poolGenos: seq<seq<int>>,
                  elites: seq<Chromosome>, generation: seq<Chromosome>, retries: nat, ghost born: seq<seq<int>>)
    returns (r: Result<(seq<Chromosome>, nat)>, ghost born': seq<seq<int>>)
    requires ga.Valid() && |keys| == |pool| && ga.config.population.size > |generation|
    requires |genos| == |gen| && forall i :: 0 <= i < |gen| ==> gen[i].inputs.elems == genos[i]
    requires |poolGenos| == |pool| && forall i :: 0 <= i < |pool| ==> pool[i].inputs.elems == poolGenos[i]
    requires PassFills(pass) && ga.IsPass(pass, genos, keys, poolGenos, fuel)
    requires |elites| <= |generation| && generation[..|elites|] == elites && |born| == |generation| - |elites|
    requires forall i :: 0 <= i < |born| ==> born[i] == generation[|elites| + i].inputs.elems
    requires forall i :: |elites| <= i < |generation| ==> Newborn(generation[i])
    modifies ga
    ensures ga.currGen == old(ga.currGen) && ga.numGen == old(ga.numGen) && ga.bestFit == old(ga.bestFit)
    ensures ga.chromosome == old(ga.chromosome) && ga.t > old(ga.t)
    ensures var left := ga.config.population.size - |generation|;
            r.Err? ==> FillFrom(pass, left, retries, old(ga.t), born) == (Err(r.fault), ga.t)
    ensures r.Ok? ==>
              var g := r.value.0;
              |elites| <= |g| <= ga.config.population.size && g[..|elites|] == elites
              && |born'| == |g| - |elites|
              && (forall i :: 0 <= i < |born'| ==> born'[i] == g[|elites| + i].inputs.elems)
              && (forall i :: |elites| <= i < |g| ==> (i < |generation| ==> g[i] == generation[i]) && Newborn(g[i]))
              && (forall i :: |generation| <= i < |g| ==> fresh(g[i]))
              && FillFrom(pass, ga.config.population.size - |generation|, retries, old(ga.t), born)
                 == FillFrom(pass, ga.config.population.size - |g|, r.value.1, ga.t, born')
              && ((|generation| < |g| && r.value.1 == retries) || (g == generation && r.value.1 < retries))
  {
    ghost var t0 := ga.t;
    var left := ga.config.population.size - |generation|;
    var kids := BreedPair(ga, gen, keys, pool, left, fuel, pass, genos, poolGenos);
    FillStep(pass, left, retries, t0, born);
    if kids.Err? {
      return Err(kids.fault), born;
    }
    if kids.value.None? {
      if retries == 0 {
        return Err(Diverged), born;
      }
      return Ok((generation, retries - 1)), born;
    }
    var g := generation + kids.value.value;
    born' := born + Genotypes(kids.value.value);
    forall i | |born| <= i < |born'|
      ensures born'[i] == g[|elites| + i].inputs.elems
    {
      assert g[|elites| + i] == kids.value.value[i - |born|];
    }
    r := Ok((g, retries));
  }

  /** The imported generation: one chromosome per SOLUTION line, in file
      order, holding that line's values, with fitness 0 and no outcome. */
  ghost predicate Imported(members: seq<Chromosome>, solutions: seq<seq<int>>)
    reads set c | c in members, set c | c in members :: c.inputs
  {
    |members| == |solutions|
    && forall k :: 0 <= k < |members| ==>
         members[k].inputs.elems == solutions[k] && Newborn(members[k])
  }

  lemma ImportedAppend(members: seq<Chromosome>, sols: seq<seq<int>>, c: Chromosome)
    requires Imported(members, sols) && Newborn(c)
    ensures Imported(members + [c], sols + [c.inputs.elems])
  {
    var m, t := members + [c], sols + [c.inputs.elems];
    forall k | 0 <= k < |m|
      ensures m[k].inputs.elems == t[k] && Newborn(m[k])
    {
      if k < |members| {
        assert m[k] == members[k] && t[k] == sols[k];
      }
    }
  }

  /** One line of readGenFromFile: a CHROMOSOME line gives the new
      counter, a SOLUTION line a new chromosome with its values, and a line
      that throws its exception. */
  method ReadLine(line: string, counter: int, ghost sols: seq<seq<int>>) returns (counter': int, member: Option<Chromosome>, failed: Option<Fault>)
    ensures var r := IF.Apply(IF.Reader(counter, sols, None), IF.ParseLine(line));
            counter' == r.chromosome && failed == r.failed
            && r.solutions == sols + (if member.Some? then [member.value.inputs.elems] else [])
            && (member.Some? ==> fresh(member.value) && fresh(member.value.inputs) && Newborn(member.value))
  {
    counter', member, failed := counter, None, None;
    var parsed := IF.ParseLine(line);
    match parsed {
      case Err(f) =>
        failed := Some(f);
      case Ok(ChromosomeNumber(n)) =>
        counter' := n;
      case Ok(Solution(values)) =>
        var c := new Chromosome();
        var list := new IntList(values);
        c.SetInputs(list);
        member := Some(c);
      case Ok(Other) =>
    }
  }

  /** Line i of the loop of readGenFromFile, read into the members so far. */
  method ReadInto(lines: seq<string>, i: nat, ghost r0: IF.Reader, counter: int, members: seq<Chromosome>, ghost sols: seq<seq<int>>)
    returns (counter': int, members': seq<Chromosome>, failed: Option<Fault>, ghost sols': seq<seq<int>>)
    requires i < |lines|
    requires IF.ReadLines(lines[..i], r0) == IF.Reader(counter, sols, None) && Imported(members, sols)
    ensures IF.ReadLines(lines[..i + 1], r0) == IF.Reader(counter', sols', failed)
    ensures Imported(members', sols')
    ensures |members| <= |members'| && forall k :: 0 <= k < |members| ==> members'[k] == members[k]
    ensures forall k :: |members| <= k < |members'| ==> fresh(members'[k]) && fresh(members'[k].inputs)
  {
    IF.ReadStep(lines, i, r0);
    var member;
    counter', member, failed := ReadLine(lines[i], counter, sols);
    members', sols' := members, sols;
    if member.Some? {
      ImportedAppend(members, sols, member.value);
      members' := members + [member.value];
      sols' := sols + [member.value.inputs.elems];
    }
  }

  /** The line loop of readGenFromFile, from the chromosome counter c0. */
  method ReadMembers(lines: seq<string>, c0: int) returns (counter: int, members: seq<Chromosome>, failed: Option<Fault>)
    ensures var rd := IF.ReadLines(lines, IF.Reader(c0, [], None));
            counter == rd.chromosome && failed == rd.failed && Imported(members, rd.solutions)
    ensures forall k :: 0 <= k < |members| ==> fresh(members[k]) && fresh(members[k].inputs)
  {
    ghost var r0 := IF.Reader(c0, [], None);
    counter, members, failed := c0, [], None;
    ghost var sols: seq<seq<int>> := [];
    var i := 0;
    while i < |lines|
      invariant i <= |lines|
      invariant IF.ReadLines(lines[..i], r0) == IF.Reader(counter, sols, None)
      invariant failed.None? && Imported(members, sols)
      invariant forall k :: 0 <= k < |members| ==> fresh(members[k]) && fresh(members[k].inputs)
    {
      ghost var before := members;
      counter, members, failed, sols := ReadInto(lines, i, r0, counter, members, sols);
      forall k | 0 <= k < |members|
        ensures fresh(members[k]) && fresh(members[k].inputs)
      {
        if k < |before| {
          assert members[k] == before[k];
        }
      }
      if failed.Some? {
        IF.ReadAfterFailure(lines, i + 1, r0);
        return;
      }
      i := i + 1;
    }
    assert lines[..i] == lines;
  }
}
