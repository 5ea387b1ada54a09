/** Chromosome.java: an action sequence, its fitness value and the outcome
    of its last run. */
module Chromosomes {
  import opened Common

  /** The outcome snapshot the game server returns for one run (luigi.RunResult). */
  datatype RunResult = RunResult(
    xPos: int,
    timeLeft: int,
    coins: int,
    score: int,
    flagGet: string,
    reasonFinish: string,
    status: string,
    commandsUsed: int)

  /** An ArrayList<Integer>: a list object that several chromosomes can share. */
  class IntList {
    var elems: seq<int>

    constructor (elems: seq<int>)
      ensures this.elems == elems
    {
      this.elems := elems;
    }
  }

  /** compareTo's arithmetic: `(int) (a - b)`, a double difference cast to int. */
  function Compare(a: Double, b: Double): (r: int)
    ensures IsInt32(r)
    ensures r > 0 ==> Less(b, a)
    ensures r < 0 ==> Less(a, b)
    ensures a.Real? && b.Real? ==> (r == 0 <==> -1.0 < a.r - b.r < 1.0)
    ensures a.NaN? || b.NaN? ==> r == 0
  {
    ToInt32(Sub(a, b))
  }

  /** Fitness values less than 1 apart compare equal. */
  lemma CloseFitnessesCompareEqual(x: real, y: real)
    requires -1.0 < x - y < 1.0
    ensures Compare(Real(x), Real(y)) == 0
    ensures Compare(Real(y), Real(x)) == 0
  {
  }

  /** Swapping the operands flips the sign of compareTo (saturation keeps the sign). */
  lemma CompareAntisymmetric(a: Double, b: Double)
    ensures Compare(a, b) > 0 <==> Compare(b, a) < 0
    ensures Compare(a, b) == 0 <==> Compare(b, a) == 0
  {
    match (a, b)
    case (Real(x), Real(y)) =>
      assert Truncate(y - x) == -Truncate(x - y);
    case _ =>
  }

  /** Fitness values 1 or more apart compare in the order of the values. */
  lemma DistantFitnessesCompareInOrder(x: real, y: real)
    requires x - y >= 1.0
    ensures Compare(Real(x), Real(y)) >= 1
    ensures Compare(Real(y), Real(x)) <= -1
  {
    CompareAntisymmetric(Real(x), Real(y));
  }

  class Chromosome {
    var inputs: IntList
    var fitnessValue: Double
    var results: Option<RunResult>

    /** A new chromosome: empty inputs, fitness 0, no outcome. */
    constructor ()
      ensures fresh(inputs) && inputs.elems == []
      ensures fitnessValue == Real(0.0) && results == None
    {
      inputs := new IntList([]);
      fitnessValue := Real(0.0);
      results := None;
    }

    function GetInputs(): IntList
      reads this
    {
      inputs
    }

    method SetInputs(inputs: IntList)
      modifies this
      ensures this.inputs == inputs
      ensures fitnessValue == old(fitnessValue) && results == old(results)
    {
      this.inputs := inputs;
    }

    method SetFitnessValue(fitnessValue: Double)
      modifies this
      ensures this.fitnessValue == fitnessValue
      ensures inputs == old(inputs) && results == old(results)
    {
      this.fitnessValue := fitnessValue;
    }

    function GetFitnessValue(): Double
      reads this
    {
      fitnessValue
    }

    function GetResults(): Option<RunResult>
      reads this
    {
      results
    }

    /** Records the outcome of a run (None stands for a null result) and
        returns this same chromosome. */
    method AssertResult(run: Option<RunResult>) returns (self: Chromosome)
      modifies this
      ensures self == this && results == run
      ensures inputs == old(inputs) && fitnessValue == old(fitnessValue)
    {
      results := run;
      self := this;
    }

    /** Object.clone: a new chromosome that shares this one's inputs list. */
    method Clone() returns (c: Chromosome)
      ensures fresh(c)
      ensures c.inputs == inputs && c.fitnessValue == fitnessValue && c.results == results
    {
      c := new Chromosome();
      c.inputs := inputs;
      c.fitnessValue := fitnessValue;
      c.results := results;
    }

    /** Genotype equality, as List.equals: the two input lists are as long
        and hold the same code at every index. */
    predicate IsClone(b: Chromosome)
      reads this, inputs, b, b.inputs
      ensures IsClone(b) <==>
        |inputs.elems| == |b.inputs.elems|
        && forall i :: 0 <= i < |inputs.elems| ==> inputs.elems[i] == b.inputs.elems[i]
    {
      inputs.elems == b.inputs.elems
    }

    /** The natural order of chromosomes: by fitness value, values less than
        1 apart comparing equal; swapping the operands flips the sign. */
    function CompareTo(o: Chromosome): (r: int)
      reads this, o
      ensures r > 0 ==> Less(o.fitnessValue, fitnessValue)
      ensures r < 0 ==> Less(fitnessValue, o.fitnessValue)
      ensures r > 0 <==> Compare(o.fitnessValue, fitnessValue) < 0
      ensures r == 0 <==> Compare(o.fitnessValue, fitnessValue) == 0
    {
      CompareAntisymmetric(fitnessValue, o.fitnessValue);
      Compare(fitnessValue, o.fitnessValue)
    }
  }

  lemma IsCloneReflexive(a: Chromosome)
    ensures a.IsClone(a)
  {
  }

  lemma IsCloneSymmetric(a: Chromosome, b: Chromosome)
    ensures a.IsClone(b) <==> b.IsClone(a)
  {
  }

  /** A clone is genotype-equal to its original and stays so while the shared
      list is the only thing that changes. */
  method CloneSharesInputs(a: Chromosome) returns (c: Chromosome)
    modifies a.inputs
    ensures fresh(c) && c.inputs == a.inputs && c.IsClone(a)
    ensures a.inputs.elems == old(a.inputs.elems) + [0]
    ensures c.inputs.elems == old(a.inputs.elems) + [0]
  {
    c := a.Clone();
    a.inputs.elems := a.inputs.elems + [0];
  }
}
