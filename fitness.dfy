/** The bookkeeping of calculateFitness that does not depend on the fitness
    formula: what a member's run outcome does to its command list, which
    exception stops the loop over the members, what value is stored, and
    which chromosome bestFit ends up naming. */
module Fitness {
  import opened Common
  import opened Chromosomes
  import opened Generations
  import opened Buttons

  /** What calculateFitness does to a member's command list. */
  datatype Treatment = Keep | Extend | Cut(length: nat)

  /** The range check of list.subList(0, n) on a list of the given size:
      IndexOutOfBoundsException past the end, IllegalArgumentException for a
      negative n (from > to). */
  function SubListCheck(n: int, size: nat): (r: Result<nat>)
    ensures r.Ok? <==> 0 <= n <= size
    ensures r.Ok? ==> r.value == n
    ensures r.Err? ==> r.fault == (if n > size then IndexOutOfBounds else IllegalArgument)
  {
    if n > size then Err(IndexOutOfBounds) else if n < 0 then Err(IllegalArgument) else Ok(n)
  }

  /** The treatment of one member with the given outcome and command count.
      A missing outcome throws NullPointerException. "win" cuts the list to
      the commands used and then casts a subList view to ArrayList, which
      throws ClassCastException; "no_more_commands" extends the list in place;
      "death" cuts it; any other reason leaves it alone. So a member throws
      exactly when it has no outcome, won, or died at a command count outside
      its list. */
  function Treat(o: Option<RunResult>, size: nat): (r: Result<Treatment>)
    ensures r.Err? <==>
              o.None? || o.value.reasonFinish == "win"
              || (o.value.reasonFinish == "death" && !(0 <= o.value.commandsUsed <= size))
    ensures o.None? ==> r == Err(NullPointer)
    ensures o.Some? && o.value.reasonFinish == "win" && 0 <= o.value.commandsUsed <= size ==> r == Err(ClassCast)
    ensures r == Ok(Extend) <==> o.Some? && o.value.reasonFinish == "no_more_commands"
    ensures o.Some? && o.value.reasonFinish == "death" && 0 <= o.value.commandsUsed <= size ==>
              r == Ok(Cut(o.value.commandsUsed))
    ensures r.Ok? && r.value.Cut? ==> o.value.reasonFinish == "death"
  {
    match o
    case None => Err(NullPointer)
    case Some(res) =>
      if res.reasonFinish == "win" then
        (match SubListCheck(res.commandsUsed, size)
         case Err(f) => Err(f)
         case Ok(_) => Err(ClassCast))
      else if res.reasonFinish == "no_more_commands" then Ok(Extend)
      else if res.reasonFinish == "death" then
        (match SubListCheck(res.commandsUsed, size)
         case Err(f) => Err(f)
         case Ok(n) => Ok(Cut(n)))
      else Ok(Keep)
  }

  /** One member's state, as values. */
  datatype MemberState = MemberState(results: Option<RunResult>, fitness: Double, list: IntList, elems: seq<int>)

  ghost function StateOf(c: Chromosome): MemberState
    reads c, c.inputs
  {
    MemberState(c.results, c.fitnessValue, c.inputs, c.inputs.elems)
  }

  /** The number of members calculateFitness gets through: the position of
      the first member whose treatment throws, or all of them. */
  function Processed(v: seq<MemberState>): (n: nat)
    ensures n <= |v|
    ensures forall i :: 0 <= i < n ==> Treat(v[i].results, |v[i].elems|).Ok?
    ensures n < |v| ==> Treat(v[n].results, |v[n].elems|).Err?
  {
    if |v| == 0 then 0
    else if Treat(v[0].results, |v[0].elems|).Err? then 0
    else 1 + Processed(v[1..])
  }

  /** The first throwing member is where the loop stops. */
  lemma {:induction false} ProcessedIs(v: seq<MemberState>, k: nat)
    requires k <= |v|
    requires forall i :: 0 <= i < k ==> Treat(v[i].results, |v[i].elems|).Ok?
    requires k < |v| ==> Treat(v[k].results, |v[k].elems|).Err?
    ensures Processed(v) == k
  {
    if k > 0 {
      assert Treat(v[0].results, |v[0].elems|).Ok?;
      ProcessedIs(v[1..], k - 1);
    }
  }

  /** The members' fitness values in a state sequence. */
  function Fits(v: seq<MemberState>): (f: seq<Double>)
    ensures |f| == |v| && forall i :: 0 <= i < |v| ==> f[i] == v[i].fitness
  {
    seq(|v|, i requires 0 <= i < |v| => v[i].fitness)
  }

  /** What calculateFitness stores for a raw value: NaN becomes 0. */
  function Stored(x: Double): (s: Double)
    ensures !s.NaN?
    ensures !x.NaN? ==> s == x
    ensures x.NaN? ==> s == Real(0.0)
  {
    if x.NaN? then Real(0.0) else x
  }

  /** The chromosome bestFit refers to: none (null), one outside the
      generation with its fitness value, or member `index`. */
  datatype Best = NoBest | Outside(fit: Double) | Member(index: nat)

  predicate BestIn(b: Best, n: nat)
  {
    b.Member? ==> b.index < n
  }

  /** bestFit's fitness value when member i is compared: a member already
      processed holds its stored value, one not yet processed its old one. */
  function HeldFitness(b: Best, olds: seq<Double>, raw: seq<Double>, i: nat): Double
    requires |olds| == |raw| && BestIn(b, |olds|)
  {
    match b
    case NoBest => Real(0.0)
    case Outside(f) => f
    case Member(j) => if j < i then Stored(raw[j]) else olds[j]
  }

  /** bestFit after the first n members were compared. A null bestFit takes
      the member; otherwise the member takes over when bestFit's current value
      is below the member's raw (unstored) value. */
  function BestAfter(b0: Best, olds: seq<Double>, raw: seq<Double>, n: nat): (b: Best)
    requires |olds| == |raw| && n <= |raw| && BestIn(b0, |olds|)
    ensures BestIn(b, |olds|)
    ensures n > 0 ==> !b.NoBest?
    ensures b == b0 || (b.Member? && b.index < n)
  {
    if n == 0 then b0
    else
      var b := BestAfter(b0, olds, raw, n - 1);
      Compared(b, HeldFitness(b, olds, raw, n - 1), raw[n - 1], n - 1)
  }

  /** One comparison: member i, with raw value x, takes over from a null
      bestFit or from one whose value held is below x. */
  function Compared(b: Best, held: Double, x: Double, i: nat): (b': Best)
    ensures b' == b || b' == Member(i)
  {
    if b.NoBest? || Less(held, x) then Member(i) else b
  }

  /** Starting from null or from a chromosome outside the generation with a
      finite value, and with finite raw values, bestFit ends at the largest
      value seen: its value is at least every compared raw value and the
      starting one, and a member it names holds its own raw value. */
  lemma {:induction false} BestIsMaximal(b0: Best, olds: seq<Double>, raw: seq<Double>, n: nat)
    requires |olds| == |raw| && n <= |raw| && !b0.Member?
    requires forall i :: 0 <= i < n ==> raw[i].Real?
    requires b0.Outside? ==> b0.fit.Real?
    ensures var b := BestAfter(b0, olds, raw, n);
            var h := HeldFitness(b, olds, raw, n);
            h.Real?
            && (forall i :: 0 <= i < n ==> raw[i].r <= h.r)
            && (b0.Outside? ==> b0.fit.r <= h.r)
            && (b.Member? ==> h == raw[b.index])
  {
    if n > 0 {
      BestIsMaximal(b0, olds, raw, n - 1);
      var b := BestAfter(b0, olds, raw, n - 1);
      assert HeldFitness(b, olds, raw, n - 1) == HeldFitness(b, olds, raw, n);
    }
  }

  /** A bestFit that names a later member is compared by that member's old
      value until the member itself is reached, whose new value then
      replaces it: here bestFit ends holding 5 while another member holds 7. */
  lemma StaleMemberBest()
    ensures var olds := [Real(0.0), Real(10.0)];
            var raw := [Real(7.0), Real(5.0)];
            var b := BestAfter(Member(1), olds, raw, 2);
            b == Member(1) && HeldFitness(b, olds, raw, 2) == Real(5.0)
            && Less(HeldFitness(b, olds, raw, 2), Stored(raw[0]))
  {
    var olds := [Real(0.0), Real(10.0)];
    var raw := [Real(7.0), Real(5.0)];
    assert BestAfter(Member(1), olds, raw, 1) == Member(1);
  }

  /** A NaN raw value never takes over from an existing bestFit. */
  lemma NaNNeverTakesOver(b0: Best, olds: seq<Double>, raw: seq<Double>, n: nat)
    requires |olds| == |raw| && n < |raw| && BestIn(b0, |olds|)
    requires raw[n].NaN? && !BestAfter(b0, olds, raw, n).NoBest?
    ensures BestAfter(b0, olds, raw, n + 1) == BestAfter(b0, olds, raw, n)
  {
  }

  // ---------------------------------------------------------------------------
  // The loop over the members.
  // ---------------------------------------------------------------------------

  /** No chromosome and no command list occurs twice in the generation. */
  ghost predicate Distinct(gen: seq<Chromosome>)
    reads set c | c in gen
  {
    (forall i, j :: 0 <= i < j < |gen| ==> gen[i] != gen[j])
    && (forall i, j :: 0 <= i < j < |gen| ==> gen[i].inputs != gen[j].inputs)
  }

  /** A command list before and after the given treatment, with the draw
      cursor at tc when the member is treated: an extension appends exactly
      the bursts drawn from tc on. */
  ghost predicate TreatedAs(tr: Treatment, before: seq<int>, after: seq<int>, table: SlotTable, rng: Rng, tc: nat)
  {
    match tr
    case Keep => after == before
    case Extend => after == before + Flatten(Bursts(table, rng, tc).0)
    case Cut(k) => k <= |before| && after == before[..k]
  }

  /** An extension keeps the old commands as a prefix and adds 101 to 200
      bursts, each 6 to 10 frames of one button from the table. */
  lemma ExtendedByBursts(before: seq<int>, after: seq<int>, table: SlotTable, rng: Rng, tc: nat)
    requires TreatedAs(Extend, before, after, table, rng, tc)
    ensures before <= after && BurstRun(after[|before|..], table)
  {
    BurstsAreBurstRun(table, rng, tc);
    assert after[|before|..] == Flatten(Bursts(table, rng, tc).0);
  }

  /** The cursor after treating a member with the given treatment from tc:
      only an extension draws. */
  function Drawn(tr: Result<Treatment>, table: SlotTable, rng: Rng, tc: nat): (t: nat)
    ensures t >= tc
    ensures t != tc <==> tr == Ok(Extend)
  {
    if tr == Ok(Extend) then Bursts(table, rng, tc).1 else tc
  }

  /** The draw cursor when member i is treated, the loop starting at t0:
      each earlier member whose run ran out of commands drew its bursts. */
  function TreatCursor(v0: seq<MemberState>, table: SlotTable, rng: Rng, t0: nat, i: nat): (t: nat)
    requires i <= |v0|
    ensures t >= t0
  {
    if i == 0 then t0
    else Drawn(Treat(v0[i - 1].results, |v0[i - 1].elems|), table, rng, TreatCursor(v0, table, rng, t0, i - 1))
  }

  /** The command list a winning run leaves behind before the cast throws. */
  ghost predicate WinCut(o: Option<RunResult>, before: seq<int>, after: seq<int>)
  {
    o.Some? && 0 <= o.value.commandsUsed <= |before| && after == before[..o.value.commandsUsed]
  }

  /** The outcome-dependent part of one iteration: cut, extend or keep the
      member's command list, or throw. A cut installs a new list; an
      extension appends 101 to 200 random bursts to the member's own list. */
  method TreatMember(c: Chromosome, table: SlotTable, rng: Rng, t0: nat)
    returns (fault: Option<Fault>, t: nat, ghost s0: MemberState, ghost s: MemberState)
    modifies c, c.inputs
    ensures s0 == old(StateOf(c)) && s == StateOf(c)
    ensures t == Drawn(Treat(s0.results, |s0.elems|), table, rng, t0)
    ensures s.results == s0.results && s.fitness == s0.fitness
    ensures var tr := Treat(s0.results, |s0.elems|);
            (fault.Some? <==> tr.Err?) && (tr.Err? ==> fault.value == tr.fault)
            && (tr.Ok? ==> TreatedAs(tr.value, s0.elems, s.elems, table, rng, t0))
    ensures fault == Some(ClassCast) ==> WinCut(s0.results, s0.elems, s.elems)
    ensures fault.Some? && fault != Some(ClassCast) ==> s.elems == s0.elems
    ensures if fault == Some(ClassCast) || (fault.None? && Treat(s0.results, |s0.elems|).value.Cut?)
            then fresh(c.inputs) else c.inputs == old(c.inputs)
  {
    s0 := StateOf(c);
    t := t0;
    if c.results.None? {
      return Some(NullPointer), t, s0, s0;
    }
    var res := c.results.value;
    var size := |c.inputs.elems|;
    if res.reasonFinish == "win" {
      var cut := SubListCheck(res.commandsUsed, size);
      if cut.Err? {
        return Some(cut.fault), t, s0, s0;
      }
      var list := new IntList(c.inputs.elems[..cut.value]);
      c.SetInputs(list);
      return Some(ClassCast), t, s0, StateOf(c);
    }
    if res.reasonFinish == "no_more_commands" {
      var commands, bursts;
      commands, bursts, t := AppendBursts(c.inputs.elems, table, rng, t);
      c.inputs.elems := commands;
    } else if res.reasonFinish == "death" {
      var cut := SubListCheck(res.commandsUsed, size);
      if cut.Err? {
        return Some(cut.fault), t, s0, s0;
      }
      var list := new IntList(c.inputs.elems[..cut.value]);
      c.SetInputs(list);
    }
    fault := None;
    s := StateOf(c);
  }

  /** The members' states, in list order. */
  ghost function View(gen: seq<Chromosome>): (v: seq<MemberState>)
    reads set c | c in gen, set c | c in gen :: c.inputs
    ensures |v| == |gen| && forall i :: 0 <= i < |gen| ==> v[i] == StateOf(gen[i])
  {
    if |gen| == 0 then [] else View(gen[..|gen| - 1]) + [StateOf(gen[|gen| - 1])]
  }

  /** One iteration without the bestFit comparison: treat member n and, if
      that does not throw, store the value for raw; no other member changes. */
  method Step(gen: seq<Chromosome>, n: nat, raw: Double, table: SlotTable, rng: Rng, t0: nat)
    returns (fault: Option<Fault>, t: nat, ghost s0: MemberState, ghost s: MemberState)
    requires n < |gen| && forall j :: 0 <= j < |gen| && j != n ==> gen[j] != gen[n] && gen[j].inputs != gen[n].inputs
    modifies gen[n], gen[n].inputs
    ensures s0 == old(StateOf(gen[n])) && s == StateOf(gen[n])
    ensures t == Drawn(Treat(s0.results, |s0.elems|), table, rng, t0)
    ensures forall j :: 0 <= j < |gen| && j != n ==> StateOf(gen[j]) == old(StateOf(gen[j]))
    ensures gen[n].inputs == old(gen[n].inputs) || fresh(gen[n].inputs)
    ensures Outcome(s0, s, raw, table, rng, t0, fault)
  {
    var c := gen[n];
    fault, t, s0, s := TreatMember(c, table, rng, t0);
    if fault.None? {
      c.SetFitnessValue(Stored(raw));
      s := s.(fitness := Stored(raw));
    }
  }

  /** What one iteration did to its member: it passed its treatment and was
      updated, or it threw and failed. */
  ghost predicate Outcome(s0: MemberState, s: MemberState, raw: Double, table: SlotTable, rng: Rng, tc: nat, fault: Option<Fault>)
  {
    var tr := Treat(s0.results, |s0.elems|);
    (fault.Some? <==> tr.Err?) && (tr.Err? ==> fault.value == tr.fault)
    && (fault.None? ==> Updated(s0, s, raw, table, rng, tc))
    && (fault.Some? ==> Failed(s0, s, fault.value))
  }

  /** A processed member: same outcome, the stored value, the list treated. */
  ghost predicate Updated(s0: MemberState, s: MemberState, value: Double, table: SlotTable, rng: Rng, tc: nat)
  {
    var tr := Treat(s0.results, |s0.elems|);
    tr.Ok? && s.results == s0.results && s.fitness == Stored(value) && TreatedAs(tr.value, s0.elems, s.elems, table, rng, tc)
  }

  /** Member i updated between two state sequences, treated at the cursor
      the loop started at t0 has reached by then. */
  ghost predicate UpdatedAt(v0: seq<MemberState>, v: seq<MemberState>, raw: seq<Double>, table: SlotTable, rng: Rng, t0: nat, i: nat)
  {
    i < |v0| && i < |v| && i < |raw| && Updated(v0[i], v[i], raw[i], table, rng, TreatCursor(v0, table, rng, t0, i))
  }

  /** The member whose treatment threw: same outcome and value; a winning
      run has its list cut, any other keeps it. */
  ghost predicate Failed(s0: MemberState, s: MemberState, fault: Fault)
  {
    s.results == s0.results && s.fitness == s0.fitness
    && (if fault == ClassCast then WinCut(s0.results, s0.elems, s.elems) else s.elems == s0.elems)
  }

  /** The loop's progress after n members: those before n updated, the
      rest as they were. */
  ghost predicate Prefix(v0: seq<MemberState>, v: seq<MemberState>, raw: seq<Double>, table: SlotTable, rng: Rng, t0: nat, n: nat)
  {
    |v| == |v0| == |raw| && n <= |v0|
    && (forall i :: 0 <= i < n ==> UpdatedAt(v0, v, raw, table, rng, t0, i))
    && (forall i :: n <= i < |v0| ==> v[i] == v0[i])
  }

  lemma PrefixStep(v0: seq<MemberState>, v: seq<MemberState>, s: MemberState, raw: seq<Double>, table: SlotTable, rng: Rng, t0: nat, n: nat)
    requires Prefix(v0, v, raw, table, rng, t0, n) && n < |v0| && Updated(v0[n], s, raw[n], table, rng, TreatCursor(v0, table, rng, t0, n))
    ensures Prefix(v0, v[n := s], raw, table, rng, t0, n + 1)
  {
    var v' := v[n := s];
    forall i | 0 <= i < n + 1
      ensures UpdatedAt(v0, v', raw, table, rng, t0, i)
    {
      if i < n {
        assert UpdatedAt(v0, v, raw, table, rng, t0, i);
      }
    }
  }

  /** The members before n all passed their treatment. */
  lemma PassedBefore(v0: seq<MemberState>, v: seq<MemberState>, raw: seq<Double>, table: SlotTable, rng: Rng, t0: nat, n: nat)
    requires n <= |v0| && forall i :: 0 <= i < n ==> UpdatedAt(v0, v, raw, table, rng, t0, i)
    ensures forall i :: 0 <= i < n ==> Treat(v0[i].results, |v0[i].elems|).Ok?
  {
    forall i | 0 <= i < n
      ensures Treat(v0[i].results, |v0[i].elems|).Ok?
    {
      assert UpdatedAt(v0, v, raw, table, rng, t0, i);
    }
  }

  /** Where the loop over the members ends: at the first throwing member
      (updated before it, that member failed, the rest untouched) or after
      all of them (all updated). */
  ghost predicate Finished(v0: seq<MemberState>, v: seq<MemberState>, raw: seq<Double>, table: SlotTable, rng: Rng, t0: nat, n: nat, fault: Option<Fault>)
  {
    |v| == |v0| == |raw| && n == Processed(v0) && (fault.Some? <==> n < |v0|)
    && (forall i :: 0 <= i < n ==> UpdatedAt(v0, v, raw, table, rng, t0, i))
    && (forall i :: n < i < |v0| ==> v[i] == v0[i])
    && (fault.Some? ==> Treat(v0[n].results, |v0[n].elems|) == Err(fault.value) && Failed(v0[n], v[n], fault.value))
  }

  lemma FinishedAtFault(v0: seq<MemberState>, v: seq<MemberState>, s: MemberState, raw: seq<Double>, table: SlotTable, rng: Rng, t0: nat, n: nat, f: Fault)
    requires Prefix(v0, v, raw, table, rng, t0, n) && n < |v0|
    requires Treat(v0[n].results, |v0[n].elems|) == Err(f) && Failed(v0[n], s, f)
    ensures Finished(v0, v[n := s], raw, table, rng, t0, n, Some(f))
  {
    PassedBefore(v0, v, raw, table, rng, t0, n);
    ProcessedIs(v0, n);
    var v' := v[n := s];
    forall i | 0 <= i < n
      ensures UpdatedAt(v0, v', raw, table, rng, t0, i)
    {
      assert UpdatedAt(v0, v, raw, table, rng, t0, i);
    }
  }

  lemma FinishedAtEnd(v0: seq<MemberState>, v: seq<MemberState>, raw: seq<Double>, table: SlotTable, rng: Rng, t0: nat)
    requires Prefix(v0, v, raw, table, rng, t0, |v0|)
    ensures Finished(v0, v, raw, table, rng, t0, |v0|, None)
  {
    PassedBefore(v0, v, raw, table, rng, t0, |v0|);
    ProcessedIs(v0, |v0|);
  }

  /** The members' command lists, in list order. */
  ghost function Inputs(gen: seq<Chromosome>): (ins: seq<IntList>)
    reads set c | c in gen
    ensures |ins| == |gen| && forall i :: 0 <= i < |gen| ==> ins[i] == gen[i].inputs
  {
    seq(|gen|, i requires 0 <= i < |gen| reads set c | c in gen => gen[i].inputs)
  }

  /** The lists from position n on are the original ones, and no list
      occurs twice. */
  ghost predicate Separate(ins: seq<IntList>, lists: seq<IntList>, n: nat)
  {
    |lists| == |ins|
    && (forall j :: n <= j < |ins| ==> ins[j] == lists[j])
    && (forall i, j :: 0 <= i < j < |ins| ==> ins[i] != ins[j])
  }

  /** The command lists from member n on are the original ones, and no two
      members share a list. */
  ghost predicate ListsFrom(gen: seq<Chromosome>, lists: seq<IntList>, n: nat)
    reads set c | c in gen
  {
    Separate(Inputs(gen), lists, n)
  }

  /** Member n keeps its list or gets one that was not there before, and the
      others keep theirs. */
  lemma SeparateStep(ins0: seq<IntList>, ins1: seq<IntList>, lists: seq<IntList>, n: nat)
    requires n < |ins0| == |ins1| && Separate(ins0, lists, n)
    requires forall j :: 0 <= j < |ins0| && j != n ==> ins1[j] == ins0[j]
    requires ins1[n] == ins0[n] || ins1[n] !in ins0
    ensures Separate(ins1, lists, n + 1)
  {
  }

  /** One iteration of the loop over the members: member n is treated,
      compared against bestFit and given its stored value, or throws. */
  method Iteration(gen: seq<Chromosome>, ghost lists: seq<IntList>, n: nat, b: Best, ghost b0: Best, ghost v0: seq<MemberState>, ghost olds: seq<Double>,
                   raw: seq<Double>, table: SlotTable, rng: Rng, ghost tb: nat, t0: nat)
    returns (fault: Option<Fault>, b': Best, t: nat)
    requires n < |gen| && Prefix(v0, View(gen), raw, table, rng, tb, n)
    requires t0 == TreatCursor(v0, table, rng, tb, n)
    requires olds == Fits(v0) && BestIn(b0, |gen|) && b == BestAfter(b0, olds, raw, n)
    requires forall i, j :: 0 <= i < j < |gen| ==> gen[i] != gen[j]
    requires ListsFrom(gen, lists, n)
    modifies gen[n], gen[n].inputs
    ensures fault.None? ==> ListsFrom(gen, lists, n + 1)
    ensures fault.None? ==> Prefix(v0, View(gen), raw, table, rng, tb, n + 1) && b' == BestAfter(b0, olds, raw, n + 1)
    ensures fault.None? ==> t == TreatCursor(v0, table, rng, tb, n + 1)
    ensures fault.Some? ==> Finished(v0, View(gen), raw, table, rng, tb, n, fault) && b' == b && t == t0
  {
    ghost var v := View(gen);
    var held := match b
      case NoBest => Real(0.0)
      case Outside(x) => x
      case Member(j) => gen[j].fitnessValue;
    assert held == HeldFitness(b, olds, raw, n) by {
      if b.Member? && b.index < n {
        assert UpdatedAt(v0, v, raw, table, rng, tb, b.index);
      }
    }
    ghost var ins0 := Inputs(gen);
    assert forall j :: 0 <= j < |gen| && j != n ==> gen[j] != gen[n] && gen[j].inputs != gen[n].inputs;
    ghost var s0, s;
    fault, t, s0, s := Step(gen, n, raw[n], table, rng, t0);
    ghost var v1 := View(gen);
    assert forall j :: 0 <= j < |gen| && j != n ==> v1[j] == v[j];
    UpdatedOnlyAt(v, v1, n, s);
    ghost var ins1 := Inputs(gen);
    assert forall j :: 0 <= j < |gen| && j != n ==> ins1[j] == ins0[j];
    SeparateStep(ins0, ins1, lists, n);
    if fault.Some? {
      FinishedAtFault(v0, v, s, raw, table, rng, tb, n, fault.value);
      return fault, b, t;
    }
    PrefixStep(v0, v, s, raw, table, rng, tb, n);
    b' := Compared(b, held, raw[n], n);
  }

  /** The loop of calculateFitness over the members, from bestFit b0 and
      with the formula's value raw[i] for member i: each member is treated,
      compared against bestFit by its raw value, and given its stored value.
      The loop stops at the first member whose treatment throws. */
  method UpdateMembers(gen: seq<Chromosome>, ghost lists: seq<IntList>, raw: seq<Double>, b0: Best, table: SlotTable, rng: Rng, t0: nat)
    returns (n: nat, fault: Option<Fault>, b: Best, t: nat)
    requires |raw| == |gen| == |lists| && BestIn(b0, |gen|)
    requires forall j :: 0 <= j < |gen| ==> gen[j].inputs == lists[j]
    requires forall i, j :: 0 <= i < j < |gen| ==> gen[i] != gen[j] && lists[i] != lists[j]
    modifies gen, lists
    ensures Finished(old(View(gen)), View(gen), raw, table, rng, t0, n, fault)
    ensures t == TreatCursor(old(View(gen)), table, rng, t0, n)
    ensures b == BestAfter(b0, Fits(old(View(gen))), raw, n)
  {
    ghost var v0 := View(gen);
    ghost var olds := Fits(v0);
    n, b, t := 0, b0, t0;
    while n < |gen|
      invariant Prefix(v0, View(gen), raw, table, rng, t0, n)
      invariant t == TreatCursor(v0, table, rng, t0, n) && b == BestAfter(b0, olds, raw, n)
      invariant ListsFrom(gen, lists, n)
    {
      assert gen[n].inputs == Inputs(gen)[n] == lists[n];
      fault, b, t := Iteration(gen, lists, n, b, b0, v0, olds, raw, table, rng, t0, t);
      if fault.Some? {
        return;
      }
      n := n + 1;
    }
    FinishedAtEnd(v0, View(gen), raw, table, rng, t0);
    fault := None;
  }

  /** Where bestFit stands when calculateFitness starts: absent, one of the
      members (whose value the loop may overwrite), or a chromosome of an
      earlier generation, whose value stays fixed. */
  function StartBest(gen: seq<Chromosome>, best: Chromosome?): (b: Best)
    reads best
    ensures BestIn(b, |gen|)
    ensures b.NoBest? <==> best == null
    ensures b.Member? <==> best != null && best in gen
    ensures b.Member? ==> gen[b.index] == best
    ensures b.Outside? ==> b.fit == best.fitnessValue
  {
    if best == null then NoBest
    else if best in gen then Member(IndexOf(gen, best))
    else Outside(best.fitnessValue)
  }

  /** The chromosome bestFit refers to once the loop has left b. */
  function Holder(gen: seq<Chromosome>, b: Best, prev: Chromosome?): Chromosome?
    requires BestIn(b, |gen|)
  {
    if b.Member? then gen[b.index] else prev
  }

  function IndexOf<T(==)>(s: seq<T>, x: T): (i: nat)
    requires x in s
    ensures i < |s| && s[i] == x
    ensures forall j :: 0 <= j < i ==> s[j] != x
  {
    if s[0] == x then 0 else 1 + IndexOf(s[1..], x)
  }

  /** The loop of calculateFitness with bestFit as a reference: the
      starting reference is located among the members, and the reference
      left at the end is the member the loop last adopted, if any. */
  method UpdateGeneration(gen: seq<Chromosome>, raw: seq<Double>, best: Chromosome?, table: SlotTable, rng: Rng, t0: nat)
    returns (fault: Option<Fault>, best': Chromosome?, t: nat, ghost v0: seq<MemberState>, ghost v: seq<MemberState>)
    requires |raw| == |gen| && Distinct(gen)
    modifies set c | c in gen, set c | c in gen :: c.inputs
    ensures v0 == old(View(gen)) && v == View(gen)
    ensures Finished(v0, v, raw, table, rng, t0, Processed(v0), fault)
    ensures t == TreatCursor(v0, table, rng, t0, Processed(v0))
    ensures best' == Holder(gen, BestAfter(old(StartBest(gen, best)), Fits(v0), raw, Processed(v0)), best)
  {
    v0 := View(gen);
    var b0 := StartBest(gen, best);
    ghost var lists := seq(|gen|, i requires 0 <= i < |gen| reads set c | c in gen => gen[i].inputs);
    var n, b;
    n, fault, b, t := UpdateMembers(gen, lists, raw, b0, table, rng, t0);
    best' := if b.Member? then gen[b.index] else best;
    v := View(gen);
  }
}
