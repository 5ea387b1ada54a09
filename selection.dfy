/** Fitness-proportionate selection (the roulette of cumulative fitness
    shares and the draw against it) and elitism (an ascending sort by
    compareTo, reversed, of which the first `top` are kept). */
module Selection {
  import opened Common
  import opened Chromosomes
  import opened Generations

  // ---------------------------------------------------------------------------
  // The roulette.
  // ---------------------------------------------------------------------------

  /** The running key after the given members: their shares f / total summed
      in double arithmetic, from the first member on. */
  function Running(fits: seq<Double>, total: Double): Double
  {
    if |fits| == 0 then Real(0.0) else Add(Running(fits[..|fits| - 1], total), DivD(fits[|fits| - 1], total))
  }

  /** The roulette keys: member i's key is the running share up to and
      including i. For non-negative fitness values with a positive total,
      key i is exactly the share of members 0..i in the whole, within [0, 1],
      and the last key is 1. */
  function RouletteKeys(fits: seq<Double>): (keys: seq<Double>)
    ensures |keys| == |fits|
    ensures AllNonNegative(fits) && RealSum(fits) > 0.0 ==>
      (forall i :: 0 <= i < |fits| ==>
         keys[i] == Real(RealSum(fits[..i + 1]) / RealSum(fits)) && 0.0 <= keys[i].r <= 1.0)
      && keys[|fits| - 1] == Real(1.0)
  {
    RunningShares(fits);
    seq(|fits|, i requires 0 <= i < |fits| => Running(fits[..i + 1], FitnessTotal(fits)))
  }

  /** The keys as the loop builds them, one member at a time, against a given total. */
  function KeysWith(fits: seq<Double>, total: Double): (keys: seq<Double>)
    ensures |keys| == |fits|
  {
    if |fits| == 0 then [] else KeysWith(fits[..|fits| - 1], total) + [Running(fits, total)]
  }

  lemma {:induction false} KeysWithAt(fits: seq<Double>, total: Double, i: nat)
    requires i < |fits|
    ensures KeysWith(fits, total)[i] == Running(fits[..i + 1], total)
  {
    var n := |fits| - 1;
    if i < n {
      KeysWithAt(fits[..n], total, i);
      assert fits[..n][..i + 1] == fits[..i + 1];
    } else {
      assert fits[..i + 1] == fits;
    }
  }

  /** Built against the whole total, the keys are the roulette keys. */
  lemma KeysWithAreRouletteKeys(fits: seq<Double>)
    ensures KeysWith(fits, FitnessTotal(fits)) == RouletteKeys(fits)
  {
    forall i | 0 <= i < |fits|
      ensures KeysWith(fits, FitnessTotal(fits))[i] == RouletteKeys(fits)[i]
    {
      KeysWithAt(fits, FitnessTotal(fits), i);
    }
  }

  /** One more member on the roulette: its key is the previous running key
      plus its share. */
  lemma KeysStep(fits: seq<Double>, i: nat, total: Double, prev: Double)
    requires i < |fits| && prev == Running(fits[..i], total)
    ensures Running(fits[..i + 1], total) == Add(prev, DivD(fits[i], total))
    ensures KeysWith(fits[..i + 1], total) == KeysWith(fits[..i], total) + [Add(prev, DivD(fits[i], total))]
  {
    assert fits[..i + 1][..i] == fits[..i];
  }

  /** The exact sum of finite fitness values. */
  function RealSum(fits: seq<Double>): real
  {
    if |fits| == 0 then 0.0 else RealSum(fits[..|fits| - 1]) + (match fits[|fits| - 1] case Real(x) => x case _ => 0.0)
  }

  predicate AllFinite(fits: seq<Double>)
  {
    forall i :: 0 <= i < |fits| ==> fits[i].Real?
  }

  predicate AllNonNegative(fits: seq<Double>)
  {
    forall i :: 0 <= i < |fits| ==> fits[i].Real? && fits[i].r >= 0.0
  }

  lemma {:induction false} FitnessTotalIsRealSum(fits: seq<Double>)
    requires AllFinite(fits)
    ensures FitnessTotal(fits) == Real(RealSum(fits))
  {
    if |fits| > 0 {
      FitnessTotalIsRealSum(fits[..|fits| - 1]);
    }
  }

  /** With finite values and a non-zero total, the running key is the
      running sum divided by the total. */
  lemma {:induction false} RunningIsShare(fits: seq<Double>, total: real)
    requires AllFinite(fits) && total != 0.0
    ensures Running(fits, Real(total)) == Real(RealSum(fits) / total)
  {
    if |fits| > 0 {
      RunningIsShare(fits[..|fits| - 1], total);
    }
  }

  lemma {:induction false} RealSumMonotone(fits: seq<Double>, n: nat)
    requires AllNonNegative(fits) && n <= |fits|
    ensures 0.0 <= RealSum(fits[..n]) <= RealSum(fits)
    decreases |fits| - n
  {
    if n < |fits| {
      RealSumMonotone(fits, n + 1);
      assert fits[..n + 1][..n] == fits[..n];
    } else {
      assert fits[..n] == fits;
    }
    if n > 0 {
      RealSumNonNegative(fits[..n]);
    }
  }

  lemma {:induction false} RealSumNonNegative(fits: seq<Double>)
    requires AllNonNegative(fits)
    ensures RealSum(fits) >= 0.0
  {
    if |fits| > 0 {
      RealSumNonNegative(fits[..|fits| - 1]);
    }
  }

  lemma DivideMonotone(x: real, y: real, total: real)
    requires x <= y && total > 0.0
    ensures x / total <= y / total
  {
  }

  lemma ShareInUnit(x: real, total: real)
    requires 0.0 <= x <= total && total > 0.0
    ensures 0.0 <= x / total <= 1.0
  {
    DivideMonotone(x, total, total);
    DivideMonotone(0.0, x, total);
  }

  lemma AllNonNegativePrefix(fits: seq<Double>, n: nat)
    requires AllNonNegative(fits) && n <= |fits|
    ensures AllNonNegative(fits[..n]) && AllFinite(fits[..n])
  {
  }

  /** The running key after the first n members is their share in the whole. */
  lemma RunningShare(fits: seq<Double>, n: nat)
    requires AllNonNegative(fits) && RealSum(fits) > 0.0 && 0 < n <= |fits|
    ensures Running(fits[..n], FitnessTotal(fits)) == Real(RealSum(fits[..n]) / RealSum(fits))
    ensures 0.0 <= RealSum(fits[..n]) / RealSum(fits) <= 1.0
  {
    var total := RealSum(fits);
    AllNonNegativePrefix(fits, |fits|);
    assert fits[..|fits|] == fits;
    FitnessTotalIsRealSum(fits);
    AllNonNegativePrefix(fits, n);
    RunningIsShare(fits[..n], total);
    RealSumMonotone(fits, n);
    ShareInUnit(RealSum(fits[..n]), total);
  }

  lemma RunningShares(fits: seq<Double>)
    ensures AllNonNegative(fits) && RealSum(fits) > 0.0 ==>
      (forall n :: 0 < n <= |fits| ==>
         Running(fits[..n], FitnessTotal(fits)) == Real(RealSum(fits[..n]) / RealSum(fits))
         && 0.0 <= RealSum(fits[..n]) / RealSum(fits) <= 1.0)
      && |fits| > 0 && RealSum(fits[..|fits|]) / RealSum(fits) == 1.0
  {
    if AllNonNegative(fits) && RealSum(fits) > 0.0 {
      forall n | 0 < n <= |fits|
        ensures Running(fits[..n], FitnessTotal(fits)) == Real(RealSum(fits[..n]) / RealSum(fits))
        ensures 0.0 <= RealSum(fits[..n]) / RealSum(fits) <= 1.0
      {
        RunningShare(fits, n);
      }
      assert fits[..|fits|] == fits;
      SelfShare(RealSum(fits));
    }
  }

  /** For non-negative fitness values with a positive total, the keys are
      finite, lie in [0, 1] and never decrease. */
  lemma KeysNonDecreasing(fits: seq<Double>, i: nat, j: nat)
    requires AllNonNegative(fits) && RealSum(fits) > 0.0
    requires i <= j < |fits|
    ensures RouletteKeys(fits)[i].Real? && RouletteKeys(fits)[j].Real?
    ensures 0.0 <= RouletteKeys(fits)[i].r <= RouletteKeys(fits)[j].r <= 1.0
  {
    RealSumMonotone(fits[..j + 1], i + 1);
    assert fits[..j + 1][..i + 1] == fits[..i + 1];
    DivideMonotone(RealSum(fits[..i + 1]), RealSum(fits[..j + 1]), RealSum(fits));
  }

  lemma SelfShare(x: real)
    requires x > 0.0
    ensures x / x == 1.0
  {
  }

  /** The position of the first key at least rand, or |keys| when there is none. */
  function FirstAtLeast(keys: seq<Double>, rand: real): (j: nat)
    ensures j <= |keys|
  {
    if |keys| == 0 then 0
    else if AtLeast(keys[0], rand) then 0
    else 1 + FirstAtLeast(keys[1..], rand)
  }

  /** FirstAtLeast is the first key at least rand: the key there is, and no
      key before it is. */
  lemma {:induction false} FirstAtLeastIsFirst(keys: seq<Double>, rand: real)
    ensures FirstAtLeast(keys, rand) < |keys| ==> AtLeast(keys[FirstAtLeast(keys, rand)], rand)
    ensures forall i :: 0 <= i < FirstAtLeast(keys, rand) ==> !AtLeast(keys[i], rand)
  {
    if |keys| > 0 && !AtLeast(keys[0], rand) {
      FirstAtLeastIsFirst(keys[1..], rand);
      forall i | 1 <= i < FirstAtLeast(keys, rand)
        ensures !AtLeast(keys[i], rand)
      {
        assert keys[i] == keys[1..][i - 1];
      }
    }
  }

  /** The draw against the roulette: the first member whose key is at least
      rand, or None when no key is (the caller then draws again). */
  method RouletteSelect(keys: seq<Double>, rand: real) returns (sel: Option<nat>)
    ensures sel.Some? ==> sel.value < |keys| && AtLeast(keys[sel.value], rand)
    ensures sel.Some? ==> forall j :: 0 <= j < sel.value ==> !AtLeast(keys[j], rand)
    ensures sel.None? <==> forall j :: 0 <= j < |keys| ==> !AtLeast(keys[j], rand)
    ensures sel == if FirstAtLeast(keys, rand) < |keys| then Some(FirstAtLeast(keys, rand)) else None
  {
    FirstAtLeastIsFirst(keys, rand);
    var i := 0;
    while i < |keys|
      invariant i <= |keys|
      invariant forall j :: 0 <= j < i ==> !AtLeast(keys[j], rand)
    {
      if AtLeast(keys[i], rand) {
        return Some(i);
      }
      i := i + 1;
    }
    return None;
  }

  /** With non-negative fitness values and a positive total, a draw of
      Math.random() (in [0, 1)) always finds a member. */
  lemma RouletteAlwaysHits(fits: seq<Double>, rand: real)
    requires AllNonNegative(fits) && RealSum(fits) > 0.0
    requires 0.0 <= rand < 1.0
    ensures exists j :: 0 <= j < |fits| && AtLeast(RouletteKeys(fits)[j], rand)
  {
    assert AtLeast(RouletteKeys(fits)[|fits| - 1], rand);
  }

  // ---------------------------------------------------------------------------
  // Elitism.
  // ---------------------------------------------------------------------------

  predicate InRange(order: seq<nat>, n: nat)
  {
    forall j :: 0 <= j < |order| ==> order[j] < n
  }

  /** Insert member x into an ascending order: after every entry that x does
      not compare below, so equal members keep their original order. */
  function Insert(keys: seq<Double>, x: nat, order: seq<nat>): (r: seq<nat>)
    requires x < |keys| && InRange(order, |keys|)
    ensures |r| == |order| + 1 && InRange(r, |keys|)
    ensures r[0] == x || (|order| > 0 && r[0] == order[0])
  {
    if |order| == 0 then [x]
    else if Compare(keys[x], keys[order[0]]) < 0 then [x] + order
    else [order[0]] + Insert(keys, x, order[1..])
  }

  /** Collections.sort, as a stable insertion sort of the first n members by compareTo. */
  function SortOrder(keys: seq<Double>, n: nat): (order: seq<nat>)
    requires n <= |keys|
    ensures |order| == n && InRange(order, |keys|)
  {
    if n == 0 then [] else Insert(keys, n - 1, SortOrder(keys, n - 1))
  }

  function Reverse(s: seq<nat>): (r: seq<nat>)
    ensures |r| == |s|
    ensures forall i :: 0 <= i < |s| ==> r[i] == s[|s| - 1 - i]
  {
    if |s| == 0 then [] else [s[|s| - 1]] + Reverse(s[..|s| - 1])
  }

  /** The members kept by elitism, by position: the first `top` of the sorted
      order reversed; None where gen.get(i) runs past the list. */
  function Elites(keys: seq<Double>, top: int): (r: Option<seq<nat>>)
    ensures r.None? <==> top > |keys|
    ensures r.Some? ==> |r.value| == (if top <= 0 then 0 else top) && InRange(r.value, |keys|)
  {
    if top > |keys| then None
    else if top <= 0 then Some([])
    else Some(Reverse(SortOrder(keys, |keys|))[..top])
  }

  /** Neighbours in the sorted order never compare descending. */
  predicate AdjacentSorted(keys: seq<Double>, order: seq<nat>)
    requires InRange(order, |keys|)
  {
    forall i :: 0 <= i < |order| - 1 ==> Compare(keys[order[i]], keys[order[i + 1]]) <= 0
  }

  lemma {:induction false} InsertKeepsSorted(keys: seq<Double>, x: nat, order: seq<nat>)
    requires x < |keys| && InRange(order, |keys|)
    requires AdjacentSorted(keys, order)
    ensures AdjacentSorted(keys, Insert(keys, x, order))
  {
    if |order| > 0 && Compare(keys[x], keys[order[0]]) >= 0 {
      var rest := Insert(keys, x, order[1..]);
      InsertKeepsSorted(keys, x, order[1..]);
      CompareAntisymmetric(keys[x], keys[order[0]]);
      var r := [order[0]] + rest;
      forall i | 0 <= i < |r| - 1
        ensures Compare(keys[r[i]], keys[r[i + 1]]) <= 0
      {
        if i > 0 {
          assert r[i] == rest[i - 1] && r[i + 1] == rest[i];
        }
      }
    }
  }

  lemma {:induction false} InsertIsPermutation(keys: seq<Double>, x: nat, order: seq<nat>)
    requires x < |keys| && InRange(order, |keys|)
    ensures multiset(Insert(keys, x, order)) == multiset(order) + multiset{x}
  {
    if |order| > 0 && Compare(keys[x], keys[order[0]]) >= 0 {
      InsertIsPermutation(keys, x, order[1..]);
      assert order == [order[0]] + order[1..];
    }
  }

  function Range(n: nat): (r: seq<nat>)
    ensures |r| == n && forall i :: 0 <= i < n ==> r[i] == i
  {
    if n == 0 then [] else Range(n - 1) + [n - 1]
  }

  lemma RangeCounts(n: nat)
    requires n > 0
    ensures multiset(Range(n)) == multiset(Range(n - 1)) + multiset{(n - 1) as nat}
  {
    assert Range(n) == Range(n - 1) + [n - 1];
  }

  /** The sort is a permutation of the members. */
  lemma {:induction false} SortOrderIsPermutation(keys: seq<Double>, n: nat)
    requires n <= |keys|
    ensures multiset(SortOrder(keys, n)) == multiset(Range(n))
  {
    if n > 0 {
      var before, last := SortOrder(keys, n - 1), multiset{(n - 1) as nat};
      assert multiset(SortOrder(keys, n)) == multiset(before) + last by {
        InsertIsPermutation(keys, n - 1, before);
      }
      SortOrderIsPermutation(keys, n - 1);
      RangeCounts(n);
    }
  }

  /** The sort is ascending by compareTo between neighbours. */
  lemma {:induction false} SortOrderIsSorted(keys: seq<Double>, n: nat)
    requires n <= |keys|
    ensures AdjacentSorted(keys, SortOrder(keys, n))
  {
    if n > 0 {
      SortOrderIsSorted(keys, n - 1);
      InsertKeepsSorted(keys, n - 1, SortOrder(keys, n - 1));
    }
  }

  /** Every member has a place in the sorted order. */
  lemma SortOrderHasEveryMember(keys: seq<Double>, m: nat)
    requires m < |keys|
    ensures m in SortOrder(keys, |keys|)
  {
    SortOrderIsPermutation(keys, |keys|);
    assert Range(|keys|)[m] == m;
    assert m in multiset(Range(|keys|));
  }

  /** Finite keys with whole-number values: on these the truncating
      comparator agrees with the order of the values. */
  predicate WholeValued(keys: seq<Double>)
  {
    forall i :: 0 <= i < |keys| ==> keys[i].Real? && keys[i].r.Floor as real == keys[i].r
  }

  /** A whole-number fitness above another compares above it. */
  lemma WholeValuesCompareInOrder(x: real, y: real)
    requires x.Floor as real == x && y.Floor as real == y
    ensures x > y ==> Compare(Real(x), Real(y)) >= 1
  {
    if x > y {
      assert x.Floor > y.Floor;
      DistantFitnessesCompareInOrder(x, y);
    }
  }

  /** On whole-valued keys, neighbours that compareTo does not put in descending
      order are in ascending order of value. */
  lemma AdjacentStep(keys: seq<Double>, order: seq<nat>, k: nat)
    requires InRange(order, |keys|) && WholeValued(keys)
    requires AdjacentSorted(keys, order) && k + 1 < |order|
    ensures keys[order[k]].r <= keys[order[k + 1]].r
  {
    WholeValuesCompareInOrder(keys[order[k]].r, keys[order[k + 1]].r);
  }

  lemma {:induction false} AscendingPair(keys: seq<Double>, order: seq<nat>, i: nat, j: nat)
    requires InRange(order, |keys|) && WholeValued(keys)
    requires AdjacentSorted(keys, order) && i <= j < |order|
    ensures keys[order[i]].r <= keys[order[j]].r
    decreases j - i
  {
    if i < j {
      AscendingPair(keys, order, i, j - 1);
      AdjacentStep(keys, order, j - 1);
    }
  }

  /** Elite i is the i-th member from the end of the ascending order. */
  lemma EliteFromTheTop(keys: seq<Double>, top: nat, i: nat)
    requires 0 < top <= |keys| && i < top
    ensures |Elites(keys, top).value| == top
    ensures Elites(keys, top).value[i] == SortOrder(keys, |keys|)[|keys| - 1 - i]
  {
  }

  /** On whole-valued keys, the elites are in descending fitness order. */
  lemma ElitesDescend(keys: seq<Double>, top: nat, i: nat, j: nat)
    requires WholeValued(keys) && 0 < top <= |keys|
    requires i <= j < top
    ensures keys[Elites(keys, top).value[j]].r <= keys[Elites(keys, top).value[i]].r
  {
    EliteFromTheTop(keys, top, i);
    EliteFromTheTop(keys, top, j);
    SortedInOrder(keys, |keys| - 1 - j, |keys| - 1 - i);
  }

  /** A member outside the elites sorts below the last top places. */
  lemma OutsideElitesSortLow(keys: seq<Double>, top: nat, p: nat)
    requires 0 < top <= |keys| && p < |keys|
    requires SortOrder(keys, |keys|)[p] !in Elites(keys, top).value
    ensures p < |keys| - top
  {
    if p >= |keys| - top {
      SortedTailIsElite(keys, top, p);
    }
  }

  /** The last top places of the ascending order are the elites. */
  lemma SortedTailIsElite(keys: seq<Double>, top: nat, p: nat)
    requires 0 < top <= |keys| && |keys| - top <= p < |keys|
    ensures SortOrder(keys, |keys|)[p] in Elites(keys, top).value
  {
    EliteFromTheTop(keys, top, |keys| - 1 - p);
  }

  /** On whole-valued keys, no member outside the elites is fitter than one inside. */
  lemma ElitesDominate(keys: seq<Double>, top: nat, i: nat, m: nat)
    requires WholeValued(keys) && 0 < top <= |keys|
    requires i < top && m < |keys| && m !in Elites(keys, top).value
    ensures keys[m].r <= keys[Elites(keys, top).value[i]].r
  {
    var p := PlaceOfNonElite(keys, top, m);
    EliteFromTheTop(keys, top, i);
    SortedInOrder(keys, p, |keys| - 1 - i);
  }

  /** A member left out of the elites sorts below the TOP last positions. */
  lemma PlaceOfNonElite(keys: seq<Double>, top: nat, m: nat) returns (p: nat)
    requires 0 < top <= |keys| && m < |keys| && m !in Elites(keys, top).value
    ensures p < |keys| - top && SortOrder(keys, |keys|)[p] == m
  {
    var order := SortOrder(keys, |keys|);
    SortOrderHasEveryMember(keys, m);
    p :| 0 <= p < |order| && order[p] == m;
    OutsideElitesSortLow(keys, top, p);
  }

  /** On whole-valued fitness the sort is ascending between any two positions. */
  lemma SortedInOrder(keys: seq<Double>, p: nat, q: nat)
    requires WholeValued(keys) && p <= q < |keys|
    ensures keys[SortOrder(keys, |keys|)[p]].r <= keys[SortOrder(keys, |keys|)[q]].r
  {
    SortOrderIsSorted(keys, |keys|);
    AscendingPair(keys, SortOrder(keys, |keys|), p, q);
  }

  /** Members with equal fitness come out of elitism latest-first: the sort
      is stable and the reverse turns it around. */
  lemma TiesComeOutReversed(x: real)
    ensures Elites([Real(x), Real(x), Real(x)], 2) == Some([2, 1])
  {
    var keys := [Real(x), Real(x), Real(x)];
    CloseFitnessesCompareEqual(x, x);
    assert SortOrder(keys, 1) == [0];
    assert Insert(keys, 1, [0]) == [0] + Insert(keys, 1, []);
    assert SortOrder(keys, 2) == [0, 1];
    assert Insert(keys, 2, [1]) == [1] + Insert(keys, 2, []);
    assert Insert(keys, 2, [0, 1]) == [0] + Insert(keys, 2, [1]);
    assert SortOrder(keys, 3) == [0, 1, 2];
    assert Reverse([0, 1, 2])[..2] == [2, 1];
  }

  /** Fitness values less than 1 apart are ties for elitism: a member that is
      fitter by 0.5 can be left behind. */
  lemma NearTiesCanLoseTheFitter()
    ensures Elites([Real(1.5), Real(1.0)], 1) == Some([1])
  {
    var keys := [Real(1.5), Real(1.0)];
    CloseFitnessesCompareEqual(1.0, 1.5);
    assert SortOrder(keys, 1) == [0];
    assert Insert(keys, 1, [0]) == [0] + Insert(keys, 1, []);
    assert SortOrder(keys, 2) == [0, 1];
    assert Reverse([0, 1])[..1] == [1];
  }

  /** With chained near-ties the insertion sort already reorders three
      members: when x ties y and y ties z under compareTo but z is at least
      1 below x, z sorts below x and the elite of one is the middle member
      (for instance 1.2, 0.6 and 0.0). */
  lemma ChainedNearTiesElite(x: real, y: real, z: real)
    requires -1.0 < x - y < 1.0 && -1.0 < y - z < 1.0 && x - z >= 1.0
    ensures Elites([Real(x), Real(y), Real(z)], 1) == Some([1])
  {
    var keys := [Real(x), Real(y), Real(z)];
    var two: seq<nat> := [0, 1];
    assert SortOrder(keys, 2) == two by {
      CloseFitnessesCompareEqual(y, x);
      assert SortOrder(keys, 1) == [0];
      assert Insert(keys, 1, [0]) == [0] + Insert(keys, 1, []);
    }
    assert SortOrder(keys, 3) == [2] + two by {
      DistantFitnessesCompareInOrder(x, z);
      assert Compare(keys[2], keys[two[0]]) < 0;
    }
    assert Reverse([2, 0, 1])[..1] == [1];
  }


}
