/** The block segmenter of GeneticAlgorithm: an action sequence is cut into
    runs of one repeated action code ("blocks"); crossover and mutation work
    on whole blocks and flatten them back afterwards. */
module Blocks {
  import opened Common

  type Block = seq<int>

  /** A block is a non-empty run of one value. */
  predicate IsBlock(b: Block)
  {
    |b| > 0 && forall k :: 0 <= k < |b| ==> b[k] == b[0]
  }

  /** Length of the maximal run of s[0] at the head of s: all of it equals
      s[0] and the next value, if any, does not. */
  function RunLength(s: seq<int>): (n: nat)
    requires |s| > 0
    ensures 1 <= n <= |s|
    ensures forall k :: 0 <= k < n ==> s[k] == s[0]
    ensures n < |s| ==> s[n] != s[0]
  {
    if |s| == 1 || s[1] != s[0] then 1 else 1 + RunLength(s[1..])
  }

  /** A run longer than 10 is cut once, at floor(length / 2), into two
      pieces that make it up again; a shorter run stays whole. */
  function SplitRun(run: Block): (r: seq<Block>)
    ensures |run| > 10 ==> |r| == 2 && |r[0]| == |run| / 2 && r[0] + r[1] == run
    ensures |run| <= 10 ==> r == [run]
  {
    if |run| > 10 then [run[..|run| / 2], run[|run| / 2..]] else [run]
  }

  /** The blocks of xs: each maximal run in order, split by SplitRun. There
      are no more blocks than values, and at least one for a non-empty input. */
  function Segments(xs: seq<int>): (r: seq<Block>)
    ensures |xs| > 0 <==> |r| > 0
    ensures |r| <= |xs|
    decreases |xs|
  {
    if |xs| == 0 then []
    else
      var n := RunLength(xs);
      SplitRun(xs[..n]) + Segments(xs[n..])
  }

  lemma SplitRunFlatten(run: Block)
    ensures Flatten(SplitRun(run)) == run
  {
    if |run| > 10 {
      FlattenCons(run[..|run| / 2], [run[|run| / 2..]]);
      FlattenSingle(run[|run| / 2..]);
      assert run[..|run| / 2] + run[|run| / 2..] == run;
    } else {
      FlattenSingle(run);
    }
  }

  /** Flattening the segments gives back the input. */
  lemma {:induction false} SegmentsFlatten(xs: seq<int>)
    ensures Flatten(Segments(xs)) == xs
    decreases |xs|
  {
    if |xs| > 0 {
      var n := RunLength(xs);
      var run, rest := xs[..n], xs[n..];
      assert Flatten(Segments(xs)) == run + rest by {
        var head, tail := SplitRun(run), Segments(rest);
        FlattenAppend(head, tail);
        SplitRunFlatten(run);
        SegmentsFlatten(rest);
      }
      assert run + rest == xs;
    }
  }

  /** Every segment is a non-empty run of one value. */
  lemma {:induction false} SegmentsAreBlocks(xs: seq<int>)
    ensures forall i :: 0 <= i < |Segments(xs)| ==> IsBlock(Segments(xs)[i])
    decreases |xs|
  {
    if |xs| > 0 {
      var n := RunLength(xs);
      var run := xs[..n];
      assert IsBlock(run);
      var head := SplitRun(run);
      assert forall i :: 0 <= i < |head| ==> IsBlock(head[i]);
      SegmentsAreBlocks(xs[n..]);
    }
  }

  /** A maximal run of v of length n, followed by something that does not
      start with v, contributes exactly SplitRun(run) to the segments. */
  lemma MaximalRun(v: int, n: nat, rest: seq<int>)
    requires n > 0
    requires rest == [] || rest[0] != v
    ensures Segments(Repeat(v, n) + rest) == SplitRun(Repeat(v, n)) + Segments(rest)
  {
    var xs := Repeat(v, n) + rest;
    RunOfRepeat(v, n, rest);
    assert xs[..n] == Repeat(v, n);
    assert xs[n..] == rest;
  }

  lemma RunOfRepeat(v: int, n: nat, rest: seq<int>)
    requires n > 0
    requires rest == [] || rest[0] != v
    ensures RunLength(Repeat(v, n) + rest) == n
  {
    var xs := Repeat(v, n) + rest;
    assert forall k :: 0 <= k < n ==> xs[k] == v;
    assert n < |xs| ==> xs[n] == rest[0];
    RunLengthExact(xs, n);
  }

  /** A run of exactly m copies of s[0] at the head of s has RunLength m. */
  lemma {:induction false} RunLengthExact(s: seq<int>, m: nat)
    requires 0 < m <= |s|
    requires forall k :: 0 <= k < m ==> s[k] == s[0]
    requires m < |s| ==> s[m] != s[0]
    ensures RunLength(s) == m
  {
    if m > 1 {
      assert s[1] == s[0];
      RunLengthExact(s[1..], m - 1);
    }
  }

  /** One pass of the outer loop: after the blocks so far, the run arr[start..i]
      contributes SplitRun of it and the rest of arr its own blocks. */
  lemma SegmentsStep(arr: seq<int>, start: nat, i: nat, before: seq<Block>)
    requires start < i <= |arr|
    requires forall k :: start <= k < i ==> arr[k] == arr[start]
    requires i < |arr| ==> arr[i] != arr[start]
    ensures before + Segments(arr[start..]) == (before + SplitRun(arr[start..i])) + Segments(arr[i..])
  {
    var s := arr[start..];
    var run, rest := arr[start..i], arr[i..];
    RunLengthExact(s, i - start);
    assert s[..i - start] == run && s[i - start..] == rest;
    assert Segments(s) == SplitRun(run) + Segments(rest);
    AppendAssociative(before, SplitRun(run), Segments(rest));
  }

  /** A maximal run of at most 10 stays one block. */
  lemma ShortRunIsOneBlock(v: int, n: nat, rest: seq<int>)
    requires 0 < n <= 10
    requires rest == [] || rest[0] != v
    ensures Segments(Repeat(v, n) + rest) == [Repeat(v, n)] + Segments(rest)
  {
    MaximalRun(v, n, rest);
  }

  /** A maximal run of more than 10 becomes two blocks, floor(n/2) and the rest. */
  lemma LongRunIsTwoBlocks(v: int, n: nat, rest: seq<int>)
    requires n > 10
    requires rest == [] || rest[0] != v
    ensures Segments(Repeat(v, n) + rest)
         == [Repeat(v, n / 2), Repeat(v, n - n / 2)] + Segments(rest)
  {
    MaximalRun(v, n, rest);
    var r := Repeat(v, n);
    assert r[..n / 2] == Repeat(v, n / 2);
    assert r[n / 2..] == Repeat(v, n - n / 2);
  }

  lemma TwelveIsSixAndSix(v: int)
    ensures Segments(Repeat(v, 12)) == [Repeat(v, 6), Repeat(v, 6)]
  {
    LongRunIsTwoBlocks(v, 12, []);
    assert Repeat(v, 12) + [] == Repeat(v, 12);
  }

  lemma TwentyOneIsTenAndEleven(v: int)
    ensures Segments(Repeat(v, 21)) == [Repeat(v, 10), Repeat(v, 11)]
  {
    LongRunIsTwoBlocks(v, 21, []);
    assert Repeat(v, 21) + [] == Repeat(v, 21);
  }

  /** The single split does not bound block length: 22 equal codes give two blocks of 11. */
  lemma TwentyTwoLeavesBlocksOverTen(v: int)
    ensures Segments(Repeat(v, 22)) == [Repeat(v, 11), Repeat(v, 11)]
    ensures |Segments(Repeat(v, 22))[0]| > 10
  {
    LongRunIsTwoBlocks(v, 22, []);
    assert Repeat(v, 22) + [] == Repeat(v, 22);
  }

  /** The inner loop of separateArrayByBlocks: copies the run of `value` that starts at i. */
  method CollectRun(arr: seq<int>, i0: nat, value: int) returns (newBlock: Block, i: nat)
    requires i0 < |arr| && arr[i0] == value
    ensures i0 < i <= |arr|
    ensures newBlock == arr[i0..i]
    ensures forall k :: i0 <= k < i ==> arr[k] == value
    ensures i < |arr| ==> arr[i] != value
  {
    newBlock := [];
    i := i0;
    while i < |arr| && value == arr[i]
      invariant i0 <= i <= |arr|
      invariant newBlock == arr[i0..i]
      invariant forall k :: i0 <= k < i ==> arr[k] == value
    {
      newBlock := newBlock + [value];
      i := i + 1;
    }
  }

  /** separateArrayByBlocks: the index loop of the source, proved to compute
      Segments; an empty list fails at `arr.get(0)`. */
  method SeparateArrayByBlocks(arr: seq<int>) returns (r: Result<seq<Block>>)
    ensures |arr| == 0 <==> r == Err(IndexOutOfBounds)
    ensures |arr| > 0 ==> r == Ok(Segments(arr))
  {
    if |arr| == 0 {
      return Err(IndexOutOfBounds);
    }
    var tmpArr: seq<Block> := [];
    var value := arr[0];
    var i := 0;
    while i < |arr|
      invariant 0 <= i <= |arr|
      invariant i < |arr| ==> value == arr[i]
      invariant tmpArr + Segments(arr[i..]) == Segments(arr)
      decreases |arr| - i
    {
      var start := i;
      ghost var before := tmpArr;
      var newBlock: Block;
      newBlock, i := CollectRun(arr, i, value);
      if |newBlock| > 10 {
        var partialBlock1 := newBlock[..|newBlock| / 2];
        var partialBlock2 := newBlock[|newBlock| / 2..];
        tmpArr := tmpArr + [partialBlock1, partialBlock2];
      } else {
        tmpArr := tmpArr + [newBlock];
      }
      assert tmpArr + Segments(arr[i..]) == Segments(arr) by {
        assert tmpArr == before + SplitRun(arr[start..i]);
        SegmentsStep(arr, start, i, before);
      }
      if i < |arr| {
        value := arr[i];
      }
    }
    assert Segments(arr[|arr|..]) == [];
    assert tmpArr + [] == tmpArr;
    return Ok(tmpArr);
  }

  /** blockedArrayToArrayList: concatenates the blocks, in order. */
  method BlockedArrayToArrayList(blockedArray: seq<Block>) returns (returnArr: seq<int>)
    ensures returnArr == Flatten(blockedArray)
    ensures |blockedArray| > 0 ==> blockedArray[0] <= returnArr
  {
    returnArr := [];
    var i := 0;
    while i < |blockedArray|
      invariant 0 <= i <= |blockedArray|
      invariant returnArr == Flatten(blockedArray[..i])
    {
      assert blockedArray[..i + 1][..i] == blockedArray[..i];
      returnArr := returnArr + blockedArray[i];
      i := i + 1;
    }
    assert blockedArray[..|blockedArray|] == blockedArray;
    if |blockedArray| > 0 {
      FlattenCons(blockedArray[0], blockedArray[1..]);
      assert [blockedArray[0]] + blockedArray[1..] == blockedArray;
    }
  }

  /** separateLists: the blocks before and from position sPos, or null
      (None) when sPos is not below the number of blocks. */
  method SeparateLists(list: seq<Block>, sPos: int) returns (r: Option<(seq<Block>, seq<Block>)>)
    ensures r.None? <==> sPos >= |list|
    ensures 0 <= sPos < |list| ==> r == Some((list[..sPos], list[sPos..]))
    ensures sPos < 0 ==> r == Some(([], list))
  {
    if sPos < |list| {
      var firstList: seq<Block> := [];
      var secondList: seq<Block> := [];
      var it := 0;
      var cut := if sPos < 0 then 0 else sPos;
      while it < |list|
        invariant 0 <= it <= |list|
        invariant firstList == list[..if it < cut then it else cut]
        invariant secondList == if it < cut then [] else list[cut..it]
      {
        if it < sPos {
          firstList := firstList + [list[it]];
        } else {
          secondList := secondList + [list[it]];
        }
        it := it + 1;
      }
      assert list[cut..|list|] == list[cut..];
      return Some((firstList, secondList));
    } else {
      return None;
    }
  }
}
