/** The genetic operators on blocked action sequences: ONE_POINT and UNIFORM
    crossover and single-block mutation, as the engine performs them on the
    block lists it builds with separateArrayByBlocks. */
module Operators {
  import opened Common
  import opened Blocks
  import opened Buttons

  // ---------------------------------------------------------------------------
  // ONE_POINT
  // ---------------------------------------------------------------------------

  /** Math.round on a non-negative double: the nearest integer, halves upward. */
  function Round(x: real): (n: int)
    requires x >= 0.0
    ensures n >= 0
    ensures n as real - 0.5 <= x < n as real + 0.5
  {
    (x + 0.5).Floor
  }

  /** The ONE_POINT position: round(blockCount * rate), with 0 moved to 1. */
  function OnePointPosition(blockCount: nat, rate: real): (pos: nat)
    requires 0.0 <= rate <= 1.0
    ensures pos >= 1
    ensures blockCount > 0 ==> pos <= blockCount
    ensures blockCount == 0 ==> pos == 1
  {
    var p := Round(blockCount as real * rate);
    assert p <= blockCount by {
      assert blockCount as real * rate <= blockCount as real;
    }
    if p == 0 then 1 else p
  }

  /** The block list with the block at index k taken out. */
  function RemoveBlock(blocks: seq<Block>, k: nat): (r: seq<Block>)
    requires k < |blocks|
    ensures |r| == |blocks| - 1
    ensures forall i :: 0 <= i < k ==> r[i] == blocks[i]
    ensures forall i :: k <= i < |r| ==> r[i] == blocks[i + 1]
  {
    blocks[..k] + blocks[k + 1..]
  }

  /** One child of ONE_POINT as the code builds it: split the parent's blocks at
      pos (None where separateLists gives null), clear the parent's list from
      pos - 1 on, then append the second part of the split, which is the same
      parent's own blocks from pos on. */
  method OnePointChild(blocks: seq<Block>, rate: real) returns (child: Option<seq<Block>>)
    requires 0.0 <= rate <= 1.0
    ensures child.None? <==> OnePointPosition(|blocks|, rate) >= |blocks|
    ensures child.Some? ==> child.value == RemoveBlock(blocks, OnePointPosition(|blocks|, rate) - 1)
  {
    var pos := OnePointPosition(|blocks|, rate);
    var separated := SeparateLists(blocks, pos);
    if separated.None? {
      return None;
    }
    var tail := separated.value.1;
    var kept := blocks[..pos - 1];
    child := Some(kept + tail);
  }

  /** Taking one non-empty block out makes the flattened sequence strictly
      shorter, by exactly that block's length. */
  lemma RemoveBlockShortens(blocks: seq<Block>, k: nat)
    requires k < |blocks|
    ensures |Flatten(RemoveBlock(blocks, k))| == |Flatten(blocks)| - |blocks[k]|
    ensures IsBlock(blocks[k]) ==> |Flatten(RemoveBlock(blocks, k))| < |Flatten(blocks)|
  {
    RemoveBlockKeepsRest(blocks, k);
  }

  /** The flattened child keeps the parent's inputs before and after the
      removed block. */
  lemma RemoveBlockKeepsRest(blocks: seq<Block>, k: nat)
    requires k < |blocks|
    ensures Flatten(RemoveBlock(blocks, k)) == Flatten(blocks[..k]) + Flatten(blocks[k + 1..])
    ensures Flatten(blocks) == Flatten(blocks[..k]) + blocks[k] + Flatten(blocks[k + 1..])
  {
    var before, at, after := blocks[..k], [blocks[k]], blocks[k + 1..];
    AroundElement(blocks, k);
    FlattenAppend(before + at, after);
    FlattenAppend(before, at);
    FlattenSingle(blocks[k]);
    assert RemoveBlock(blocks, k) == before + after;
    FlattenAppend(before, after);
  }

  /** With the default rate 0.5, a parent of 4 blocks loses its second block. */
  lemma OnePointExample()
    ensures OnePointPosition(4, 0.5) == 2
    ensures OnePointPosition(1, 0.5) == 1
    ensures OnePointPosition(3, 0.5) == 2
  {
  }

  // ---------------------------------------------------------------------------
  // UNIFORM
  // ---------------------------------------------------------------------------

  /** Index i is chosen when the i-th Math.random() of the loop is below the rate. */
  predicate Chosen(rng: Rng, t0: nat, rate: real, i: nat)
  {
    rng.reals(t0 + i) < rate
  }

  /** The blocks of b at the chosen indices in [lo, hi), in order. */
  function ChosenFrom(b: seq<Block>, lo: nat, hi: nat, rng: Rng, t0: nat, rate: real): (r: seq<Block>)
    requires hi <= |b|
    ensures |r| <= if hi <= lo then 0 else hi - lo
  {
    if hi <= lo then []
    else ChosenFrom(b, lo, hi - 1, rng, t0, rate) + (if Chosen(rng, t0, rate, hi - 1) then [b[hi - 1]] else [])
  }

  /** One more index considered: its block joins when it is chosen and lies
      in range. */
  lemma ChosenStep(b: seq<Block>, lo: nat, i: nat, rng: Rng, t0: nat, rate: real)
    requires i < |b|
    ensures ChosenFrom(b, lo, i + 1, rng, t0, rate)
         == ChosenFrom(b, lo, i, rng, t0, rate) + (if lo <= i && Chosen(rng, t0, rate, i) then [b[i]] else [])
  {
    if i < lo {
      assert ChosenFrom(b, lo, i + 1, rng, t0, rate) == [];
    } else {
      assert ChosenFrom(b, lo, i, rng, t0, rate) + [] == ChosenFrom(b, lo, i, rng, t0, rate);
    }
  }

  /** The first n blocks of x, where each index that is chosen and also
      inside y takes y's block instead. */
  function Picked(x: seq<Block>, y: seq<Block>, n: nat, rng: Rng, t0: nat, rate: real): (r: seq<Block>)
    requires n <= |x|
    ensures |r| == n
  {
    if n == 0 then []
    else Picked(x, y, n - 1, rng, t0, rate)
         + [if n - 1 < |y| && Chosen(rng, t0, rate, n - 1) then y[n - 1] else x[n - 1]]
  }

  lemma {:induction false} PickedAt(x: seq<Block>, y: seq<Block>, n: nat, rng: Rng, t0: nat, rate: real)
    requires n <= |x|
    ensures forall k :: 0 <= k < n ==>
      Picked(x, y, n, rng, t0, rate)[k] == if k < |y| && Chosen(rng, t0, rate, k) then y[k] else x[k]
  {
    if n > 0 {
      PickedAt(x, y, n - 1, rng, t0, rate);
    }
  }

  /** Child 1 of UNIFORM: parent 1 with the chosen shared indices taken from
      parent 2, then parent 2's chosen blocks beyond parent 1's length. */
  function UniformChild1(b1: seq<Block>, b2: seq<Block>, rng: Rng, t0: nat, rate: real): (c: seq<Block>)
    ensures |b1| <= |c| <= |b1| + (if |b2| <= |b1| then 0 else |b2| - |b1|)
    ensures forall k :: 0 <= k < |b1| ==> c[k] == if k < |b2| && Chosen(rng, t0, rate, k) then b2[k] else b1[k]
    ensures c[|b1|..] == ChosenFrom(b2, |b1|, |b2|, rng, t0, rate)
  {
    PickedAt(b1, b2, |b1|, rng, t0, rate);
    Picked(b1, b2, |b1|, rng, t0, rate) + ChosenFrom(b2, |b1|, |b2|, rng, t0, rate)
  }

  /** Child 2 of UNIFORM: parent 2 with the chosen shared indices taken from parent 1. */
  function UniformChild2(b1: seq<Block>, b2: seq<Block>, rng: Rng, t0: nat, rate: real): (c: seq<Block>)
    ensures |c| == |b2|
    ensures forall k :: 0 <= k < |b2| ==> c[k] == if k < |b1| && Chosen(rng, t0, rate, k) then b1[k] else b2[k]
  {
    PickedAt(b2, b1, |b2|, rng, t0, rate);
    Picked(b2, b1, |b2|, rng, t0, rate)
  }

  /** The children after the UNIFORM loop has considered indices [0, i). */
  ghost predicate UniformAt(b1: seq<Block>, b2: seq<Block>, c1: seq<Block>, c2: seq<Block>, i: nat, rng: Rng, t0: nat, rate: real)
  {
    i <= |b2| && |c2| == |b2| && |b1| <= |c1|
    && (forall k :: 0 <= k < |b2| ==>
          c2[k] == if k < i && k < |b1| && Chosen(rng, t0, rate, k) then b1[k] else b2[k])
    && (forall k :: 0 <= k < |b1| ==>
          c1[k] == if k < i && k < |b2| && Chosen(rng, t0, rate, k) then b2[k] else b1[k])
    && c1[|b1|..] == ChosenFrom(b2, |b1|, i, rng, t0, rate)
  }

  lemma UniformSkip(b1: seq<Block>, b2: seq<Block>, c1: seq<Block>, c2: seq<Block>, i: nat, rng: Rng, t0: nat, rate: real)
    requires UniformAt(b1, b2, c1, c2, i, rng, t0, rate) && i < |b2| && !Chosen(rng, t0, rate, i)
    ensures UniformAt(b1, b2, c1, c2, i + 1, rng, t0, rate)
  {
    ChosenStep(b2, |b1|, i, rng, t0, rate);
  }

  lemma UniformSwap(b1: seq<Block>, b2: seq<Block>, c1: seq<Block>, c2: seq<Block>, i: nat, rng: Rng, t0: nat, rate: real)
    requires UniformAt(b1, b2, c1, c2, i, rng, t0, rate) && i < |b1| && i < |b2| && Chosen(rng, t0, rate, i)
    ensures UniformAt(b1, b2, c1[i := c2[i]], c2[i := c1[i]], i + 1, rng, t0, rate)
  {
    ChosenStep(b2, |b1|, i, rng, t0, rate);
    UpdatedBefore(c1, i, c2[i], |b1|);
  }

  lemma UniformAppend(b1: seq<Block>, b2: seq<Block>, c1: seq<Block>, c2: seq<Block>, i: nat, rng: Rng, t0: nat, rate: real)
    requires UniformAt(b1, b2, c1, c2, i, rng, t0, rate) && |b1| <= i < |b2| && Chosen(rng, t0, rate, i)
    ensures UniformAt(b1, b2, c1 + [c2[i]], c2, i + 1, rng, t0, rate)
  {
    ChosenStep(b2, |b1|, i, rng, t0, rate);
    AppendedTail(c1, c2[i], |b1|);
  }

  /** Child 1 holds |b1| blocks and one more per chosen index in [|b1|, i),
      so index i lies inside it exactly when i < |b1|. */
  lemma UniformInside(b1: seq<Block>, b2: seq<Block>, c1: seq<Block>, c2: seq<Block>, i: nat, rng: Rng, t0: nat, rate: real)
    requires UniformAt(b1, b2, c1, c2, i, rng, t0, rate)
    ensures i < |c1| <==> i < |b1|
  {
    assert |c1| == |b1| + |c1[|b1|..]|;
  }

  lemma UniformDone(b1: seq<Block>, b2: seq<Block>, c1: seq<Block>, c2: seq<Block>, rng: Rng, t0: nat, rate: real)
    requires UniformAt(b1, b2, c1, c2, |b2|, rng, t0, rate)
    ensures c1 == UniformChild1(b1, b2, rng, t0, rate)
    ensures c2 == UniformChild2(b1, b2, rng, t0, rate)
  {
    PickedAt(b1, b2, |b1|, rng, t0, rate);
    PickedAt(b2, b1, |b2|, rng, t0, rate);
    assert c1 == c1[..|b1|] + c1[|b1|..];
  }

  /** One pass of the UNIFORM loop at index i on the children c: when the
      draw chooses i, a block inside child 1 is swapped with child 2's, and
      past child 1's end child 2's block is appended to child 1. */
  function UniformStep(c: (seq<Block>, seq<Block>), i: nat, rng: Rng, t0: nat, rate: real): (seq<Block>, seq<Block>)
    requires i < |c.1|
  {
    if !Chosen(rng, t0, rate, i) then c
    else if i >= |c.0| then (c.0 + [c.1[i]], c.1)
    else (c.0[i := c.1[i]], c.1[i := c.0[i]])
  }

  /** The children after the UNIFORM loop has run its first i passes. */
  function UniformUpTo(b1: seq<Block>, b2: seq<Block>, i: nat, rng: Rng, t0: nat, rate: real): (c: (seq<Block>, seq<Block>))
    requires i <= |b2|
    ensures |c.1| == |b2|
  {
    if i == 0 then (b1, b2)
    else UniformStep(UniformUpTo(b1, b2, i - 1, rng, t0, rate), i - 1, rng, t0, rate)
  }

  /** The children after i passes are those UniformAt describes. */
  lemma {:induction false} UniformUpToAt(b1: seq<Block>, b2: seq<Block>, i: nat, rng: Rng, t0: nat, rate: real)
    requires i <= |b2|
    ensures var c := UniformUpTo(b1, b2, i, rng, t0, rate); UniformAt(b1, b2, c.0, c.1, i, rng, t0, rate)
  {
    if i == 0 {
      assert (b1, b2).0[|b1|..] == [];
    } else {
      UniformUpToAt(b1, b2, i - 1, rng, t0, rate);
      var c := UniformUpTo(b1, b2, i - 1, rng, t0, rate);
      UniformInside(b1, b2, c.0, c.1, i - 1, rng, t0, rate);
      if !Chosen(rng, t0, rate, i - 1) {
        UniformSkip(b1, b2, c.0, c.1, i - 1, rng, t0, rate);
      } else if i - 1 >= |c.0| {
        UniformAppend(b1, b2, c.0, c.1, i - 1, rng, t0, rate);
      } else {
        UniformSwap(b1, b2, c.0, c.1, i - 1, rng, t0, rate);
      }
    }
  }

  /** The whole UNIFORM loop gives exactly the children defined index by index. */
  lemma UniformUpToChildren(b1: seq<Block>, b2: seq<Block>, rng: Rng, t0: nat, rate: real)
    ensures UniformUpTo(b1, b2, |b2|, rng, t0, rate) == (UniformChild1(b1, b2, rng, t0, rate), UniformChild2(b1, b2, rng, t0, rate))
  {
    UniformUpToAt(b1, b2, |b2|, rng, t0, rate);
    var c := UniformUpTo(b1, b2, |b2|, rng, t0, rate);
    UniformDone(b1, b2, c.0, c.1, rng, t0, rate);
  }

  /** The UNIFORM loop. Both branches of the source run the same body over
      i < |b2|: a chosen index inside child 1 swaps the two blocks, and a
      chosen index past child 1's end appends parent 2's block to child 1. */
  method UniformCrossover(b1: seq<Block>, b2: seq<Block>, rate: real, rng: Rng, t0: nat)
    returns (c1: seq<Block>, c2: seq<Block>, t: nat)
    ensures (c1, c2) == UniformUpTo(b1, b2, |b2|, rng, t0, rate)
    ensures c1 == UniformChild1(b1, b2, rng, t0, rate)
    ensures c2 == UniformChild2(b1, b2, rng, t0, rate)
    ensures t == t0 + |b2|
  {
    c1, c2 := b1, b2;
    t := t0;
    var i := 0;
    while i < |b2|
      invariant i <= |b2| && t == t0 + i
      invariant (c1, c2) == UniformUpTo(b1, b2, i, rng, t0, rate)
    {
      var rand := rng.reals(t);
      t := t + 1;
      if rand < rate {
        if i >= |c1| {
          c1 := c1 + [c2[i]];
        } else {
          var tmp := c1[i];
          c1 := c1[i := c2[i]];
          c2 := c2[i := tmp];
        }
      }
      i := i + 1;
    }
    UniformUpToChildren(b1, b2, rng, t0, rate);
  }

  /** When parent 1 has at least as many blocks, both children keep their
      parents' block counts, only chosen indices below |b2| are exchanged, and
      parent 1's tail past |b2| is untouched. */
  lemma UniformKeepsCounts(b1: seq<Block>, b2: seq<Block>, rng: Rng, t0: nat, rate: real)
    requires |b1| >= |b2|
    ensures |UniformChild1(b1, b2, rng, t0, rate)| == |b1|
    ensures |UniformChild2(b1, b2, rng, t0, rate)| == |b2|
    ensures UniformChild1(b1, b2, rng, t0, rate)[|b2|..] == b1[|b2|..]
    ensures forall k :: 0 <= k < |b2| && !Chosen(rng, t0, rate, k) ==>
      UniformChild1(b1, b2, rng, t0, rate)[k] == b1[k] && UniformChild2(b1, b2, rng, t0, rate)[k] == b2[k]
    ensures forall k :: 0 <= k < |b2| && Chosen(rng, t0, rate, k) ==>
      UniformChild1(b1, b2, rng, t0, rate)[k] == b2[k] && UniformChild2(b1, b2, rng, t0, rate)[k] == b1[k]
  {
    PickedAt(b1, b2, |b1|, rng, t0, rate);
    PickedAt(b2, b1, |b2|, rng, t0, rate);
    assert ChosenFrom(b2, |b1|, |b2|, rng, t0, rate) == [];
  }

  /** When parent 1 is shorter, child 2 keeps |b2| blocks while child 1 grows
      by one block of parent 2 for each chosen index at or past |b1|. */
  lemma UniformAsymmetric(b1: seq<Block>, b2: seq<Block>, rng: Rng, t0: nat, rate: real)
    requires |b1| < |b2|
    ensures |UniformChild2(b1, b2, rng, t0, rate)| == |b2|
    ensures UniformChild1(b1, b2, rng, t0, rate)[|b1|..] == ChosenFrom(b2, |b1|, |b2|, rng, t0, rate)
    ensures forall k :: |b1| <= k < |b2| ==> UniformChild2(b1, b2, rng, t0, rate)[k] == b2[k]
  {
    PickedAt(b2, b1, |b2|, rng, t0, rate);
  }

  /** With every draw in [lo, hi) chosen, all of b[lo..hi] is kept, in order. */
  lemma {:induction false} ChosenFromAll(b: seq<Block>, lo: nat, hi: nat, rng: Rng, t0: nat, rate: real)
    requires lo <= hi <= |b|
    requires forall i :: lo <= i < hi ==> Chosen(rng, t0, rate, i)
    ensures ChosenFrom(b, lo, hi, rng, t0, rate) == b[lo..hi]
  {
    if hi > lo {
      ChosenFromAll(b, lo, hi - 1, rng, t0, rate);
      assert b[lo..hi] == b[lo..hi - 1] + [b[hi - 1]];
    }
  }

  // ---------------------------------------------------------------------------
  // Mutation
  // ---------------------------------------------------------------------------

  /** The block index mutate draws at t0 among the blocks of non-empty inputs. */
  function MutatedBlock(inputs: seq<int>, rng: Rng, t0: nat): (k: nat)
    requires |inputs| > 0
    ensures k < |Segments(inputs)|
  {
    NextInt(rng, t0, |Segments(inputs)|)
  }

  /** What mutate's work makes of non-empty inputs with its draws from t0
      on: the block drawn at t0 replaced by the hold whose button is drawn
      at t0 + 1; and the cursor after the hold's last draw. */
  function BlockMutation(inputs: seq<int>, table: SlotTable, rng: Rng, t0: nat): (seq<int>, nat)
    requires |inputs| > 0
  {
    var h := DrawnHold(table, rng, t0);
    (Flatten(Segments(inputs)[MutatedBlock(inputs, rng, t0) := Frames(h)]), t0 + 3 + h.frames)
  }

  /** mutate's work once its coin has come up: separate the inputs into blocks,
      draw a block index, draw a button from the frequency table, and put a
      burst of that button in place of the drawn block. */
  method MutateInputs(inputs: seq<int>, frequencies: seq<int>, rng: Rng, t0: nat)
    returns (r: Result<seq<int>>, blockPos: nat, burst: seq<int>, t: nat)
    requires ValidFrequencies(frequencies)
    ensures |inputs| == 0 <==> r == Err(IndexOutOfBounds)
    ensures r.Err? ==> |inputs| == 0 && t == t0
    ensures r.Ok? ==> blockPos == MutatedBlock(inputs, rng, t0)
    ensures r.Ok? ==> burst == Repeat(SlotsOf(frequencies)[NextInt(rng, t0 + 1, 100)], HeldLength(rng, t0 + 2))
    ensures r.Ok? ==> r.value == Flatten(Segments(inputs)[blockPos := burst]) && t == t0 + 3 + |burst|
    ensures r.Ok? ==> (r.value, t) == BlockMutation(inputs, SlotsOf(frequencies), rng, t0)
  {
    t := t0;
    blockPos := 0;
    burst := [];
    var blocks := SeparateArrayByBlocks(inputs);
    if blocks.Err? {
      return Err(blocks.fault), blockPos, burst, t;
    }
    blockPos := NextInt(rng, t, |blocks.value|);
    t := t + 1;
    var buttons := BuildButtonTable(frequencies);
    var j := NextInt(rng, t, 100);
    var button := Space[buttons[j]];
    assert button == buttons[j];
    t := t + 1;
    burst, t := HoldButton(button, rng, t);
    var newBlocks := blocks.value[blockPos := burst];
    var flat := BlockedArrayToArrayList(newBlocks);
    r := Ok(flat);
  }

  /** The mutation replaces the drawn block by a burst of a table button,
      6 to 10 frames long, and keeps every other block. */
  lemma BlockMutationReplacesOneBlock(inputs: seq<int>, table: SlotTable, rng: Rng, t0: nat)
    requires |inputs| > 0
    ensures var k, b := MutatedBlock(inputs, rng, t0), Frames(DrawnHold(table, rng, t0));
            IsBurst(b, table)
            && BlockMutation(inputs, table, rng, t0).0
               == Flatten(Segments(inputs)[..k]) + b + Flatten(Segments(inputs)[k + 1..])
            && BlockMutation(inputs, table, rng, t0).1 == t0 + 3 + |b|
  {
    var k, h := MutatedBlock(inputs, rng, t0), DrawnHold(table, rng, t0);
    HoldIsBurst(h, table);
    MutationKeepsOtherBlocks(inputs, k, Frames(h));
  }

  /** Mutation changes only the drawn block: the inputs before and after it
      are those of the original sequence. */
  lemma {:induction false} MutationKeepsOtherBlocks(inputs: seq<int>, k: nat, burst: seq<int>)
    requires k < |Segments(inputs)|
    ensures Flatten(Segments(inputs)[k := burst])
      == Flatten(Segments(inputs)[..k]) + burst + Flatten(Segments(inputs)[k + 1..])
    ensures inputs == Flatten(Segments(inputs)[..k]) + Segments(inputs)[k] + Flatten(Segments(inputs)[k + 1..])
  {
    var s := Segments(inputs);
    var m := s[k := burst];
    assert m[..k] == s[..k] && m[k + 1..] == s[k + 1..] && m[k] == burst;
    RemoveBlockKeepsRest(m, k);
    RemoveBlockKeepsRest(s, k);
    SegmentsFlatten(inputs);
  }
}
