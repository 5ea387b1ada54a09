/** The button-frequency table and the random bursts of button presses that
    seed, extend and mutate chromosomes. */
module Buttons {
  import opened Common

  /** The solution space: the twelve action codes. */
  const Space: seq<int> := [0, 1, 2, 3, 4, 5, 6, 7, 8, 9, 10, 11]

  const DefaultFrequencies: seq<int> := [2, 10, 20, 30, 10, 10, 3, 5, 5, 3, 1, 1]

  /** Twelve non-negative parts that sum to 100. */
  predicate ValidFrequencies(f: seq<int>)
  {
    |f| == 12 && (forall k :: 0 <= k < 12 ==> f[k] >= 0) && Sum(f) == 100
  }

  lemma DefaultFrequenciesValid()
    ensures ValidFrequencies(DefaultFrequencies)
  {
    var f := DefaultFrequencies;
    assert f[..12] == f;
    assert Sum(f[..1]) == 2 by { assert f[..1][..0] == []; }
    assert Sum(f[..2]) == 12 by { assert f[..2][..1] == f[..1]; }
    assert Sum(f[..3]) == 32 by { assert f[..3][..2] == f[..2]; }
    assert Sum(f[..4]) == 62 by { assert f[..4][..3] == f[..3]; }
    assert Sum(f[..5]) == 72 by { assert f[..5][..4] == f[..4]; }
    assert Sum(f[..6]) == 82 by { assert f[..6][..5] == f[..5]; }
    assert Sum(f[..7]) == 85 by { assert f[..7][..6] == f[..6]; }
    assert Sum(f[..8]) == 90 by { assert f[..8][..7] == f[..7]; }
    assert Sum(f[..9]) == 95 by { assert f[..9][..8] == f[..8]; }
    assert Sum(f[..10]) == 98 by { assert f[..10][..9] == f[..9]; }
    assert Sum(f[..11]) == 99 by { assert f[..11][..10] == f[..10]; }
    assert Sum(f[..12]) == 100 by { assert f[..12][..11] == f[..11]; }
  }

  /** The table for the first n buttons: button b written f[b] times, in
      order; every entry is one of the first n buttons. */
  function Table(f: seq<int>, n: nat): (r: seq<int>)
    requires n <= |f|
    ensures forall k :: 0 <= k < |r| ==> 0 <= r[k] < n
  {
    if n == 0 then [] else Table(f, n - 1) + Repeat(n - 1, if f[n - 1] < 0 then 0 else f[n - 1])
  }

  lemma {:induction false} TableLength(f: seq<int>, n: nat)
    requires n <= |f|
    requires forall k :: 0 <= k < |f| ==> f[k] >= 0
    ensures |Table(f, n)| == Sum(f[..n])
  {
    if n > 0 {
      TableLength(f, n - 1);
      assert f[..n][..n - 1] == f[..n - 1];
    }
  }

  /** For valid frequencies the table has exactly 100 entries, each a button 0..11. */
  lemma TableOfValid(f: seq<int>)
    requires ValidFrequencies(f)
    ensures |Table(f, 12)| == 100
    ensures forall k :: 0 <= k < 100 ==> 0 <= Table(f, 12)[k] < 12
  {
    TableLength(f, 12);
    assert f[..12] == f;
  }

  /** The table of valid frequencies, as a slot table. */
  function SlotsOf(f: seq<int>): SlotTable
    requires ValidFrequencies(f)
  {
    TableOfValid(f);
    Table(f, 12)
  }

  /** Number of occurrences of b in s. */
  function Count(s: seq<int>, b: int): nat
  {
    if |s| == 0 then 0 else Count(s[..|s| - 1], b) + (if s[|s| - 1] == b then 1 else 0)
  }

  lemma {:induction false} CountConcat(a: seq<int>, c: seq<int>, b: int)
    ensures Count(a + c, b) == Count(a, b) + Count(c, b)
    decreases |c|
  {
    if |c| > 0 {
      assert (a + c)[..|a + c| - 1] == a + c[..|c| - 1];
      CountConcat(a, c[..|c| - 1], b);
    } else {
      assert a + c == a;
    }
  }

  lemma {:induction false} RepeatCount(v: int, m: nat, b: int)
    ensures Count(Repeat(v, m), b) == if b == v then m else 0
  {
    if m > 0 {
      RepeatCount(v, m - 1, b);
    }
  }

  /** Button b occupies exactly f[b] slots of the table: its weight out of 100. */
  lemma {:induction false} TableCount(f: seq<int>, n: nat, b: int)
    requires n <= |f|
    requires forall k :: 0 <= k < |f| ==> f[k] >= 0
    ensures Count(Table(f, n), b) == if 0 <= b < n then f[b] else 0
  {
    if n > 0 {
      var prev, r := Table(f, n - 1), Repeat(n - 1, f[n - 1]);
      assert Table(f, n) == prev + r;
      TableCount(f, n - 1, b);
      RepeatCount(n - 1, f[n - 1], b);
      CountConcat(prev, r, b);
    }
  }

  /** The loop at GeneticAlgorithm.java:1003-1011 (also :327-335 and :1097-1105):
      fills an int[100] with each button index repeated by its frequency. */
  method BuildButtonTable(frequencies: seq<int>) returns (table: seq<int>)
    requires ValidFrequencies(frequencies)
    ensures |table| == 100
    ensures table == Table(frequencies, 12)
    ensures forall k :: 0 <= k < 100 ==> 0 <= table[k] < 12
    ensures forall b :: 0 <= b < 12 ==> Count(table, b) == frequencies[b]
  {
    var buttons := new int[100];
    var pos := 0;
    for it := 0 to 12
      invariant pos == Sum(frequencies[..it]) <= 100
      invariant buttons[..pos] == Table(frequencies, it)
    {
      SumPrefixBound(frequencies, it + 1);
      assert frequencies[..it + 1][..it] == frequencies[..it];
      assert Sum(frequencies[..it + 1]) == pos + frequencies[it];
      pos := WriteButton(buttons, pos, it, frequencies[it]);
    }
    assert frequencies[..12] == frequencies;
    assert buttons[..pos] == buttons[..];
    table := buttons[..];
    forall b | 0 <= b < 12
      ensures Count(table, b) == frequencies[b]
    {
      TableCount(frequencies, 12, b);
    }
  }

  /** The inner loop: writes `button` into `count` consecutive slots from pos. */
  method WriteButton(buttons: array<int>, pos: nat, button: int, count: int) returns (next: nat)
    requires count >= 0 && pos + count <= buttons.Length
    modifies buttons
    ensures next == pos + count
    ensures buttons[..next] == old(buttons[..pos]) + Repeat(button, count)
    ensures buttons[next..] == old(buttons[next..])
  {
    next := pos;
    for freq := 0 to count
      invariant next == pos + freq
      invariant buttons[..next] == old(buttons[..pos]) + Repeat(button, freq)
      invariant buttons[pos + count..] == old(buttons[pos + count..])
    {
      buttons[next] := button;
      next := next + 1;
    }
  }

  lemma {:induction false} SumPrefixBound(f: seq<int>, n: nat)
    requires n <= |f|
    requires forall k :: 0 <= k < |f| ==> f[k] >= 0
    ensures 0 <= Sum(f[..n]) <= Sum(f)
    decreases |f| - n
  {
    if n < |f| {
      SumPrefixBound(f, n + 1);
      assert f[..n + 1][..n] == f[..n];
    } else {
      assert f[..n] == f;
    }
    if n > 0 {
      SumNonNegative(f[..n]);
    }
  }

  lemma {:induction false} SumNonNegative(f: seq<int>)
    requires forall k :: 0 <= k < |f| ==> f[k] >= 0
    ensures Sum(f) >= 0
  {
    if |f| > 0 {
      SumNonNegative(f[..|f| - 1]);
    }
  }

  /** A burst: one button held for 6 to 10 frames. */
  predicate IsBurst(b: seq<int>, table: seq<int>)
  {
    6 <= |b| <= 10 && b[0] in table && forall k :: 0 <= k < |b| ==> b[k] == b[0]
  }

  /** A button of the table, held for 6 to 10 frames, is a burst. */
  lemma HeldBurst(button: int, burst: seq<int>, table: seq<int>)
    requires 6 <= |burst| <= 10 && burst == Repeat(button, |burst|)
    requires button in table && 0 <= button < 12
    ensures IsBurst(burst, table) && burst[0] == button
  {
  }

  /** The length of a burst whose loop `for (k = 0; k < nextInt(5) + 6; k++)`
      starts drawing at t0: the bound is redrawn before every test, the test
      of k drawing at t0 + k. No k below 6 can stop the loop, a k from 6 on
      stops it exactly when the bound drawn for it is at most k, and 10
      always does. */
  function HeldLength(rng: Rng, t0: nat): (n: nat)
    ensures 6 <= n <= 10
  {
    if NextInt(rng, t0 + 6, 5) + 6 <= 6 then 6
    else if NextInt(rng, t0 + 7, 5) + 6 <= 7 then 7
    else if NextInt(rng, t0 + 8, 5) + 6 <= 8 then 8
    else if NextInt(rng, t0 + 9, 5) + 6 <= 9 then 9
    else 10
  }

  /** A burst lasts until the first frame count that is not below its own
      freshly drawn bound: every earlier count was below its bound. */
  lemma HeldLengthStops(rng: Rng, t0: nat)
    ensures HeldLength(rng, t0) >= NextInt(rng, t0 + HeldLength(rng, t0), 5) + 6
    ensures forall d :: t0 <= d < t0 + HeldLength(rng, t0) ==> d - t0 < NextInt(rng, d, 5) + 6
  {
    var n := HeldLength(rng, t0);
    forall d | t0 <= d < t0 + n
      ensures d - t0 < NextInt(rng, d, 5) + 6
    {
      if d - t0 >= 6 {
        assert d - t0 < n;
      }
    }
  }

  /** `for (k = 0; k < nextInt(5) + 6; k++) add(button)`: the button held
      for HeldLength frames, one draw per test of the loop. */
  method HoldButton(button: int, rng: Rng, t0: nat) returns (burst: seq<int>, t: nat)
    ensures burst == Repeat(button, HeldLength(rng, t0))
    ensures t == t0 + |burst| + 1
  {
    HeldLengthStops(rng, t0);
    burst := [];
    var k := 0;
    var bound := NextInt(rng, t0, 5) + 6;
    while k < bound
      invariant k <= HeldLength(rng, t0) && burst == Repeat(button, k)
      invariant bound == NextInt(rng, t0 + k, 5) + 6
      decreases 10 - k
    {
      burst := burst + [button];
      k := k + 1;
      bound := NextInt(rng, t0 + k, 5) + 6;
    }
    t := t0 + k + 1;
  }

  /** A sequence of 101 to 200 bursts, each one button held 6 to 10 frames. */
  ghost predicate BurstRun(s: seq<int>, table: seq<int>)
  {
    exists bursts: seq<seq<int>> :: 101 <= |bursts| <= 200 && s == Flatten(bursts)
      && forall i :: 0 <= i < |bursts| ==> IsBurst(bursts[i], table)
  }

  /** A button table: 100 slots, each a button of the space. */
  type SlotTable = table: seq<int> | |table| == 100 && forall k :: 0 <= k < 100 ==> 0 <= table[k] < 12
    witness Repeat(0, 100)

  /** One burst described by its button and the number of frames held. */
  datatype Hold = Hold(button: int, frames: nat)

  /** The frames of a hold: its button, once per frame. */
  function Frames(h: Hold): (b: seq<int>)
    ensures |b| == h.frames && forall k :: 0 <= k < |b| ==> b[k] == h.button
  {
    Repeat(h.button, h.frames)
  }

  /** The hold of one pass of the burst loop whose test drew at t: the
      button at slot nextInt(100) of the table, held HeldLength frames. */
  function DrawnHold(table: SlotTable, rng: Rng, t: nat): (h: Hold)
    ensures h.button == table[NextInt(rng, t + 1, 100)] && IsHold(h, table)
  {
    Hold(table[NextInt(rng, t + 1, 100)], HeldLength(rng, t + 2))
  }

  /** A hold of a button of the table for 6 to 10 frames. */
  predicate IsHold(h: Hold, table: seq<int>)
  {
    6 <= h.frames <= 10 && h.button in table && 0 <= h.button < 12
  }

  /** The frames of such a hold are a burst. */
  lemma HoldIsBurst(h: Hold, table: seq<int>)
    requires IsHold(h, table)
    ensures IsBurst(Frames(h), table)
  {
    HeldBurst(h.button, Frames(h), table);
  }

  /** The burst loop from its test drawing at t with `holds` appended so
      far: all the holds it ends with, and the cursor after the draw that
      ends it. The loop goes on while the count is below a fresh
      nextInt(100) + 101. */
  function HoldsFrom(table: SlotTable, rng: Rng, t: nat, holds: seq<Hold>): (r: (seq<Hold>, nat))
    requires |holds| <= 200
    ensures 101 <= |r.0| <= 200 && holds <= r.0
    ensures r.1 > t
    decreases 200 - |holds|
  {
    if |holds| >= NextInt(rng, t, 100) + 101 then (holds, t + 1)
    else
      var h := DrawnHold(table, rng, t);
      var r := HoldsFrom(table, rng, t + 3 + h.frames, holds + [h]);
      assert holds <= holds + [h];
      r
  }

  /** One more pass of the burst loop: the hold drawn after test t, then the rest. */
  lemma HoldsStep(table: SlotTable, rng: Rng, t: nat, holds: seq<Hold>, h: Hold, next: nat)
    requires |holds| < NextInt(rng, t, 100) + 101
    requires h == DrawnHold(table, rng, t) && next == t + 3 + h.frames
    ensures |holds + [h]| <= 200
    ensures HoldsFrom(table, rng, t, holds) == HoldsFrom(table, rng, next, holds + [h])
  {
  }

  /** The frames of each hold, in order. */
  function Expand(holds: seq<Hold>): (bursts: seq<seq<int>>)
    ensures |bursts| == |holds| && forall i :: 0 <= i < |holds| ==> bursts[i] == Frames(holds[i])
  {
    seq(|holds|, i requires 0 <= i < |holds| => Frames(holds[i]))
  }

  lemma ExpandSnoc(holds: seq<Hold>, h: Hold)
    ensures Expand(holds + [h]) == Expand(holds) + [Frames(h)]
  {
    assert forall i :: 0 <= i < |holds| ==> (holds + [h])[i] == holds[i];
  }

  /** The bursts of a whole burst loop that starts drawing at t0, and the
      cursor after it. */
  function Bursts(table: SlotTable, rng: Rng, t0: nat): (r: (seq<seq<int>>, nat))
    ensures 101 <= |r.0| <= 200
    ensures r.1 > t0
  {
    var r := HoldsFrom(table, rng, t0, []);
    (Expand(r.0), r.1)
  }

  /** Every hold of the list is a hold of a table button. */
  predicate AllHolds(holds: seq<Hold>, table: seq<int>)
  {
    forall i :: 0 <= i < |holds| ==> IsHold(holds[i], table)
  }

  lemma AllHoldsSnoc(holds: seq<Hold>, h: Hold, table: seq<int>)
    requires AllHolds(holds, table) && IsHold(h, table)
    ensures AllHolds(holds + [h], table)
  {
    forall i | 0 <= i < |holds| + 1
      ensures IsHold((holds + [h])[i], table)
    {
      if i < |holds| {
        assert (holds + [h])[i] == holds[i];
      }
    }
  }

  /** The loop ends once the count is not below the bound drawn at its test. */
  lemma HoldsStop(table: SlotTable, rng: Rng, t: nat, holds: seq<Hold>)
    requires |holds| <= 200 && |holds| >= NextInt(rng, t, 100) + 101
    ensures HoldsFrom(table, rng, t, holds) == (holds, t + 1)
  {
  }

  lemma {:induction false} HoldsFromAreHolds(table: SlotTable, rng: Rng, t: nat, holds: seq<Hold>)
    requires |holds| <= 200 && AllHolds(holds, table)
    ensures AllHolds(HoldsFrom(table, rng, t, holds).0, table)
    decreases 200 - |holds|
  {
    if |holds| < NextInt(rng, t, 100) + 101 {
      var h := DrawnHold(table, rng, t);
      var next := t + 3 + h.frames;
      HoldsStep(table, rng, t, holds, h, next);
      AllHoldsSnoc(holds, h, table);
      HoldsFromAreHolds(table, rng, next, holds + [h]);
    } else {
      HoldsStop(table, rng, t, holds);
    }
  }

  /** Every burst the loop appends is a table button held 6 to 10 frames. */
  lemma BurstsAreBursts(table: SlotTable, rng: Rng, t0: nat)
    ensures forall i :: 0 <= i < |Bursts(table, rng, t0).0| ==> IsBurst(Bursts(table, rng, t0).0[i], table)
  {
    var holds := HoldsFrom(table, rng, t0, []).0;
    HoldsFromAreHolds(table, rng, t0, []);
    assert forall i :: 0 <= i < |holds| ==> IsHold(holds[i], table);
    forall i | 0 <= i < |holds|
      ensures IsBurst(Expand(holds)[i], table)
    {
      HoldIsBurst(holds[i], table);
    }
  }

  /** What a burst loop appends is a run of 101 to 200 bursts. */
  lemma BurstsAreBurstRun(table: SlotTable, rng: Rng, t0: nat)
    ensures BurstRun(Flatten(Bursts(table, rng, t0).0), table)
  {
    BurstsAreBursts(table, rng, t0);
    FlattenedRun(Bursts(table, rng, t0).0, table);
  }

  lemma FlattenedRun(bursts: seq<seq<int>>, table: seq<int>)
    requires 101 <= |bursts| <= 200
    requires forall i :: 0 <= i < |bursts| ==> IsBurst(bursts[i], table)
    ensures BurstRun(Flatten(bursts), table)
  {
  }

  /** One pass of the burst loop whose test drew at t0: draw a slot of the
      table and hold its button; t is where the next test draws. */
  method DrawBurst(table: SlotTable, rng: Rng, t0: nat) returns (burst: seq<int>, t: nat)
    ensures burst == Frames(DrawnHold(table, rng, t0))
    ensures t == t0 + 3 + DrawnHold(table, rng, t0).frames
  {
    var slot := NextInt(rng, t0 + 1, 100);
    var button := Space[table[slot]];
    burst, t := HoldButton(button, rng, t0 + 2);
  }

  /** What the burst loop keeps: the holds drawn so far, after which the
      loop from its next test at t ends as the whole loop from t0 does, and
      the commands with their bursts appended. */
  ghost predicate BurstLoop(commands: seq<int>, table: SlotTable, rng: Rng, t0: nat, t: nat,
                            holds: seq<Hold>, bursts: seq<seq<int>>, result: seq<int>)
  {
    |holds| <= 200
    && HoldsFrom(table, rng, t, holds) == HoldsFrom(table, rng, t0, [])
    && bursts == Expand(holds)
    && result == commands + Flatten(bursts)
  }

  /** One more pass keeps the burst loop on course: append the hold drawn
      after test t and its frames. */
  lemma BurstLoopAdvances(commands: seq<int>, table: SlotTable, rng: Rng, t0: nat, t: nat,
                          holds: seq<Hold>, bursts: seq<seq<int>>, result: seq<int>,
                          burst: seq<int>, next: nat)
    requires |holds| < NextInt(rng, t, 100) + 101
    requires BurstLoop(commands, table, rng, t0, t, holds, bursts, result)
    requires burst == Frames(DrawnHold(table, rng, t)) && next == t + 3 + DrawnHold(table, rng, t).frames
    ensures BurstLoop(commands, table, rng, t0, next, holds + [DrawnHold(table, rng, t)], bursts + [burst], result + burst)
  {
    var h := DrawnHold(table, rng, t);
    HoldsStep(table, rng, t, holds, h, next);
    ExpandSnoc(holds, h);
    FlattenSnoc(bursts, burst);
    AppendAssociative(commands, Flatten(bursts), burst);
  }

  /** Once the count reaches the drawn bound the burst loop has drawn every
      burst of the whole loop. */
  lemma BurstLoopEnds(commands: seq<int>, table: SlotTable, rng: Rng, t0: nat, t: nat,
                      holds: seq<Hold>, bursts: seq<seq<int>>, result: seq<int>)
    requires |holds| >= NextInt(rng, t, 100) + 101
    requires BurstLoop(commands, table, rng, t0, t, holds, bursts, result)
    ensures (bursts, t + 1) == Bursts(table, rng, t0)
  {
    HoldsStop(table, rng, t, holds);
  }

  /** The burst loop of addMoreCommands and populateFistGen: while the count
      is below a freshly drawn nextInt(100) + 101, draw a button from the
      table and append one burst of it. */
  method AppendBursts(commands: seq<int>, table: SlotTable, rng: Rng, t0: nat)
    returns (result: seq<int>, bursts: seq<seq<int>>, t: nat)
    ensures (bursts, t) == Bursts(table, rng, t0)
    ensures result == commands + Flatten(bursts)
  {
    result := commands;
    bursts := [];
    t := t0;
    ghost var holds: seq<Hold> := [];
    var j := 0;
    var bound := NextInt(rng, t, 100) + 101;
    while j < bound
      invariant j == |holds| && BurstLoop(commands, table, rng, t0, t, holds, bursts, result)
      invariant bound == NextInt(rng, t, 100) + 101
      decreases 200 - j
    {
      var burst, next := DrawBurst(table, rng, t);
      BurstLoopAdvances(commands, table, rng, t0, t, holds, bursts, result, burst, next);
      holds := holds + [DrawnHold(table, rng, t)];
      result, bursts, t := result + burst, bursts + [burst], next;
      j := j + 1;
      bound := NextInt(rng, t, 100) + 101;
    }
    BurstLoopEnds(commands, table, rng, t0, t, holds, bursts, result);
    t := t + 1;
  }
}
