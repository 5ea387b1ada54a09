/** Shared vocabulary of the model: optional values, the JVM failures the
    engine can run into, exact-real doubles with IEEE special values, the
    random oracle that stands for java.util.Random and Math.random, and a few
    sequence helpers. */
module Common {

  datatype Option<+T> = None | Some(value: T)

  /** The exceptions (and the System.exit) that end a computation of the engine. */
  datatype Fault =
    | IndexOutOfBounds    // List.get, subList or an array index out of range
    | NullPointer         // a method called on a null reference
    | ClassCast           // a failing downcast
    | NumberFormat        // Integer.parseInt on a malformed string
    | IllegalArgument     // subList with a negative end, or Random.nextInt with a non-positive bound
    | Exit                // System.exit(0) after a caught exception
    | Diverged            // a retry loop that did not finish within the model's fuel

  datatype Result<+T> = Ok(value: T) | Err(fault: Fault)

  // ---------------------------------------------------------------------------
  // Doubles: exact reals plus NaN and the two infinities (no rounding).
  // ---------------------------------------------------------------------------

  datatype Double = Real(r: real) | NaN | Inf(positive: bool)

  function Add(a: Double, b: Double): Double
  {
    match (a, b)
    case (Real(x), Real(y)) => Real(x + y)
    case (NaN, _) => NaN
    case (_, NaN) => NaN
    case (Inf(p), Inf(q)) => if p == q then Inf(p) else NaN
    case (Inf(p), Real(_)) => Inf(p)
    case (Real(_), Inf(q)) => Inf(q)
  }

  function Neg(a: Double): Double
  {
    match a
    case Real(x) => Real(-x)
    case NaN => NaN
    case Inf(p) => Inf(!p)
  }

  function Sub(a: Double, b: Double): Double
  {
    Add(a, Neg(b))
  }

  /** a / d where d is an exact (integer-valued or real) divisor. */
  function Div(a: Double, d: real): Double
  {
    match a
    case NaN => NaN
    case Inf(p) => if d >= 0.0 then Inf(p) else Inf(!p)
    case Real(x) =>
      if d != 0.0 then Real(x / d)
      else if x == 0.0 then NaN
      else Inf(x > 0.0)
  }

  /** a / b for two doubles (the sign of a zero divisor is not modelled). */
  function DivD(a: Double, b: Double): Double
  {
    match b
    case Real(y) => Div(a, y)
    case NaN => NaN
    case Inf(_) => if a.Real? then Real(0.0) else NaN
  }

  /** The IEEE `a < b` comparison: false whenever either side is NaN. */
  predicate Less(a: Double, b: Double)
  {
    match (a, b)
    case (NaN, _) => false
    case (_, NaN) => false
    case (Inf(p), Inf(q)) => !p && q
    case (Inf(p), Real(_)) => !p
    case (Real(_), Inf(q)) => q
    case (Real(x), Real(y)) => x < y
  }

  /** The IEEE `a >= x` comparison against a finite value. */
  predicate AtLeast(a: Double, x: real)
  {
    match a
    case NaN => false
    case Inf(p) => p
    case Real(y) => y >= x
  }

  const MinInt: int := -0x8000_0000
  const MaxInt: int := 0x7fff_ffff

  predicate IsInt32(n: int)
  {
    MinInt <= n <= MaxInt
  }

  /** Truncation toward zero, as a Java cast from double to a wider integer. */
  function Truncate(x: real): (n: int)
    ensures x >= 0.0 ==> n as real <= x < n as real + 1.0
    ensures x < 0.0 ==> n as real - 1.0 < x <= n as real
  {
    if x >= 0.0 then x.Floor else -((-x).Floor)
  }

  /** Java's `(int) d`: NaN becomes 0, out-of-range values saturate. */
  function ToInt32(a: Double): int
  {
    match a
    case NaN => 0
    case Inf(p) => if p then MaxInt else MinInt
    case Real(x) =>
      var n := Truncate(x);
      if n < MinInt then MinInt else if n > MaxInt then MaxInt else n
  }

  // ---------------------------------------------------------------------------
  // The random oracle.
  // ---------------------------------------------------------------------------

  /** The t-th draw of the program's random sources: `ints(t)` feeds
      `new Random().nextInt(bound)` and `reals(t)` feeds `Math.random()`.
      Every draw, of either kind, consumes one index. */
  datatype Rng = Rng(ints: nat -> nat, reals: nat -> real)

  /** `nextInt(bound)` at draw t: some value in [0, bound). */
  function NextInt(rng: Rng, t: nat, bound: nat): (v: nat)
    requires bound > 0
    ensures v < bound
  {
    rng.ints(t) % bound
  }

  // ---------------------------------------------------------------------------
  // Sequences.
  // ---------------------------------------------------------------------------

  function Repeat<T>(v: T, n: nat): (s: seq<T>)
    ensures |s| == n
    ensures forall k :: 0 <= k < n ==> s[k] == v
  {
    if n == 0 then [] else Repeat(v, n - 1) + [v]
  }

  /** Concatenation of a list of lists, in order. */
  function Flatten<T>(blocks: seq<seq<T>>): seq<T>
  {
    if |blocks| == 0 then [] else Flatten(blocks[..|blocks| - 1]) + blocks[|blocks| - 1]
  }

  lemma {:induction false} FlattenAppend<T>(a: seq<seq<T>>, b: seq<seq<T>>)
    ensures Flatten(a + b) == Flatten(a) + Flatten(b)
    decreases |b|
  {
    if |b| == 0 {
      assert a + b == a;
    } else {
      var b' := b[..|b| - 1];
      assert (a + b)[..|a + b| - 1] == a + b';
      FlattenAppend(a, b');
    }
  }

  /** Two sequences that differ at most at position n. */
  lemma UpdatedOnlyAt<T>(a: seq<T>, b: seq<T>, n: nat, x: T)
    requires |a| == |b| && n < |a| && b[n] == x
    requires forall j :: 0 <= j < |a| && j != n ==> b[j] == a[j]
    ensures b == a[n := x]
  {
  }

  /** Appending leaves the part from k on extended by the new element. */
  lemma AppendedTail<T>(s: seq<T>, x: T, k: nat)
    requires k <= |s|
    ensures (s + [x])[k..] == s[k..] + [x]
  {
  }

  /** Appending is associative. */
  lemma AppendAssociative<T>(a: seq<T>, b: seq<T>, c: seq<T>)
    ensures a + b + c == a + (b + c)
  {
    forall i | 0 <= i < |a| + |b| + |c|
      ensures (a + b + c)[i] == (a + (b + c))[i]
    {
    }
  }

  /** Changing an element before k leaves the part from k on alone. */
  lemma UpdatedBefore<T>(s: seq<T>, i: nat, x: T, k: nat)
    requires i < k <= |s|
    ensures s[i := x][k..] == s[k..]
  {
  }

  /** A sequence around one of its elements. */
  lemma AroundElement<T>(s: seq<T>, k: nat)
    requires k < |s|
    ensures s == s[..k] + [s[k]] + s[k + 1..]
  {
  }

  lemma FlattenSnoc<T>(blocks: seq<seq<T>>, b: seq<T>)
    ensures Flatten(blocks + [b]) == Flatten(blocks) + b
  {
    assert (blocks + [b])[..|blocks|] == blocks;
  }

  lemma FlattenSingle<T>(b: seq<T>)
    ensures Flatten([b]) == b
  {
    assert [b][..0] == [];
  }

  /** Flattening the blocks one at a time from the left. */
  lemma FlattenCons<T>(b: seq<T>, rest: seq<seq<T>>)
    ensures Flatten([b] + rest) == b + Flatten(rest)
  {
    FlattenAppend([b], rest);
    FlattenSingle(b);
  }

  function Sum(xs: seq<int>): int
  {
    if |xs| == 0 then 0 else Sum(xs[..|xs| - 1]) + xs[|xs| - 1]
  }
}
