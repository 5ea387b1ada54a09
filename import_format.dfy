/** The import file format: the stanza dumpGenToFile writes for every chromosome
    (GeneticAlgorithm.java:440-479) and the line parser of readGenFromFile
    (GeneticAlgorithm.java:775-805) that reads the solutions back. */
module ImportFormat {
  import opened Common
  import opened Text

  /** The text of each value, as Integer.toString writes it. */
  function Texts(xs: seq<int>): (t: seq<string>)
    ensures |t| == |xs| && forall i :: 0 <= i < |xs| ==> t[i] == IntToString(xs[i])
  {
    seq(|xs|, i requires 0 <= i < |xs| => IntToString(xs[i]))
  }

  /** The texts separated by ", ". */
  function Join(ts: seq<string>): string
  {
    if |ts| == 0 then ""
    else if |ts| == 1 then ts[0]
    else ts[0] + ", " + Join(ts[1..])
  }

  /** ArrayList<Integer>.toString: "[a, b, c]". */
  function ListToString(xs: seq<int>): string
  {
    "[" + Join(Texts(xs)) + "]"
  }

  /** What one line of an import file contributes. */
  datatype Line = ChromosomeNumber(n: int) | Solution(values: seq<int>) | Other

  /** The values of a comma-separated list, each trimmed and read by
      Integer.parseInt; the first malformed one throws. */
  function ParseAll(parts: seq<string>): (r: Result<seq<int>>)
    ensures r.Ok? ==> |r.value| == |parts|
    ensures r.Ok? ==> forall i :: 0 <= i < |parts| ==> ParseInt(Trim(parts[i])) == Ok(r.value[i])
    ensures r.Err? ==> r.fault == NumberFormat
  {
    if |parts| == 0 then Ok([])
    else
      var first := ParseInt(Trim(parts[0]));
      if first.Err? then Err(first.fault)
      else
        var rest := ParseAll(parts[1..]);
        if rest.Err? then Err(rest.fault)
        else
          assert forall i :: 1 <= i < |parts| ==> parts[i] == parts[1..][i - 1];
          Ok([first.value] + rest.value)
  }

  /** The field after "SOLUTION: ": brackets removed, trimmed, split at ','. */
  function ParseValues(field: string): Result<seq<int>>
  {
    ParseAll(Split(Trim(RemoveAll(RemoveAll(field, '['), ']')), ","))
  }

  /** One line of the loop at GeneticAlgorithm.java:775-805. Splitting at ": "
      can leave no field at all (the line ": "), and a keyword line can lack
      its value; both index past the end of the split. */
  function ParseLine(line: string): (r: Result<Line>)
    ensures r.Ok? && r.value.ChromosomeNumber? ==>
      IsInt32(r.value.n) && |Split(line, ": ")| >= 2 && Split(line, ": ")[0] == "CHROMOSOME"
      && ParseInt(Split(line, ": ")[1]) == Ok(r.value.n)
    ensures r.Ok? && r.value.Solution? ==>
      |Split(line, ": ")| >= 2 && Split(line, ": ")[0] == "SOLUTION"
      && ParseValues(Split(line, ": ")[1]) == Ok(r.value.values)
    ensures r == Ok(Other) <==>
      |Split(line, ": ")| > 0 && Split(line, ": ")[0] != "CHROMOSOME" && Split(line, ": ")[0] != "SOLUTION"
    ensures r == Err(IndexOutOfBounds) <==>
      |Split(line, ": ")| == 0
      || (|Split(line, ": ")| < 2 && (Split(line, ": ")[0] == "CHROMOSOME" || Split(line, ": ")[0] == "SOLUTION"))
    ensures r.Err? ==> r.fault == IndexOutOfBounds || r.fault == NumberFormat
  {
    var fields := Split(line, ": ");
    if |fields| == 0 then Err(IndexOutOfBounds)
    else if fields[0] == "CHROMOSOME" then
      if |fields| < 2 then Err(IndexOutOfBounds)
      else
        match ParseInt(fields[1])
        case Err(f) => Err(f)
        case Ok(n) => Ok(ChromosomeNumber(n))
    else if fields[0] == "SOLUTION" then
      if |fields| < 2 then Err(IndexOutOfBounds)
      else
        match ParseValues(fields[1])
        case Err(f) => Err(f)
        case Ok(vs) => Ok(Solution(vs))
    else Ok(Other)
  }

  /** The parser's state between lines: the last chromosome number read, the
      solutions collected so far, and the exception that stopped it, if any. */
  datatype Reader = Reader(chromosome: int, solutions: seq<seq<int>>, failed: Option<Fault>)

  /** What one parsed line does to the reader: a thrown exception stops it,
      a CHROMOSOME line sets the counter, a SOLUTION line adds a chromosome. */
  function Apply(r: Reader, parsed: Result<Line>): (r': Reader)
    ensures r.failed.Some? ==> r' == r
    ensures r'.failed.None? ==> r.failed.None? && parsed.Ok?
    ensures |r.solutions| <= |r'.solutions| <= |r.solutions| + 1
  {
    if r.failed.Some? then r
    else
      match parsed
      case Err(f) => r.(failed := Some(f))
      case Ok(ChromosomeNumber(n)) => r.(chromosome := n)
      case Ok(Solution(vs)) => r.(solutions := r.solutions + [vs])
      case Ok(Other) => r
  }

  /** The parsed lines applied in file order. */
  function ApplyAll(parsed: seq<Result<Line>>, r: Reader): Reader
  {
    if |parsed| == 0 then r else Apply(ApplyAll(parsed[..|parsed| - 1], r), parsed[|parsed| - 1])
  }

  function ParseLines(lines: seq<string>): (p: seq<Result<Line>>)
    ensures |p| == |lines| && forall i :: 0 <= i < |lines| ==> p[i] == ParseLine(lines[i])
  {
    seq(|lines|, i requires 0 <= i < |lines| => ParseLine(lines[i]))
  }

  /** The loop of readGenFromFile over the lines of a file, from r. */
  function ReadLines(lines: seq<string>, r: Reader): Reader
  {
    ApplyAll(ParseLines(lines), r)
  }

  lemma {:induction false} ApplyAllConcat(a: seq<Result<Line>>, b: seq<Result<Line>>, r: Reader)
    ensures ApplyAll(a + b, r) == ApplyAll(b, ApplyAll(a, r))
    decreases |b|
  {
    if |b| == 0 {
      assert a + b == a;
    } else {
      var ab := a + b;
      assert ab[..|ab| - 1] == a + b[..|b| - 1];
      assert ab[|ab| - 1] == b[|b| - 1];
      ApplyAllConcat(a, b[..|b| - 1], r);
    }
  }

  /** Once a line has thrown, the rest of the file is not read. */
  lemma {:induction false} ApplyAllAfterFailure(parsed: seq<Result<Line>>, r: Reader)
    requires r.failed.Some?
    ensures ApplyAll(parsed, r) == r
    decreases |parsed|
  {
    if |parsed| > 0 {
      ApplyAllAfterFailure(parsed[..|parsed| - 1], r);
    }
  }

  lemma ParseLinesConcat(a: seq<string>, b: seq<string>)
    ensures ParseLines(a + b) == ParseLines(a) + ParseLines(b)
  {
  }
  /** Reading one more line applies that line to the reader. */
  lemma ReadStep(lines: seq<string>, i: nat, r0: Reader)
    requires i < |lines|
    ensures ReadLines(lines[..i + 1], r0) == Apply(ReadLines(lines[..i], r0), ParseLine(lines[i]))
  {
    assert lines[..i + 1] == lines[..i] + [lines[i]];
    ParseLinesConcat(lines[..i], [lines[i]]);
    var parsed := ParseLines(lines[..i + 1]);
    assert parsed[..i] == ParseLines(lines[..i]);
  }

  /** Once a line has thrown, the lines after it change nothing. */
  lemma ReadAfterFailure(lines: seq<string>, i: nat, r0: Reader)
    requires i <= |lines| && ReadLines(lines[..i], r0).failed.Some?
    ensures ReadLines(lines, r0) == ReadLines(lines[..i], r0)
  {
    assert lines[..i] + lines[i..] == lines;
    ParseLinesConcat(lines[..i], lines[i..]);
    ApplyAllConcat(ParseLines(lines[..i]), ParseLines(lines[i..]), r0);
    ApplyAllAfterFailure(ParseLines(lines[i..]), ReadLines(lines[..i], r0));
  }


  // ---------------------------------------------------------------------------
  // the dump side
  // ---------------------------------------------------------------------------

  /** The header: "Generation - n", "World - level" and an empty line. */
  function Header(numGen: int, level: string): seq<string>
  {
    ["Generation - " + IntToString(numGen), "World - " + level, ""]
  }

  /** The four lines written for the i-th chromosome; the fitness is whatever
      Double.toString wrote. */
  function Stanza(i: int, inputs: seq<int>, fitness: string): seq<string>
  {
    ["CHROMOSOME: " + IntToString(i), "SOLUTION: " + ListToString(inputs), "FITNESS VALUE: " + fitness, ""]
  }

  /** The stanzas of the chromosomes numbered from 1, one block of lines each. */
  function StanzaBlocks(solutions: seq<seq<int>>, fitnesses: seq<string>): (b: seq<seq<string>>)
    requires |fitnesses| == |solutions|
    ensures |b| == |solutions|
    ensures forall k :: 0 <= k < |b| ==> b[k] == Stanza(k + 1, solutions[k], fitnesses[k])
  {
    seq(|solutions|, k requires 0 <= k < |solutions| => Stanza(k + 1, solutions[k], fitnesses[k]))
  }

  /** One dump, as one call of dumpGenToFile appends it to the import file. */
  function ImportFile(numGen: int, level: string, solutions: seq<seq<int>>, fitnesses: seq<string>): seq<string>
    requires |fitnesses| == |solutions|
  {
    Header(numGen, level) + Flatten(StanzaBlocks(solutions, fitnesses))
  }

  predicate IsInt32List(xs: seq<int>)
  {
    forall i :: 0 <= i < |xs| ==> IsInt32(xs[i])
  }

  // ---------------------------------------------------------------------------
  // round trips
  // ---------------------------------------------------------------------------

  /** A text that is its own trim and holds none of the characters the
      parser splits at or removes. */
  predicate PlainText(t: string)
  {
    t != "" && !IsBlank(t[0]) && !IsBlank(t[|t| - 1])
    && ',' !in t && ':' !in t && '[' !in t && ']' !in t
  }

  /** The text of an int is plain. */
  lemma IntText(n: int)
    ensures PlainText(IntToString(n))
  {
    var s := IntToString(n);
    assert forall i :: 0 <= i < |s| ==> IsDigit(s[i]) || s[i] == '-';
  }

  lemma {:induction false} JoinPlain(ts: seq<string>)
    requires |ts| > 0 && forall i :: 0 <= i < |ts| ==> PlainText(ts[i])
    ensures |Join(ts)| > 0 && !IsBlank(Join(ts)[0]) && !IsBlank(Join(ts)[|Join(ts)| - 1])
    ensures ':' !in Join(ts) && '[' !in Join(ts) && ']' !in Join(ts)
  {
    if |ts| > 1 {
      JoinPlain(ts[1..]);
      var j := Join(ts[1..]);
      assert Join(ts) == ts[0] + ", " + j;
    }
  }

  /** One more text in front: it becomes the first piece and the old first
      piece gains the blank of ", ". */
  lemma JoinPiecesStep(s: string, rest: string)
    requires ',' !in s
    ensures Pieces(s + ", " + rest, ",") == [s] + ([[' '] + Pieces(rest, ",")[0]] + Pieces(rest, ",")[1..])
  {
    assert s + ", " + rest == s + "," + (" " + rest);
    PiecesAfterHead(s, ",", " " + rest);
    PiecesCons(' ', rest, ",");
  }

  /** The pieces of one more text in front of an already joined list. */
  lemma {:induction false} PiecesOfJoinStep(s: string, texts: seq<string>, rest: string, whole: string, all: seq<string>)
    requires ',' !in s && Trim(s) == s && s != ""
    requires |texts| > 0 && |Pieces(rest, ",")| == |texts|
    requires forall i :: 0 <= i < |texts| ==> Pieces(rest, ",")[i] != "" && Trim(Pieces(rest, ",")[i]) == texts[i]
    requires whole == s + ", " + rest && all == [s] + texts
    ensures |Pieces(whole, ",")| == |all|
    ensures forall i :: 0 <= i < |all| ==> Pieces(whole, ",")[i] != "" && Trim(Pieces(whole, ",")[i]) == all[i]
  {
    JoinPiecesStep(s, rest);
    var p := Pieces(rest, ",");
    ConsElements(s, [' '] + p[0], p, Pieces(whole, ","));
    TrimmedPiecesCons(s, texts, p, Pieces(whole, ","), all);
  }

  /** The piece list of PiecesOfJoinStep, element by element. */
  lemma {:induction false} TrimmedPiecesCons(s: string, texts: seq<string>, p: seq<string>, q: seq<string>, all: seq<string>)
    requires Trim(s) == s && s != ""
    requires |texts| > 0 && |p| == |texts|
    requires forall i :: 0 <= i < |texts| ==> p[i] != "" && Trim(p[i]) == texts[i]
    requires |q| == |p| + 1 && q[0] == s && q[1] == [' '] + p[0]
    requires forall i :: 2 <= i < |q| ==> q[i] == p[i - 1]
    requires all == [s] + texts
    ensures |q| == |all|
    ensures forall i :: 0 <= i < |all| ==> q[i] != "" && Trim(q[i]) == all[i]
  {
    TrimSkipsLeadingBlank(' ', p[0]);
    forall i | 0 <= i < |all|
      ensures q[i] != "" && Trim(q[i]) == all[i]
    {
      if i == 0 {
        assert all[0] == s;
      } else if i == 1 {
        assert all[1] == texts[0];
      } else {
        assert q[i] == p[i - 1] && all[i] == texts[i - 1];
      }
    }
  }

  /** The elements of a list with a new head and a replaced second element. */
  lemma ConsElements<T>(s: T, x: T, p: seq<T>, q: seq<T>)
    requires |p| > 0 && q == [s] + ([x] + p[1..])
    ensures |q| == |p| + 1 && q[0] == s && q[1] == x
    ensures forall i :: 2 <= i < |q| ==> q[i] == p[i - 1]
  {
  }

  /** The comma pieces of joined plain texts trim back to the texts. */
  lemma {:induction false} PiecesOfJoin(ts: seq<string>)
    requires |ts| > 0 && forall i :: 0 <= i < |ts| ==> PlainText(ts[i])
    ensures |Pieces(Join(ts), ",")| == |ts|
    ensures forall i :: 0 <= i < |ts| ==> Pieces(Join(ts), ",")[i] != "" && Trim(Pieces(Join(ts), ",")[i]) == ts[i]
  {
    TrimUnchanged(ts[0]);
    if |ts| == 1 {
      PiecesWithoutSeparator(ts[0], ",");
      assert Join(ts) == ts[0];
    } else {
      var tail := ts[1..];
      assert forall i :: 0 <= i < |tail| ==> PlainText(tail[i]);
      PiecesOfJoin(tail);
      assert [ts[0]] + tail == ts;
      PiecesOfJoinStep(ts[0], tail, Join(tail), Join(ts), ts);
    }
  }

  lemma {:induction false} ParseAllOfValues(parts: seq<string>, xs: seq<int>)
    requires |parts| == |xs|
    requires forall i :: 0 <= i < |xs| ==> ParseInt(Trim(parts[i])) == Ok(xs[i])
    ensures ParseAll(parts) == Ok(xs)
  {
    if |xs| > 0 {
      ParseAllOfValues(parts[1..], xs[1..]);
      assert [xs[0]] + xs[1..] == xs;
    }
  }

  /** Removing the brackets around a text that has none leaves the text. */
  lemma StripBrackets(j: string)
    requires '[' !in j && ']' !in j
    ensures RemoveAll(RemoveAll("[" + j + "]", '['), ']') == j
  {
    var open, close := "[", "]";
    RemoveAllConcat(open + j, close, '[');
    RemoveAllConcat(open, j, '[');
    RemoveAllAbsent(j, '[');
    RemoveAllAbsent(close, '[');
    assert RemoveAll(open, '[') == "" by {
      assert open[..0] == "";
    }
    var once := RemoveAll(open + j + close, '[');
    assert once == RemoveAll(open + j, '[') + close;
    assert RemoveAll(open + j, '[') == "" + j;
    assert "" + j == j;
    RemoveAllConcat(j, close, ']');
    RemoveAllAbsent(j, ']');
    assert RemoveAll(close, ']') == "" by {
      assert close[..0] == "";
    }
  }

  /** The values' texts are plain, and so is their join. */
  lemma TextsPlain(xs: seq<int>)
    requires |xs| > 0
    ensures forall i :: 0 <= i < |xs| ==> PlainText(Texts(xs)[i])
    ensures |Join(Texts(xs))| > 0 && !IsBlank(Join(Texts(xs))[0]) && !IsBlank(Join(Texts(xs))[|Join(Texts(xs))| - 1])
    ensures ':' !in Join(Texts(xs)) && '[' !in Join(Texts(xs)) && ']' !in Join(Texts(xs))
  {
    var ts := Texts(xs);
    forall i | 0 <= i < |xs|
      ensures PlainText(ts[i])
    {
      IntText(xs[i]);
    }
    JoinPlain(ts);
  }

  /** Pieces that trim to the values' texts parse back to the values. */
  lemma ParseAllOfTexts(p: seq<string>, xs: seq<int>)
    requires IsInt32List(xs) && |p| == |xs|
    requires forall i :: 0 <= i < |xs| ==> Trim(p[i]) == Texts(xs)[i]
    ensures ParseAll(p) == Ok(xs)
  {
    forall i | 0 <= i < |xs|
      ensures ParseInt(Trim(p[i])) == Ok(xs[i])
    {
      IntRoundTrip(xs[i]);
    }
    ParseAllOfValues(p, xs);
  }

  /** Splitting the joined texts at ',' gives their comma pieces. */
  lemma SplitOfJoin(ts: seq<string>)
    requires |ts| > 0 && forall i :: 0 <= i < |ts| ==> PlainText(ts[i])
    ensures Split(Join(ts), ",") == Pieces(Join(ts), ",")
    ensures |Pieces(Join(ts), ",")| == |ts|
    ensures forall i :: 0 <= i < |ts| ==> Trim(Pieces(Join(ts), ",")[i]) == ts[i]
  {
    PiecesOfJoin(ts);
    var p := Pieces(Join(ts), ",");
    assert p[|p| - 1] != "";
  }

  /** A non-empty list of ints survives toString and the SOLUTION field parser. */
  lemma ValuesRoundTrip(xs: seq<int>)
    requires |xs| > 0 && IsInt32List(xs)
    ensures ParseValues(ListToString(xs)) == Ok(xs)
  {
    var ts := Texts(xs);
    var j := Join(ts);
    TextsPlain(xs);
    StripBrackets(j);
    TrimUnchanged(j);
    SplitOfJoin(ts);
    ParseAllOfTexts(Pieces(j, ","), xs);
  }

  /** The SOLUTION line of a stanza reads back as its list. */
  lemma SolutionLineRoundTrip(xs: seq<int>)
    requires |xs| > 0 && IsInt32List(xs)
    ensures ParseLine("SOLUTION: " + ListToString(xs)) == Ok(Solution(xs))
  {
    var field := ListToString(xs);
    TextsPlain(xs);
    assert ':' !in field;
    assert "SOLUTION: " + field == "SOLUTION" + ": " + field;
    SplitTwoFields("SOLUTION", ": ", field);
    ValuesRoundTrip(xs);
  }

  /** The CHROMOSOME line of a stanza reads back as its number. */
  lemma ChromosomeLineRoundTrip(i: int)
    requires IsInt32(i)
    ensures ParseLine("CHROMOSOME: " + IntToString(i)) == Ok(ChromosomeNumber(i))
  {
    var field := IntToString(i);
    assert "CHROMOSOME: " + field == "CHROMOSOME" + ": " + field;
    IntText(i);
    SplitTwoFields("CHROMOSOME", ": ", field);
    IntRoundTrip(i);
  }

  /** The FITNESS VALUE line, whatever the number's text, adds nothing. */
  lemma FitnessLineIgnored(fitness: string)
    ensures ParseLine("FITNESS VALUE: " + fitness) == Ok(Other)
  {
    assert "FITNESS VALUE: " + fitness == "FITNESS VALUE" + ": " + fitness;
    SplitAfterHead("FITNESS VALUE", ": ", fitness);
  }

  /** A line without ':' is one field; unless it is a bare keyword it adds nothing. */
  lemma PlainLineIgnored(line: string)
    requires ':' !in line && line != "CHROMOSOME" && line != "SOLUTION"
    ensures ParseLine(line) == Ok(Other)
  {
    PiecesWithoutSeparator(line, ": ");
  }

  lemma ParseLinesFour(a: string, b: string, c: string, d: string)
    ensures ParseLines([a, b, c, d]) == [ParseLine(a), ParseLine(b), ParseLine(c), ParseLine(d)]
  {
  }

  /** What the parser makes of the stanza of chromosome i. */
  function StanzaParsed(i: int, xs: seq<int>): seq<Result<Line>>
  {
    [Ok(ChromosomeNumber(i)), Ok(Solution(xs)), Ok(Other), Ok(Other)]
  }

  lemma StanzaParses(i: int, xs: seq<int>, fitness: string)
    requires IsInt32(i) && |xs| > 0 && IsInt32List(xs)
    ensures ParseLines(Stanza(i, xs, fitness)) == StanzaParsed(i, xs)
  {
    var st := Stanza(i, xs, fitness);
    ParseLinesFour(st[0], st[1], st[2], st[3]);
    assert st == [st[0], st[1], st[2], st[3]];
    ChromosomeLineRoundTrip(i);
    SolutionLineRoundTrip(xs);
    FitnessLineIgnored(fitness);
    PlainLineIgnored("");
  }

  /** Lines that parse as Other leave the reader as it was. */
  lemma {:induction false} OthersApplied(parsed: seq<Result<Line>>, r: Reader)
    requires forall i :: 0 <= i < |parsed| ==> parsed[i] == Ok(Other)
    ensures ApplyAll(parsed, r) == r
  {
    if |parsed| > 0 {
      OthersApplied(parsed[..|parsed| - 1], r);
    }
  }

  /** The three header lines leave the reader as it was. */
  lemma HeaderApplied(r: Reader)
    ensures ApplyAll([Ok(Other), Ok(Other), Ok(Other)], r) == r
  {
    var h: seq<Result<Line>> := [Ok(Other), Ok(Other), Ok(Other)];
    assert h[..2] == [Ok(Other), Ok(Other)];
    assert h[..2][..1] == [Ok(Other)];
    assert h[..2][..1][..0] == [];
    assert ApplyAll(h[..2][..1], r) == r;
  }

  /** The stanza of chromosome i records i and appends the solution. */
  lemma StanzaApplied(r: Reader, i: int, xs: seq<int>)
    requires r.failed.None?
    ensures ApplyAll(StanzaParsed(i, xs), r) == Reader(i, r.solutions + [xs], None)
  {
    var head: seq<Result<Line>> := [Ok(ChromosomeNumber(i)), Ok(Solution(xs))];
    var tail: seq<Result<Line>> := [Ok(Other), Ok(Other)];
    assert StanzaParsed(i, xs) == head + tail;
    ApplyAllConcat(head, tail, r);
    assert head[..1] == [head[0]] && head[..1][..0] == [];
    assert ApplyAll(head[..1], r) == r.(chromosome := i);
    assert ApplyAll(head, r) == Reader(i, r.solutions + [xs], None);
    OthersApplied(tail, ApplyAll(head, r));
  }

  /** Parsing blocks of lines one after the other. */
  lemma {:induction false} ParseLinesFlatten(blocks: seq<seq<string>>, parsed: seq<seq<Result<Line>>>)
    requires |blocks| == |parsed| && forall k :: 0 <= k < |blocks| ==> ParseLines(blocks[k]) == parsed[k]
    ensures ParseLines(Flatten(blocks)) == Flatten(parsed)
    decreases |blocks|
  {
    if |blocks| > 0 {
      var n := |blocks|;
      ParseLinesFlatten(blocks[..n - 1], parsed[..n - 1]);
      ParseLinesConcat(Flatten(blocks[..n - 1]), blocks[n - 1]);
    }
  }

  /** Stanzas applied one after the other collect their solutions in order
      and leave the counter at the last number. */
  lemma {:induction false} StanzasApplied(parsed: seq<seq<Result<Line>>>, solutions: seq<seq<int>>, r: Reader)
    requires r.failed.None? && |parsed| == |solutions|
    requires forall k :: 0 <= k < |parsed| ==> parsed[k] == StanzaParsed(k + 1, solutions[k])
    ensures ApplyAll(Flatten(parsed), r)
         == Reader(if |solutions| == 0 then r.chromosome else |solutions|, r.solutions + solutions, None)
    decreases |parsed|
  {
    if |parsed| > 0 {
      var n := |parsed|;
      StanzasApplied(parsed[..n - 1], solutions[..n - 1], r);
      ApplyAllConcat(Flatten(parsed[..n - 1]), parsed[n - 1], r);
      var r1 := ApplyAll(Flatten(parsed[..n - 1]), r);
      StanzaApplied(r1, n, solutions[n - 1]);
      assert solutions[..n - 1] + [solutions[n - 1]] == solutions;
    }
  }

  /** Text without ':' stays so behind a prefix without ':'. */
  lemma NoColonConcat(a: string, b: string)
    requires ':' !in a && ':' !in b
    ensures ':' !in a + b
  {
  }

  /** The "Generation - n" line adds nothing. */
  lemma GenerationLineIgnored(numGen: int)
    ensures ParseLine("Generation - " + IntToString(numGen)) == Ok(Other)
  {
    var g := "Generation - " + IntToString(numGen);
    IntText(numGen);
    NoColonConcat("Generation - ", IntToString(numGen));
    assert g[0] == 'G';
    PlainLineIgnored(g);
  }

  /** The "World - level" line adds nothing when the level name has no ':'. */
  lemma WorldLineIgnored(level: string)
    requires ':' !in level
    ensures ParseLine("World - " + level) == Ok(Other)
  {
    var w := "World - " + level;
    NoColonConcat("World - ", level);
    assert w[0] == 'W';
    PlainLineIgnored(w);
  }

  /** The header lines add nothing. */
  lemma HeaderParses(numGen: int, level: string)
    requires ':' !in level
    ensures ParseLines(Header(numGen, level)) == [Ok(Other), Ok(Other), Ok(Other)]
  {
    GenerationLineIgnored(numGen);
    WorldLineIgnored(level);
    PlainLineIgnored("");
  }

  /** What the parser makes of the stanzas, one block per chromosome. */
  function StanzasParsed(solutions: seq<seq<int>>): (p: seq<seq<Result<Line>>>)
    ensures |p| == |solutions|
    ensures forall k :: 0 <= k < |p| ==> p[k] == StanzaParsed(k + 1, solutions[k])
  {
    seq(|solutions|, k requires 0 <= k < |solutions| => StanzaParsed(k + 1, solutions[k]))
  }

  lemma StanzaBlocksParse(solutions: seq<seq<int>>, fitnesses: seq<string>)
    requires |fitnesses| == |solutions| && |solutions| <= MaxInt
    requires forall k :: 0 <= k < |solutions| ==> |solutions[k]| > 0 && IsInt32List(solutions[k])
    ensures ParseLines(Flatten(StanzaBlocks(solutions, fitnesses))) == Flatten(StanzasParsed(solutions))
  {
    var blocks := StanzaBlocks(solutions, fitnesses);
    var parsed := StanzasParsed(solutions);
    forall k | 0 <= k < |blocks|
      ensures ParseLines(blocks[k]) == parsed[k]
    {
      StanzaParses(k + 1, solutions[k], fitnesses[k]);
    }
    ParseLinesFlatten(blocks, parsed);
  }

  /** The parser's view of an import file: three lines that add nothing,
      then one stanza per chromosome. */
  lemma ImportFileParses(numGen: int, level: string, solutions: seq<seq<int>>, fitnesses: seq<string>)
    requires ':' !in level && |fitnesses| == |solutions| && |solutions| <= MaxInt
    requires forall k :: 0 <= k < |solutions| ==> |solutions[k]| > 0 && IsInt32List(solutions[k])
    ensures ParseLines(ImportFile(numGen, level, solutions, fitnesses))
         == [Ok(Other), Ok(Other), Ok(Other)] + Flatten(StanzasParsed(solutions))
  {
    StanzaBlocksParse(solutions, fitnesses);
    HeaderParses(numGen, level);
    ParseLinesConcat(Header(numGen, level), Flatten(StanzaBlocks(solutions, fitnesses)));
  }

  /** Reading back one dump of dumpGenToFile appends every non-empty
      solution to those read so far, in file order, and leaves the
      chromosome counter at the last number written. */
  lemma ImportRoundTrip(numGen: int, level: string, solutions: seq<seq<int>>, fitnesses: seq<string>, r: Reader)
    requires ':' !in level && |fitnesses| == |solutions| && |solutions| <= MaxInt
    requires forall k :: 0 <= k < |solutions| ==> |solutions[k]| > 0 && IsInt32List(solutions[k])
    requires r.failed.None?
    ensures ReadLines(ImportFile(numGen, level, solutions, fitnesses), r)
         == Reader(if |solutions| == 0 then r.chromosome else |solutions|, r.solutions + solutions, None)
  {
    ImportFileParses(numGen, level, solutions, fitnesses);
    var h: seq<Result<Line>> := [Ok(Other), Ok(Other), Ok(Other)];
    var parsed := StanzasParsed(solutions);
    ApplyAllConcat(h, Flatten(parsed), r);
    HeaderApplied(r);
    StanzasApplied(parsed, solutions, r);
  }

  /** One call of dumpGenToFile: the generation number, the stage name, and
      the inputs and fitness text of every member. */
  datatype Dump = Dump(numGen: int, level: string, solutions: seq<seq<int>>, fitnesses: seq<string>)

  /** Dumps whose every line reads back: stage names without ':' and
      non-empty int lists, one fitness text per member. */
  predicate ReadableDumps(ds: seq<Dump>)
  {
    forall i :: 0 <= i < |ds| ==>
      ':' !in ds[i].level && |ds[i].fitnesses| == |ds[i].solutions| && |ds[i].solutions| <= MaxInt
      && forall k :: 0 <= k < |ds[i].solutions| ==> |ds[i].solutions[k]| > 0 && IsInt32List(ds[i].solutions[k])
  }

  /** The import file after several generations: the file is opened for
      appending, so each call of dumpGenToFile adds its dump after the
      earlier ones. */
  function AppendedDumps(ds: seq<Dump>): seq<string>
    requires forall i :: 0 <= i < |ds| ==> |ds[i].fitnesses| == |ds[i].solutions|
  {
    if |ds| == 0 then []
    else
      var d := ds[|ds| - 1];
      AppendedDumps(ds[..|ds| - 1]) + ImportFile(d.numGen, d.level, d.solutions, d.fitnesses)
  }

  /** The members of every dump, in file order. */
  function AllSolutions(ds: seq<Dump>): seq<seq<int>>
  {
    if |ds| == 0 then [] else AllSolutions(ds[..|ds| - 1]) + ds[|ds| - 1].solutions
  }

  /** The last chromosome number written, or c when no dump has a member. */
  function LastNumber(ds: seq<Dump>, c: int): int
  {
    if |ds| == 0 then c
    else if |ds[|ds| - 1].solutions| == 0 then LastNumber(ds[..|ds| - 1], c)
    else |ds[|ds| - 1].solutions|
  }

  /** Reading a file that is one text after another reads the second from
      where the first left the reader. */
  lemma ReadLinesConcat(a: seq<string>, b: seq<string>, r: Reader)
    ensures ReadLines(a + b, r) == ReadLines(b, ReadLines(a, r))
  {
    ParseLinesConcat(a, b);
    ApplyAllConcat(ParseLines(a), ParseLines(b), r);
  }

  /** One more dump appended to a file that reads without failure adds its
      members after those read so far. */
  lemma AppendOneDump(before: seq<string>, d: Dump, r: Reader, c: int, older: seq<seq<int>>)
    requires ':' !in d.level && |d.fitnesses| == |d.solutions| && |d.solutions| <= MaxInt
    requires forall k :: 0 <= k < |d.solutions| ==> |d.solutions[k]| > 0 && IsInt32List(d.solutions[k])
    requires ReadLines(before, r) == Reader(c, r.solutions + older, None)
    ensures ReadLines(before + ImportFile(d.numGen, d.level, d.solutions, d.fitnesses), r)
         == Reader(if |d.solutions| == 0 then c else |d.solutions|, r.solutions + (older + d.solutions), None)
  {
    var file, mid := ImportFile(d.numGen, d.level, d.solutions, d.fitnesses), ReadLines(before, r);
    ReadLinesConcat(before, file, r);
    ImportRoundTrip(d.numGen, d.level, d.solutions, d.fitnesses, mid);
    AppendAssociative(r.solutions, older, d.solutions);
  }

  /** Reading back a file of appended dumps collects the members of every
      dump into one generation, in file order, and leaves the counter at the
      member count of the last dump that has members. */
  lemma {:induction false} AppendedDumpsRoundTrip(ds: seq<Dump>, r: Reader)
    requires ReadableDumps(ds) && r.failed.None?
    ensures ReadLines(AppendedDumps(ds), r) == Reader(LastNumber(ds, r.chromosome), r.solutions + AllSolutions(ds), None)
    decreases |ds|
  {
    if |ds| > 0 {
      var n := |ds|;
      var d := ds[n - 1];
      var prefix := ds[..n - 1];
      assert ReadableDumps(prefix) by {
        forall i | 0 <= i < n - 1 ensures prefix[i] == ds[i] { }
      }
      AppendedDumpsRoundTrip(prefix, r);
      AppendOneDump(AppendedDumps(prefix), d, r, LastNumber(prefix, r.chromosome), AllSolutions(prefix));
    }
  }

  /** The field "[]" holds no value: Integer.parseInt("") throws. */
  lemma EmptyFieldRejected()
    ensures ParseValues("[]") == Err(NumberFormat)
  {
    var once := RemoveAll("[]", '[');
    assert "[]"[..1] == "[" && "["[..0] == "";
    assert once == "]";
    var twice := RemoveAll(once, ']');
    assert "]"[..0] == "";
    assert twice == "";
    assert Trim(twice) == "";
    var parts := Split("", ",");
    assert parts == [""];
    assert ParseInt(Trim(parts[0])).Err?;
  }

  /** An empty list dumps as "SOLUTION: []", which does not read back. */
  lemma EmptySolutionRejected()
    ensures ParseLine("SOLUTION: " + ListToString([])) == Err(NumberFormat)
  {
    var field := ListToString([]);
    assert field == "[]";
    assert "SOLUTION: " + field == "SOLUTION" + ": " + field;
    SplitTwoFields("SOLUTION", ": ", field);
    EmptyFieldRejected();
  }

  /** The line ": " splits into no fields at all, and indexing the first throws. */
  lemma SeparatorOnlyLineThrows()
    ensures ParseLine(": ") == Err(IndexOutOfBounds)
  {
    assert Pieces(": ", ": ") == ["", ""];
  }
}
