# Genetic-algorithm engine for a platform-game agent, in Dafny

This project models the evolutionary engine of a system that evolves sequences of
game-controller inputs ("chromosomes"). The sequences are played by an external agent on a
Super Mario Bros. stage. It models the three classes of the engine:

- `Chromosome`: a list of input codes shared by reference, a fitness value and an optional
  run outcome. Its `compareTo` casts a fitness difference to `int`.
- `Generation`: a fixed-capacity list of chromosomes with its averages.
- `GeneticAlgorithm`: the configuration it reads from properties, and the first generation
  (a baseline sequence followed by random bursts of buttons). It also models the parts that
  operate on blocks:
  - splitting an input list into runs of one button, with long runs cut once;
  - ONE_POINT and UNIFORM crossover;
  - mutation of one block;
  - `addMoreCommands`.

  Further parts of `GeneticAlgorithm` are modelled too:
  - the post-processing of `calculateFitness`: cut, extend or throw by outcome, the NaN
    clamp, and tracking of the best chromosome;
  - `breedNewGen` with elitism and a roulette wheel;
  - the `readGenFromFile` parser of the generation-dump format.

Randomness is an explicit oracle `Rng` (`ints` for `Random.nextInt`, `reals` for
`Math.random`) read at a cursor `t` that every draw advances. Java doubles are the datatype
`Double` (a real, NaN or an infinity) with exact arithmetic. A thrown exception is a `Fault`
in a `Result`, and `System.exit` is the fault `Exit`.

| Dafny file | models |
|---|---|
| `common.dfy` | doubles, `int` casts, the random oracle, faults, `Repeat`/`Flatten` |
| `chromosome.dfy` | `Chromosome.java` (and the shared `ArrayList<Integer>` as `IntList`) |
| `generation.dfy` | `Generation.java` and `levelTimeMapping` |
| `blocks.dfy` | `separateArrayByBlocks`, `blockedArrayToArrayList`, `separateLists` |
| `buttons.dfy` | the 100-slot button table and the burst loops |
| `config.dfy` | the constructor's validation of every property |
| `text.dfy` | `Integer.parseInt`/`toString`, `trim`, `replace`, `split` |
| `import_format.dfy` | the line parser of `readGenFromFile` and the dump format it reads |
| `selection.dfy` | the roulette keys, the draw against them and elitism's sort |
| `operators.dfy` | ONE_POINT, UNIFORM and the mutation of one block |
| `fitness.dfy` | the member loop of `calculateFitness` and `bestFit` |
| `engine.dfy` | the `GeneticAlgorithm` object and its state-changing methods |

The model follows the code as written, including these behaviours a reader may not expect:

- A run of more than 10 equal inputs is cut only once, so blocks longer than 10 remain.
- Elitism's sort is reversed, so chromosomes of equal fitness come out latest-first. Fitness
  values less than 1 apart count as equal.
- A ONE_POINT child is its parent with one block removed, not a mix of both parents.
- A "win" outcome makes `calculateFitness` throw `ClassCastException`.
- Elitism cannot be switched off.
- A malformed import file propagates its `NumberFormatException`.

## Model

| member | source | states |
|---|---|---|
| Chromosomes.Compare | src/main/java/classes/Chromosome.java:103-106 | compareTo's sign agrees with the order of the fitness values; finite values compare 0 exactly when they differ by less than 1; NaN compares 0 with anything |
| Chromosomes.CloseFitnessesCompareEqual | src/main/java/classes/Chromosome.java:103-106 | fitness values less than 1 apart compare equal both ways |
| Chromosomes.CompareAntisymmetric | src/main/java/classes/Chromosome.java:103-106 | swapping the operands flips the sign of compareTo, and 0 stays 0 |
| Chromosomes.DistantFitnessesCompareInOrder | src/main/java/classes/Chromosome.java:103-106 | values at least 1 apart compare in the order of the values |
| Chromosomes.Chromosome.constructor | src/main/java/classes/Chromosome.java:20-23 | a new chromosome has a fresh empty list, fitness 0 and no outcome |
| Chromosomes.Chromosome.SetInputs | src/main/java/classes/Chromosome.java:37-39 | only the list reference changes |
| Chromosomes.Chromosome.SetFitnessValue | src/main/java/classes/Chromosome.java:45-47 | only the fitness changes |
| Chromosomes.Chromosome.AssertResult | src/main/java/classes/Chromosome.java:70-73 | records the outcome and returns the same object, nothing else changes |
| Chromosomes.Chromosome.Clone | src/main/java/classes/Chromosome.java:79-86 | a fresh object sharing the inputs list, fitness and outcome (shallow copy) |
| Chromosomes.IsCloneReflexive | src/main/java/classes/Chromosome.java:94-96 | every chromosome is a genotype clone of itself |
| Chromosomes.IsCloneSymmetric | src/main/java/classes/Chromosome.java:94-96 | genotype equality is symmetric |
| Chromosomes.Chromosome.IsClone | src/main/java/classes/Chromosome.java:94-96 | true exactly when both input lists have the same length and the same value at every position |
| Chromosomes.Chromosome.CompareTo | src/main/java/classes/Chromosome.java:103-106 | positive exactly when Compare(other, this) < 0, which implies the other's fitness is smaller; zero exactly when the two compare equal, as fitnesses less than 1 apart do after truncation |
| Chromosomes.CloneSharesInputs | src/main/java/classes/Chromosome.java:79-96 | a change to the original's list shows in the clone, which stays a genotype clone |
| Generations.LevelBudget | src/main/java/classes/GeneticAlgorithm.java:23-30 | the time budget exists exactly for worlds 1-8 and levels 1-4 and is 300 or 400 |
| Generations.DefaultStageBudget | src/main/java/classes/GeneticAlgorithm.java:23 | stage 1-1 has budget 400 |
| Generations.Generation.constructor | src/main/java/classes/Generation.java:19-22 | an empty generation of the given capacity with zero averages |
| Generations.Generation.SetGeneration | src/main/java/classes/Generation.java:28-30 | replaces the members of any length, capacity and averages kept |
| Generations.Generation.CalculateGenAverage | src/main/java/classes/Generation.java:38-110 | the metric total over the capacity, or 0 once a member lacks an outcome |
| Generations.Generation.CalculateGenAverageSpeed | src/main/java/classes/Generation.java:120-135 | the summed speeds over the capacity; a missing first outcome gives 0 before the budget lookup, and a stage outside the table throws |
| Generations.Generation.CalculateGenAverageFitnessScore | src/main/java/classes/Generation.java:144-155 | the summed fitness values over the capacity, in double arithmetic |
| Generations.Generation.SetGenAvgPos | src/main/java/classes/Generation.java:171-173 | only the stored position average changes |
| Generations.Generation.SetGenAvgSpeed | src/main/java/classes/Generation.java:189-191 | only the stored speed average changes |
| Generations.Generation.Clone | src/main/java/classes/Generation.java:193-201 | a fresh generation with the same capacity, members and averages |
| Generations.MetricTotalOfEqualScores | src/main/java/classes/Generation.java:38-46 | members that all score v total v times their count |
| Generations.AverageDividesByCapacity | src/main/java/classes/Generation.java:46 | the divisor is the capacity, not the member count |
| Generations.Average | src/main/java/classes/Generation.java:38-110 | one missing outcome anywhere makes the outcome average 0; with every outcome present it is the metric total divided by the capacity |
| Generations.SpeedAverage | src/main/java/classes/Generation.java:120-135 | IndexOutOfBounds exactly when the first outcome is present and the stage has no budget; a missing outcome otherwise gives 0; all present on a known stage gives the summed speeds over the capacity |
| Generations.FitnessTotalOfEqualValues | src/main/java/classes/Generation.java:144-151 | equal finite fitness values total their count times the value |
| Generations.FullGenerationFitnessAverage | src/main/java/classes/Generation.java:144-151 | a full generation of equal fitness values averages to that value |
| Blocks.RunLength | src/main/java/classes/GeneticAlgorithm.java:1045-1048 | the measured run is non-empty, all one value, and the next value differs |
| Blocks.SegmentsFlatten | src/main/java/classes/GeneticAlgorithm.java:1038-1069 | concatenating the blocks gives back the input exactly |
| Blocks.SplitRun | src/main/java/classes/GeneticAlgorithm.java:1050-1061 | a run over 10 becomes two blocks, the first floor(n/2) long, that concatenate back to the run; a shorter run stays one block |
| Blocks.SegmentsAreBlocks | src/main/java/classes/GeneticAlgorithm.java:1038-1069 | every block is a non-empty run of one value |
| Blocks.Segments | src/main/java/classes/GeneticAlgorithm.java:1038-1069 | at most one block per input, and at least one exactly when the input is non-empty |
| Blocks.ShortRunIsOneBlock | src/main/java/classes/GeneticAlgorithm.java:1059-1061 | a maximal run of at most 10 stays one block |
| Blocks.LongRunIsTwoBlocks | src/main/java/classes/GeneticAlgorithm.java:1050-1058 | a maximal run over 10 becomes floor(n/2) and the remainder |
| Blocks.TwelveIsSixAndSix | src/main/java/classes/GeneticAlgorithm.java:1050-1058 | 12 equal inputs split 6 and 6 |
| Blocks.TwentyOneIsTenAndEleven | src/main/java/classes/GeneticAlgorithm.java:1050-1058 | 21 equal inputs split 10 and 11 |
| Blocks.TwentyTwoLeavesBlocksOverTen | src/main/java/classes/GeneticAlgorithm.java:1050-1058 | 22 equal inputs give two blocks of 11: block length is not bounded by 10 |
| Blocks.CollectRun | src/main/java/classes/GeneticAlgorithm.java:1045-1048 | copies exactly the maximal run of the value from the start index |
| Blocks.SeparateArrayByBlocks | src/main/java/classes/GeneticAlgorithm.java:1038-1069 | an empty list throws IndexOutOfBounds; otherwise the result is the block segmentation |
| Blocks.BlockedArrayToArrayList | src/main/java/classes/GeneticAlgorithm.java:1078-1085 | the blocks concatenated in order |
| Blocks.SeparateLists | src/main/java/classes/GeneticAlgorithm.java:1129-1153 | null exactly when the position is not below the block count; otherwise the blocks before and from it |
| Buttons.DefaultFrequenciesValid | src/main/java/classes/GeneticAlgorithm.java:33 | the default frequencies are twelve non-negative parts summing to 100 |
| Buttons.TableLength | src/main/java/classes/GeneticAlgorithm.java:1003-1011 | the table is as long as the frequencies written |
| Buttons.Table | src/main/java/classes/GeneticAlgorithm.java:1003-1011 | every entry is one of the buttons written |
| Buttons.TableOfValid | src/main/java/classes/GeneticAlgorithm.java:1003-1011 | valid frequencies fill exactly 100 slots with buttons 0-11 |
| Buttons.TableCount | src/main/java/classes/GeneticAlgorithm.java:1003-1011 | button b occupies exactly its frequency's number of slots |
| Buttons.BuildButtonTable | src/main/java/classes/GeneticAlgorithm.java:1003-1011 | the array loop fills 100 slots, each button as often as its frequency |
| Buttons.WriteButton | src/main/java/classes/GeneticAlgorithm.java:1007-1010 | writes the button into the next count slots and leaves the rest of the array alone |
| Buttons.HoldButton | src/main/java/classes/GeneticAlgorithm.java:1017-1019 | a burst of the one button, 6 to 10 long, although the loop bound is redrawn on every test |
| Buttons.AppendBursts | src/main/java/classes/GeneticAlgorithm.java:1108-1117 | the list grows by 101 to 200 bursts, each one a table button held 6-10 times |
| Configuration.ApplyStage | src/main/java/classes/GeneticAlgorithm.java:93-110 | when world, level and version all parse and lie in range the stage becomes theirs; in every other case, including an in-range world with a bad level or version, the stage is unchanged; validity is kept |
| Configuration.ApplyFrequencies | src/main/java/classes/GeneticAlgorithm.java:112-137 | (corrected) twelve parsed values are taken exactly when none is negative and they sum to 100; otherwise the old frequencies stay |
| Configuration.ApplyFrequenciesAsWritten | src/main/java/classes/GeneticAlgorithm.java:112-137 | (as written) twelve parsed values are stored exactly when none is negative and their 32-bit wrapped sum is 100; otherwise the old frequencies stay |
| Configuration.WrapInt | src/main/java/classes/GeneticAlgorithm.java:128-129 | Java int addition: the result is in int range and equals the exact sum when that fits |
| Configuration.FrequencySumOverflowAccepted | src/main/java/classes/GeneticAlgorithm.java:126-134 | frequencies that are not a valid distribution pass the check as written |
| Configuration.FrequencyChecksAgree | src/main/java/classes/GeneticAlgorithm.java:126-129 | without overflow the written and the corrected check agree, both ways |
| Configuration.ApplyWeights | src/main/java/classes/GeneticAlgorithm.java:139-161 | a weight that does not parse makes all three 10; otherwise each in-range weight is taken and validity is kept |
| Configuration.ApplyPopulationSize | src/main/java/classes/GeneticAlgorithm.java:163-172 | a size in 0..1000 is taken, an unparsable one gives 1000, other fields unchanged |
| Configuration.ApplyRates | src/main/java/classes/GeneticAlgorithm.java:174-219 | the crossover group stays valid; the chosen type is kept exactly when it is ONE_POINT or its rates parse and are in range, and then those rates are stored and nothing else changes; ONE_POINT stores an in-range rate and otherwise keeps the old one; a fall-back to ONE_POINT changes only the type |
| Configuration.ApplyOperatorFrequencies | src/main/java/classes/GeneticAlgorithm.java:221-234 | each frequency in [0,1] is taken only when both parse; nothing else changes |
| Configuration.ApplySelection | src/main/java/classes/GeneticAlgorithm.java:236-275 | not exactly one scheme, or a bad TOP with elitism, resets the group; elitism keeps TOP within half the size |
| Configuration.DefaultsValid | src/main/java/classes/GeneticAlgorithm.java:33-61 | the fields' initial values form a valid configuration: an in-range stage with its level name, frequencies summing to 100, weights in 0..10, rates in [0,1], a size in 0..1000, exactly one selection scheme, elitism on and TOP at least 1. |
| Configuration.Configure | src/main/java/classes/GeneticAlgorithm.java:73-286 | (corrected) whatever the properties say, the constructor builds a valid configuration, keeps the render flag and leaves elitism on; this holds with the true-sum frequency check of the Findings row, while the 32-bit sum as written lets an overflowing frequency set through |
| Configuration.TopWithinHalfWhenRequested | src/main/java/classes/GeneticAlgorithm.java:257-265 | with the elitism flag on, TOP ends in 1..size/2 |
| Configuration.TopUncheckedWithoutElitismFlag | src/main/java/classes/GeneticAlgorithm.java:257-265 | with the flag off, TOP stays 5 even for a population of 4 |
| Configuration.AmbiguousSelectionResets | src/main/java/classes/GeneticAlgorithm.java:244-275 | two schemes on resets the population to 100, fitness-proportionate, top 5 |
| Configuration.UnreadableWeightGivesTen | src/main/java/classes/GeneticAlgorithm.java:156-161 | one unparsable weight sets all three to 10 |
| Configuration.MultiPointNeedsIncreasingBounds | src/main/java/classes/GeneticAlgorithm.java:192-204 | MULTI_POINT with min not below max falls back to ONE_POINT |
| Configuration.LevelNameShape | src/main/java/classes/GeneticAlgorithm.java:103 | the environment name has 21 characters, the stage digits in place, and no ':' |
| Text.ParseInt | src/main/java/classes/GeneticAlgorithm.java:782 | parsed values are ints; empty text and every failure are NumberFormat |
| Text.IntRoundTrip | src/main/java/classes/GeneticAlgorithm.java:782 | parseInt reads back what toString writes, for every int |
| Text.ParseIntRejects | src/main/java/classes/GeneticAlgorithm.java:799 | empty, a bare sign and surrounding blanks are rejected |
| Text.ParseIntRejectsOverflow | src/main/java/classes/GeneticAlgorithm.java:799 | 2147483648 is rejected |
| Text.Trim | src/main/java/classes/GeneticAlgorithm.java:794 | the result is no longer than the input and neither starts nor ends with a blank |
| Text.TrimRemovesBlankEnds | src/main/java/classes/GeneticAlgorithm.java:794 | the trim is a slice of the input with only blanks before and after it; with the non-blank ends Trim ensures, this fixes the result: exactly the leading and trailing blanks are removed |
| Text.TrimUnchanged | src/main/java/classes/GeneticAlgorithm.java:794 | text without outer blanks is its own trim |
| Text.RemoveAll | src/main/java/classes/GeneticAlgorithm.java:790-791 | the character no longer occurs and the result is no longer than the text |
| Text.RemoveAllKeepsOthers | src/main/java/classes/GeneticAlgorithm.java:790-791 | every other character occurs in the result exactly as often as in the text, so nothing is added or lost |
| Text.RemoveAllAbsent | src/main/java/classes/GeneticAlgorithm.java:790-791 | a text without the character is returned unchanged |
| Text.SplitTwoFields | src/main/java/classes/GeneticAlgorithm.java:778 | a keyword and a non-empty value split into exactly those two fields |
| Text.SplitAfterHead | src/main/java/classes/GeneticAlgorithm.java:778-781 | the keyword before the separator is the first field |
| Text.Split | src/main/java/classes/GeneticAlgorithm.java:778 | without the separator the whole text; otherwise the pieces between separators in order with the trailing empty pieces dropped, as String.split does |
| ImportFormat.ParseAll | src/main/java/classes/GeneticAlgorithm.java:798-800 | each trimmed piece parses to the value at its position, or the list throws NumberFormat |
| ImportFormat.ReadStep | src/main/java/classes/GeneticAlgorithm.java:775-805 | reading one more line applies exactly that line |
| ImportFormat.ParseLine | src/main/java/classes/GeneticAlgorithm.java:776-804 | a CHROMOSOME line gives the int after the separator, a SOLUTION line the parsed list, any other first field is ignored; a keyword without a value or a line with no field throws IndexOutOfBounds; every other failure is NumberFormat |
| ImportFormat.ReadAfterFailure | src/main/java/classes/GeneticAlgorithm.java:775-805 | after a throwing line the rest of the file changes nothing |
| ImportFormat.ValuesRoundTrip | src/main/java/classes/GeneticAlgorithm.java:786-800 | a non-empty int list survives ArrayList.toString and the field parser |
| ImportFormat.SolutionLineRoundTrip | src/main/java/classes/GeneticAlgorithm.java:787-803 | a dumped SOLUTION line reads back as its list |
| ImportFormat.ChromosomeLineRoundTrip | src/main/java/classes/GeneticAlgorithm.java:781-783 | a dumped CHROMOSOME line reads back as its number |
| ImportFormat.FitnessLineIgnored | src/main/java/classes/GeneticAlgorithm.java:775-805 | the FITNESS VALUE line adds nothing, whatever its text |
| ImportFormat.PlainLineIgnored | src/main/java/classes/GeneticAlgorithm.java:775-805 | a line without ':' that is not a bare keyword adds nothing |
| ImportFormat.StanzaParses | src/main/java/classes/GeneticAlgorithm.java:441-479 | the four lines of a dumped chromosome parse to its number and its list |
| ImportFormat.StanzaApplied | src/main/java/classes/GeneticAlgorithm.java:775-805 | a stanza sets the counter and appends its solution |
| ImportFormat.StanzasApplied | src/main/java/classes/GeneticAlgorithm.java:775-805 | stanzas in order collect their solutions in order |
| ImportFormat.ImportFileParses | src/main/java/classes/GeneticAlgorithm.java:433-479 | one dumped generation parses as three ignored lines and one stanza per member |
| ImportFormat.ImportRoundTrip | src/main/java/classes/GeneticAlgorithm.java:775-805 | reading one dumped generation appends every non-empty solution to those read so far, in order, and leaves the counter at the member count |
| ImportFormat.AppendOneDump | src/main/java/classes/GeneticAlgorithm.java:775-805 | appending one more dumped generation to the file read so far appends its solutions and sets the counter to its member count (unchanged for an empty one) |
| ImportFormat.AppendedDumpsRoundTrip | src/main/java/classes/GeneticAlgorithm.java:775-805 | a file of several dumped generations, appended one per breeding pass (the import file is opened for appending at line 423 and dumped at line 637), reads back as all their solutions in order, the counter left at the last non-empty generation's member count |
| ImportFormat.EmptyFieldRejected | src/main/java/classes/GeneticAlgorithm.java:790-799 | the field "[]" throws NumberFormat |
| ImportFormat.EmptySolutionRejected | src/main/java/classes/GeneticAlgorithm.java:787-800 | a dumped empty list does not read back |
| ImportFormat.SeparatorOnlyLineThrows | src/main/java/classes/GeneticAlgorithm.java:778-782 | the line ": " throws IndexOutOfBounds |
| ImportFormat.GenerationLineIgnored | src/main/java/classes/GeneticAlgorithm.java:433-437 | the generation header line adds nothing |
| ImportFormat.WorldLineIgnored | src/main/java/classes/GeneticAlgorithm.java:433-437 | the world header line adds nothing |
| ImportFormat.HeaderParses | src/main/java/classes/GeneticAlgorithm.java:433-437 | the three header lines parse as ignored |
| ImportFormat.PiecesOfJoin | src/main/java/classes/GeneticAlgorithm.java:796 | the comma pieces of joined texts are non-empty and trim back to the texts |
| ImportFormat.SplitOfJoin | src/main/java/classes/GeneticAlgorithm.java:796 | split(",") of joined texts keeps every piece |
| ImportFormat.StripBrackets | src/main/java/classes/GeneticAlgorithm.java:790-791 | removing the brackets of a bracket-free text leaves the text |
| Selection.KeysWithAreRouletteKeys | src/main/java/classes/GeneticAlgorithm.java:843-868 | keys built one member at a time against the total are the roulette keys |
| Selection.RouletteKeys | src/main/java/classes/GeneticAlgorithm.java:843-868 | one key per member; for non-negative fitness with a positive total key i is the share of members 0..i in the total, within [0,1], and the last key is 1 |
| Selection.KeysNonDecreasing | src/main/java/classes/GeneticAlgorithm.java:843-868 | for non-negative fitness with a positive total the keys are finite and never decrease |
| Selection.RouletteAlwaysHits | src/main/java/classes/GeneticAlgorithm.java:843-868 | every draw in [0,1) finds a member |
| Selection.FirstAtLeast | src/main/java/classes/GeneticAlgorithm.java:677-684 | the first key at least the draw, or past the end when there is none |
| Selection.RouletteSelect | src/main/java/classes/GeneticAlgorithm.java:674-685 | the first member whose key reaches the draw; None exactly when no key does |
| Selection.Insert | src/main/java/classes/GeneticAlgorithm.java:651 | inserting keeps the order's positions in range and adds one |
| Selection.SortOrder | src/main/java/classes/GeneticAlgorithm.java:651 | the sort yields one in-range position per member |
| Selection.Reverse | src/main/java/classes/GeneticAlgorithm.java:652 | element i is element n-1-i of the input |
| Selection.Elites | src/main/java/classes/GeneticAlgorithm.java:649-657 | IndexOutOfBounds exactly when TOP exceeds the members; otherwise TOP in-range positions |
| Selection.SortOrderIsPermutation | src/main/java/classes/GeneticAlgorithm.java:651 | the sort is a permutation of the members |
| Selection.SortOrderIsSorted | src/main/java/classes/GeneticAlgorithm.java:651 | neighbours never compare descending |
| Selection.ElitesDescend | src/main/java/classes/GeneticAlgorithm.java:649-657 | on whole-valued fitness the elites come in descending order |
| Selection.ElitesDominate | src/main/java/classes/GeneticAlgorithm.java:649-657 | on whole-valued fitness no other member is fitter than an elite |
| Selection.TiesComeOutReversed | src/main/java/classes/GeneticAlgorithm.java:649-657 | equal fitness values come out latest-first |
| Selection.NearTiesCanLoseTheFitter | src/main/java/classes/GeneticAlgorithm.java:649-657 | a member fitter by 0.5 can be left out of the elites |
| Selection.ChainedNearTiesElite | src/main/java/classes/GeneticAlgorithm.java:649-657 | when x ties y and y ties z under compareTo but x exceeds z by 1 or more (1.2, 0.6, 0.0), the model's sort puts z first and TOP 1 keeps the middle member, where TimSort keeps the last |
| Operators.Round | src/main/java/classes/GeneticAlgorithm.java:895 | Math.round: the nearest integer, halves upward |
| Operators.OnePointPosition | src/main/java/classes/GeneticAlgorithm.java:895-899 | the crossover position is at least 1 and at most the block count |
| Operators.OnePointExample | src/main/java/classes/GeneticAlgorithm.java:895-899 | with rate 0.5, 4 blocks give position 2, and 1 block gives position 1 |
| Operators.OnePointChild | src/main/java/classes/GeneticAlgorithm.java:902-915 | null exactly when the position reaches the block count; otherwise the parent without block pos-1 |
| Operators.RemoveBlock | src/main/java/classes/GeneticAlgorithm.java:910-915 | one fewer block, the ones before k and after it kept in order |
| Operators.RemoveBlockShortens | src/main/java/classes/GeneticAlgorithm.java:910-921 | the child's inputs are shorter by exactly the removed block |
| Operators.RemoveBlockKeepsRest | src/main/java/classes/GeneticAlgorithm.java:910-921 | the child's inputs are the parent's before and after the removed block |
| Operators.UniformCrossover | src/main/java/classes/GeneticAlgorithm.java:927-962 | the loop computes the two UNIFORM children and draws once per block of parent 2 |
| Operators.UniformChild1 | src/main/java/classes/GeneticAlgorithm.java:930-962 | block k of child 1 is parent 2's when k is within parent 2 and its draw fires, otherwise parent 1's; past parent 1 it takes the chosen tail of parent 2 |
| Operators.UniformChild2 | src/main/java/classes/GeneticAlgorithm.java:930-962 | child 2 is as long as parent 2 and block k is parent 1's when k is within parent 1 and its draw fires, otherwise parent 2's |
| Operators.UniformUpToChildren | src/main/java/classes/GeneticAlgorithm.java:927-962 | the loop's pair after every block of parent 2 is exactly the two UNIFORM children |
| Operators.UniformKeepsCounts | src/main/java/classes/GeneticAlgorithm.java:930-945 | with parent 1 at least as long, the block counts are kept and exactly the chosen indices are exchanged |
| Operators.UniformAsymmetric | src/main/java/classes/GeneticAlgorithm.java:946-962 | with parent 1 shorter, child 1 gains parent 2's chosen tail blocks and child 2 keeps its tail |
| Operators.ChosenFromAll | src/main/java/classes/GeneticAlgorithm.java:946-962 | when every draw fires, the whole tail is taken in order |
| Operators.MutateInputs | src/main/java/classes/GeneticAlgorithm.java:996-1026 | empty inputs throw; otherwise the drawn block is replaced by a burst of a table button |
| Operators.MutatedBlock | src/main/java/classes/GeneticAlgorithm.java:997-999 | the drawn block position is one of the blocks of the inputs |
| Operators.BlockMutationReplacesOneBlock | src/main/java/classes/GeneticAlgorithm.java:996-1026 | the mutated inputs are the blocks before the drawn position, one burst of a table button, then the blocks after it; the cursor moves past the burst's draws |
| Operators.MutationKeepsOtherBlocks | src/main/java/classes/GeneticAlgorithm.java:1021-1024 | the inputs outside the mutated block are the original's |
| Fitness.SubListCheck | src/main/java/classes/GeneticAlgorithm.java:598 | subList succeeds exactly within bounds; past the end IndexOutOfBounds, negative IllegalArgument |
| Fitness.Treat | src/main/java/classes/GeneticAlgorithm.java:597-614 | a member throws exactly when it has no outcome (NullPointer), won (subList's IndexOutOfBounds or IllegalArgument when commands_used lies outside the list, otherwise ClassCast) or died at a used-command count outside the list; no_more_commands extends; a death inside the list cuts to exactly the commands used |
| Fitness.Processed | src/main/java/classes/GeneticAlgorithm.java:579-629 | the loop gets through exactly the members before the first throwing one |
| Fitness.Stored | src/main/java/classes/GeneticAlgorithm.java:624-628 | the stored fitness is never NaN, and a non-NaN value is kept |
| Fitness.BestAfter | src/main/java/classes/GeneticAlgorithm.java:616-622 | bestFit is set once a member is compared, and is either unchanged or a compared member |
| Fitness.Compared | src/main/java/classes/GeneticAlgorithm.java:616-622 | one comparison keeps bestFit or adopts the member |
| Fitness.BestIsMaximal | src/main/java/classes/GeneticAlgorithm.java:616-622 | with finite values bestFit ends at the maximum seen, and a member it names holds that value |
| Fitness.StaleMemberBest | src/main/java/classes/GeneticAlgorithm.java:616-628 | a bestFit inside the generation is compared by its old value and can end below another member |
| Fitness.NaNNeverTakesOver | src/main/java/classes/GeneticAlgorithm.java:619 | a NaN fitness never replaces an existing bestFit |
| Fitness.TreatMember | src/main/java/classes/GeneticAlgorithm.java:597-614 | cuts, keeps or throws as the outcome says; no_more_commands appends exactly the bursts drawn from the cursor, which ends past them, and every other case draws nothing; the list changes only where the source changes it |
| Fitness.ExtendedByBursts | src/main/java/classes/GeneticAlgorithm.java:601-603 | an extended list keeps its old commands as a prefix and gains 101 to 200 bursts of 6 to 10 frames of a table button |
| Fitness.Step | src/main/java/classes/GeneticAlgorithm.java:579-629 | treats member n with the draws from the cursor given, stores its value when it passes, and leaves every other member alone |
| Fitness.Iteration | src/main/java/classes/GeneticAlgorithm.java:579-629 | one pass extends the updated prefix and bestFit and moves the cursor past member n's draws, or ends the loop at the throwing member without drawing |
| Fitness.UpdateMembers | src/main/java/classes/GeneticAlgorithm.java:579-629 | members before the first throw are updated, each extension taking exactly the bursts drawn where the earlier extensions left the cursor; the rest untouched; the cursor ends past all those draws; bestFit is the reference after them |
| Fitness.StartBest | src/main/java/classes/GeneticAlgorithm.java:616-622 | bestFit is located as absent, a member, or a chromosome of an earlier generation |
| Fitness.UpdateGeneration | src/main/java/classes/GeneticAlgorithm.java:577-629 | the loop stops at the first throwing member, the cursor ends past every extension's bursts, and bestFit refers to the last member adopted |
| Engine.GeneticAlgorithm.constructor | src/main/java/classes/GeneticAlgorithm.java:73-287 | no properties keep the defaults and draw nothing; otherwise the validated configuration and a first generation whose member 0 holds the baseline and member i the bursts drawn from the cursor after member i-1's, numGen 1 |
| Engine.GeneticAlgorithm.Start | src/main/java/classes/GeneticAlgorithm.java:277-280 | the seeded first generation becomes current, each member as populateFistGen draws it, with the cursor past every seeding draw, and numGen is 1 |
| Engine.GeneticAlgorithm.PopulateFirstGen | src/main/java/classes/GeneticAlgorithm.java:322-366 | populationSize fresh members, the first holding the baseline, the others bursts of table buttons |
| Engine.SeedMembers | src/main/java/classes/GeneticAlgorithm.java:336-361 | each member is new with fitness 0 and holds the baseline (first) or 101-200 bursts |
| Engine.GeneticAlgorithm.Crossover | src/main/java/classes/GeneticAlgorithm.java:877-985 | without the crossover draw the parents come back; otherwise fresh children of fitness 0 with the scheme's inputs |
| Engine.GeneticAlgorithm.Recombine | src/main/java/classes/GeneticAlgorithm.java:881-973 | the children's inputs are the configured scheme's recombination of the parents' blocks |
| Engine.OnePointCrossover | src/main/java/classes/GeneticAlgorithm.java:895-921 | each child is its parent without the block before the position, or the program exits |
| Engine.OnePointChildren | src/main/java/classes/GeneticAlgorithm.java:895-921 | Exit exactly when either parent's position reaches its block count |
| Engine.OnePointChildrenCut | src/main/java/classes/GeneticAlgorithm.java:895-921 | otherwise each child is its parent's inputs without the block before its position |
| Engine.UniformChildrenExchange | src/main/java/classes/GeneticAlgorithm.java:927-962 | the UNIFORM children's inputs are the flattened exchanged block lists |
| Engine.UniformCrossoverInputs | src/main/java/classes/GeneticAlgorithm.java:927-973 | the flattened UNIFORM children |
| Engine.GeneticAlgorithm.Mutate | src/main/java/classes/GeneticAlgorithm.java:993-1030 | the mutation outcome at the cursor: without the draw the chromosome itself; empty inputs throw; otherwise a new chromosome of fitness 0 whose inputs have one block replaced by a burst |
| Engine.GeneticAlgorithm.MutationOutcome | src/main/java/classes/GeneticAlgorithm.java:993-1030 | the mutation draw, then on success the block mutation; the cursor always moves past the draw |
| Engine.GeneticAlgorithm.CrossingOutcome | src/main/java/classes/GeneticAlgorithm.java:688-703 | no pass when the crossover draw fails or the children equal the parents' inputs; the scheme's exception passes through; the cursor always advances |
| Engine.GeneticAlgorithm.MutationsOutcome | src/main/java/classes/GeneticAlgorithm.java:694-710 | child 1 mutated, and child 2 too when two or more slots are left; one or two results accordingly, the first exception stops it |
| Engine.GeneticAlgorithm.BreedOutcome | src/main/java/classes/GeneticAlgorithm.java:688-710 | crossing then mutating; a result holds one child when one slot is left and two otherwise, and the cursor advances |
| Engine.GeneticAlgorithm.PassOutcome | src/main/java/classes/GeneticAlgorithm.java:667-711 | a first-parent position past the members throws IndexOutOfBounds; otherwise the roulette's second draw, then breeding; one child for one slot left, two otherwise |
| Engine.GeneticAlgorithm.PassOf | src/main/java/classes/GeneticAlgorithm.java:667-714 | there is a pass function that agrees with the pass outcome for every positive slot count and cursor and never fills more than asked |
| Engine.GeneticAlgorithm.Install | src/main/java/classes/GeneticAlgorithm.java:717-719 | the new generation object holds exactly the given members, numGen goes up by one, the members are unchanged |
| Engine.GeneticAlgorithm.AddMoreCommands | src/main/java/classes/GeneticAlgorithm.java:1093-1121 | extends the member's own list in place by 101-200 bursts |
| Engine.GeneticAlgorithm.CalculateFitness | src/main/java/classes/GeneticAlgorithm.java:553-630 | without a generation NullPointer and no draw; otherwise the member loop's outcome, with each no_more_commands member extended by exactly the bursts drawn at its turn, the cursor past all of them, and the resulting bestFit |
| Engine.GeneticAlgorithm.BreedNewGen | src/main/java/classes/GeneticAlgorithm.java:635-735 | only fitness-proportionate selection breeds: no generation is NullPointer, TOP past the members IndexOutOfBounds; otherwise the new generation is the elites then exactly the inputs the fill loop yields from the cursor, numGen goes up by one, and on an exception nothing but the cursor changes |
| Engine.NextGeneration | src/main/java/classes/GeneticAlgorithm.java:642-714 | TOP past the members throws; otherwise the elites by position, then the children the passes over the members' genotypes and roulette keys yield from the cursor, all fresh newborns |
| Engine.TotalFitness | src/main/java/classes/GeneticAlgorithm.java:852-855 | the fitness values summed in order |
| Engine.FitnessProportionateSelection | src/main/java/classes/GeneticAlgorithm.java:843-868 | the roulette keys of the members with a clone of each |
| Engine.RouletteEntry | src/main/java/classes/GeneticAlgorithm.java:860-864 | the running key advanced by the member's share, paired with a fresh clone |
| Engine.DrawSecondParent | src/main/java/classes/GeneticAlgorithm.java:674-685 | the first accepted draw's member, every earlier draw rejected; Diverged after fuel draws |
| Engine.SecondDraw | src/main/java/classes/GeneticAlgorithm.java:674-685 | an accepted draw gives a member whose genotype differs from parent 1; running out of draws is Diverged; the cursor moves by at most the draws allowed |
| Engine.SecondDrawIsFirstAccepted | src/main/java/classes/GeneticAlgorithm.java:674-685 | the chosen member is the first key reaching the first accepted draw, and every earlier draw was rejected; Diverged only after every allowed draw was rejected |
| Engine.BreedPair | src/main/java/classes/GeneticAlgorithm.java:667-713 | a parent position past the members throws IndexOutOfBounds; otherwise exactly the pass function's outcome at the cursor: the same exception, a repeated pass, or one or two fresh newborn children with exactly those inputs, the cursor left where the pass ends |
| Engine.Breed | src/main/java/classes/GeneticAlgorithm.java:688-710 | exactly the breeding outcome of the parents' inputs at the cursor: its exception, a repeated pass, or one or two fresh newborns with its inputs |
| Engine.MutateChildren | src/main/java/classes/GeneticAlgorithm.java:694-710 | exactly the mutations outcome of the two children's inputs: one or two newborns, each a child or a fresh mutant, or the first exception |
| Engine.FillPass | src/main/java/classes/GeneticAlgorithm.java:667-713 | one pass of the loop body: a failed pass ends the fill loop with the same exception at the same cursor; otherwise the elites and earlier children are kept, the generation stays within populationSize, and the fill loop from the new state equals the fill loop from the old |
| Engine.FillStep | src/main/java/classes/GeneticAlgorithm.java:667-714 | one step of the fill loop: an exception ends it, a repeated pass uses up one retry (Diverged when none is left), children are added and the slots left shrink by their number |
| Engine.FillFromAgree | src/main/java/classes/GeneticAlgorithm.java:667-714 | two pass functions that agree on every positive slot count and cursor fill identically |
| Engine.FillFromLength | src/main/java/classes/GeneticAlgorithm.java:667-714 | a successful fill extends what was born before by exactly the slots left |
| Engine.CrossParents | src/main/java/classes/GeneticAlgorithm.java:688-703 | the crossing outcome of the parents' inputs and the cursor after it: no pass when the crossover draw fails (the parents come back) or both children are genotype clones of their parents; an exception passes through; otherwise two fresh newborn children whose inputs are the configured scheme's children |
| Engine.MutateChild | src/main/java/classes/GeneticAlgorithm.java:694-706 | the mutation outcome of the child's inputs at the cursor: the child itself or a fresh newborn mutant with exactly those inputs, or the exception |
| Engine.FillGeneration | src/main/java/classes/GeneticAlgorithm.java:666-714 | the elites kept as a prefix; the rest are fresh newborns whose inputs are exactly what the fill loop over the passes yields from the cursor, or its exception (Diverged once the repeats run out); the result holds populationSize members, or all the elites when TOP exceeds the population size (as after readGenFromFile) |
| Engine.GeneticAlgorithm.ReadGenFromLines | src/main/java/classes/GeneticAlgorithm.java:743-813 | with a valid stage, a file that reads without error becomes the generation; the counter follows the file |
| Engine.ReadMembers | src/main/java/classes/GeneticAlgorithm.java:775-805 | one fresh chromosome per SOLUTION line until the first throw, matching the parser |
| Engine.ReadInto | src/main/java/classes/GeneticAlgorithm.java:775-805 | one line read: the members so far kept and at most one fresh one added |
| Engine.ReadLine | src/main/java/classes/GeneticAlgorithm.java:776-804 | the line's effect on counter and members is the parser's |
| Engine.ImportedAppend | src/main/java/classes/GeneticAlgorithm.java:797-803 | appending a new chromosome and its values keeps the members matching the solutions |

## Left out

- File I/O: `dumpGenToFile`, the file that `readGenFromFile` opens, and `IOException` are not
  modelled. Reading works on the file's lines, and the dump format appears only as the
  function `ImportFile`. The `NullPointerException` of `dumpGenToFile` on members without an
  outcome is not modelled either.
- `PropertiesInfo.java` is not part of this model. Stage validation is the `stageValid`
  parameter, and the properties are given already parsed, each entry as an `Option`.
- The fitness formula and the averages that `calculateFitness` uses for it are not modelled.
  Each member's raw value comes in as the parameter `raw`.
- The game simulation service, the network and `Main` are not modelled. Outcomes arrive as
  values.
- The singleton `getInstance`, `printWeights` and the plain getters are not modelled.
- Java's random number generators are replaced by the oracle `Rng`. Their distributions are
  not modelled.
- Doubles use exact real arithmetic without rounding, and `Double.toString` is a free text.
- `Integer.parseInt` and `trim` work on ASCII only. Unicode digits and whitespace are not
  modelled.
- `System.exit` becomes the fault `Exit`, and no code after it runs.
- MULTI_POINT crossover returns `null` children, which is modelled as a `NullPointer` fault.
  The selection schemes marked TODO do nothing, as in the source.
- The baseline inputs of the first member are a parameter of the constructor, not the
  literal array.
- Engine.GeneticAlgorithm.BreedNewGen: the second-parent draw and the retry after clone
  children are unbounded loops. They are bounded by `fuel` and end in `Diverged` when it
  runs out.
- Selection.SortOrder: `Collections.sort` (TimSort) is modelled as a stable insertion sort.
  The two agree while `compareTo` is a consistent order, but it is not one: values less than 1
  apart compare equal, so with fitness values 1.2, 0.6 and 0.0 compareTo makes 1.2 equal to 0.6
  and 0.6 equal to 0.0 yet 1.2 greater than 0.0, and TimSort's binary insertion may order such
  members differently: TimSort finds one ascending run and leaves them in place, so with TOP 1
  the program keeps member 2 (0.0), while the model keeps member 1 (ChainedNearTiesElite).
  TimSort's exception on a comparator it detects as inconsistent is not modelled either.
- Selection.ElitesDescend: the order of the elites is proved for whole-valued fitness only,
  because values less than 1 apart compare equal.
- Engine.GeneticAlgorithm.CalculateFitness: the members and their lists are assumed to be
  distinct objects, and a list shared between members is not modelled.
- Generations.Generation.Clone: the member list is a value, so the clone's sharing of the
  `ArrayList` with the original is not modelled.
- Generations.Generation.constructor: a negative capacity, for which the `ArrayList`
  allocation throws `IllegalArgumentException`, is not modelled. The engine only passes a
  population size in 0..1000 or an existing generation's capacity.
- Generations.Generation.CalculateGenAverage: the division by the capacity is exact real
  division.

## Findings

| source | as written | input that shows it | evidently intended | confidence | as-written member | corrected member |
|---|---|---|---|---|---|---|
| src/main/java/classes/GeneticAlgorithm.java:126-134 | the twelve button frequencies are summed in 32-bit `int`, so a wrapped sum of 100 passes the check | FREQUENCY_BUTTON_0 = FREQUENCY_BUTTON_1 = 2147483647, FREQUENCY_BUTTON_2 = 102, the rest 0 | accept only non-negative frequencies whose true sum is 100, so that the 100-slot button table can hold them | not executed | Configuration.FrequencySumOverflowAccepted | Configuration.ApplyFrequencies |
