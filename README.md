# Advent of Code 2022 solvers, days 1 to 8, in Dafny

A model of eight Rust solvers for the 2022 Advent of Code puzzles. It also
covers the crate's two `Result`-aware iterator adapters, which none of these
solvers uses. Each solver reads a text input, and its answer is proved
against a reference definition:

- **Day 1, calorie counting:** group sums of blank-separated lines, their
  maximum, and the top three kept by swap insertion.
- **Day 2, rock–paper–scissors:** score tables, parsing, the outcome and
  move relations, and tournament scoring.
- **Day 3, rucksacks:** the priority map, bitmask intersection per line,
  and the three-line group state machine.
- **Day 4, camp cleanup:** an unanchored `a-b,c-d` pattern, range
  containment and overlap, and the counting loop.
- **Day 5, supply stacks:** a parser-combinator grammar for the crate
  drawing and move list, and the transposition into stacks. Then the move
  replay for both cranes and the top-of-stack message.
- **Day 6, tuning trouble:** the three marker searches (a shifting buffer, a
  ring buffer, and the unchecked ring buffer). Each is proved equal to one
  reference.
- **Day 7, directory sizes:** an arena of directories driven by `cd`/`ls`
  commands, a memoised total-size recursion, the small-directory sum and the
  pruned minimum search.
- **Day 8, tree grid:** the visibility and scenic-score processors, swept in
  place over a square grid in four directions.

The project is organised as follows:

- Every source file is one module: `Day01Calories` … `Day08TreeGrid` and
  `ExtraItertools`.
- `Outcomes` holds `Option` and `Result`. An `Answer<T>` is a `Result` whose
  error is the message string the source builds.
- `Text` holds trimming, line splitting and decimal reading as Rust's
  `str` does them.
- Loops in the source are methods with loop invariants, and each method is
  proved equal to a reference function.
- State the source mutates is a class (`Tree` of day 7), an `array` (day 1's
  three slots, day 6's buffers, day 8's score table) or an `array2` (day 8's
  grid).
- Each property the solver relies on is a lemma about the reference.

Reading the input file is not modelled. A solver's `part1`/`part2` takes the
file's lines, or its whole text, as a parameter.

## Model

| member | source | states |
|---|---|---|
| Text.TrimStartDrops | 2022/rust/src/bin/01.rs:12 | `trim` drops exactly the leading whitespace: what it drops is whitespace and what it keeps does not start with whitespace |
| Text.TrimEndDrops | 2022/rust/src/bin/01.rs:12 | the same for trailing whitespace |
| Text.BlankIsAllWhitespace | 2022/rust/src/bin/01.rs:12-13 | a line trims to the empty string exactly when all its characters are whitespace |
| Text.TrimKeeps | 2022/rust/src/bin/01.rs:12 | a string that starts and ends with a non-whitespace character is its own trim |
| Text.TrimEnds | 2022/rust/src/bin/08.rs:20 | a non-empty trimmed string starts and ends with non-whitespace |
| Text.Lines | 2022/rust/src/bin/08.rs:20 | `str::lines` gives no line containing a newline and no more lines than characters; the empty text has no lines and any other text at least one |
| Text.FirstLineNonEmpty | 2022/rust/src/bin/08.rs:20 | a text that starts with non-whitespace has a non-empty first line |
| Text.LastLineNonEmpty | 2022/rust/src/bin/08.rs:20 | a text that ends with non-whitespace has a non-empty last line |
| Text.TakeDigits | 2022/rust/src/bin/05.rs:62 | `take_while` of digits splits the text into a run of digits and a rest that does not start with a digit |
| Text.ParseDigits | 2022/rust/src/bin/05.rs:62 | `str::parse::<usize>` of a run of digits succeeds exactly when the run is non-empty and its value fits in 64 bits, and gives that value |
| Text.ParseU64 | 2022/rust/src/bin/01.rs:14 | `str::parse::<u64>` never gives a value above `u64::MAX` |
| Text.ParseU64Reads | 2022/rust/src/bin/01.rs:14 | the empty string does not parse; a parsed string is an optional `+` and digits of that value; a run of digits within range always parses |
| Text.Decimal | 2022/rust/src/bin/05.rs:61-63 | the decimal text of a number is a non-empty run of digits without a leading zero |
| Text.DecimalRoundTrip | 2022/rust/src/bin/05.rs:61-63 | reading the decimal text of `n` gives `n` |
| Text.TakeDigitsOfDecimal | 2022/rust/src/bin/05.rs:62 | digits followed by a non-digit are taken exactly |
| Day01Calories.Parse | 2022/rust/src/bin/01.rs:5-21 | the loop over the lines, with an empty line chained on, emits exactly the reference sequence `Emitted(lines)`, or fails with "Failed to parse non-empty line" |
| Day01Calories.FeedNumber | 2022/rust/src/bin/01.rs:13-15 | a non-blank line adds its number to the running sum and emits nothing |
| Day01Calories.FeedBlank | 2022/rust/src/bin/01.rs:16-18 | a blank line emits the running sum and resets it to 0 |
| Day01Calories.FeedFails | 2022/rust/src/bin/01.rs:14 | the loop fails exactly when some line is neither blank nor a `u64` |
| Day01Calories.BadKinds | 2022/rust/src/bin/01.rs:12-14 | a bad line kind occurs exactly where some line is neither blank nor a number |
| Day01Calories.FeedGroups | 2022/rust/src/bin/01.rs:10-19 | without bad lines, the loop emits the sums of the blank-separated groups in order, then continues from the last group's sum |
| Day01Calories.ChainedFeed | 2022/rust/src/bin/01.rs:10 | with the empty line chained on, the last group is emitted too, so the output is exactly the group totals |
| Day01Calories.EmittedGroups | 2022/rust/src/bin/01.rs:5-21 | `parse` fails exactly when a line is bad, and otherwise emits one sum per maximal group of lines, consecutive blank lines giving sums of 0 |
| Day01Calories.AlwaysOneGroup | 2022/rust/src/bin/01.rs:10 | the chained empty line makes at least one sum emitted, so "No elves in data" is never reached |
| Day01Calories.Highest | 2022/rust/src/bin/01.rs:24-31 | the callback of `part1` keeps an emitted sum that no other emitted sum exceeds, and fails only when nothing was emitted |
| Day01Calories.Part1 | 2022/rust/src/bin/01.rs:23-32 | `part1` fails exactly when `parse` fails and otherwise returns the largest group total |
| Day01Calories.Offer | 2022/rust/src/bin/01.rs:37-48 | one call of the swap-insertion callback updates the three slots in place as the reference pass `Pass` does |
| Day01Calories.PassAt | 2022/rust/src/bin/01.rs:37-48 | on sorted slots, the pass inserts the offered sum at its rank, shifts the smaller sums one slot down and drops the last |
| Day01Calories.HoldsSorted | 2022/rust/src/bin/01.rs:37-47 | slots holding the largest sums are in non-increasing order, with every filled slot before any empty one |
| Day01Calories.InsertKeepsLargest | 2022/rust/src/bin/01.rs:35-49 | after each emitted sum, slot `k` holds the `k`-th largest sum so far, or is empty when fewer than `k + 1` sums were emitted |
| Day01Calories.KthLargestUnique | 2022/rust/src/bin/01.rs:35-49 | the `k`-th largest of a sequence is unique |
| Day01Calories.KthLargestOrdered | 2022/rust/src/bin/01.rs:35-49 | a lower rank never holds a smaller value |
| Day01Calories.KthLargestOccurs | 2022/rust/src/bin/01.rs:35-49 | the `k`-th largest is one of the sums |
| Day01Calories.TryFold | 2022/rust/src/bin/01.rs:51-53 | `try_fold` succeeds exactly when every slot is filled, and its value is at least the start |
| Day01Calories.TopThree | 2022/rust/src/bin/01.rs:34-54 | the callback and final fold of `part2` succeed exactly when at least three sums were emitted, and return the sum of the three largest; otherwise they fail with "Less than 3 elves in data" |
| Day01Calories.Part2 | 2022/rust/src/bin/01.rs:34-54 | `part2` fails when `parse` fails, and otherwise returns the sum of the three largest group totals, or fails when there are fewer than three groups |
| Day02RockPaperScissors.MoveScore | 2022/rust/src/bin/02.rs:16-25 | a move scores 1, 2 or 3, one more than its index in the cycle |
| Day02RockPaperScissors.OutcomeScore | 2022/rust/src/bin/02.rs:66-76 | a loss scores 0, a draw 3 and a win 6, and nothing else gives those scores |
| Day02RockPaperScissors.ParseMove | 2022/rust/src/bin/02.rs:27-38 | only A/X give Rock, B/Y Paper and C/Z Scissors; anything else fails with "Incorrect move: '…'" |
| Day02RockPaperScissors.ParseOutcome | 2022/rust/src/bin/02.rs:90-101 | only X/Y/Z give Loss/Draw/Win; anything else fails with "Incorrect outcome: '…'" |
| Day02RockPaperScissors.OutcomeOf | 2022/rust/src/bin/02.rs:78-88 | the outcome is a draw exactly when both moves are equal |
| Day02RockPaperScissors.OutcomeIsCyclic | 2022/rust/src/bin/02.rs:78-88 | the outcome is a win exactly when my move beats the other in the rock–paper–scissors cycle, and a loss otherwise |
| Day02RockPaperScissors.WinLossAntisymmetric | 2022/rust/src/bin/02.rs:82-85 | for different moves, one order wins exactly when the other loses, and neither draws |
| Day02RockPaperScissors.MoveFor | 2022/rust/src/bin/02.rs:40-57 | the move chosen for an opponent's move and a wanted outcome reaches that outcome |
| Day02RockPaperScissors.MoveForUnique | 2022/rust/src/bin/02.rs:40-57 | it is the only such move: choosing for the outcome a move reaches gives that move back |
| Day02RockPaperScissors.RoundScore | 2022/rust/src/bin/02.rs:116 | a round scores between 1 and 9 |
| Day02RockPaperScissors.RoundScoreDecodes | 2022/rust/src/bin/02.rs:116 | different move/outcome pairs score differently |
| Day02RockPaperScissors.Part1Game | 2022/rust/src/bin/02.rs:122-125 | the part 1 closure parses both columns as moves, checking the opponent first, and plays the second against the first |
| Day02RockPaperScissors.Part2Game | 2022/rust/src/bin/02.rs:129-133 | the part 2 closure succeeds exactly when the columns are a move and an outcome, checking the move first |
| Day02RockPaperScissors.Part2Reaches | 2022/rust/src/bin/02.rs:129-133 | the move part 2 plays reaches the outcome it read |
| Day02RockPaperScissors.SplitOnce | 2022/rust/src/bin/02.rs:114 | `split_once(' ')` fails exactly when there is no space, and otherwise splits at the first space |
| Day02RockPaperScissors.Round | 2022/rust/src/bin/02.rs:109-116 | a line contributes nothing exactly when it is blank, and otherwise 1 to 9 points or an error |
| Day02RockPaperScissors.NoSpaceFails | 2022/rust/src/bin/02.rs:114 | a non-blank line without a space fails with "Failed to split the line" |
| Day02RockPaperScissors.ScoreTournament | 2022/rust/src/bin/02.rs:103-119 | the loop sums the rounds, failing at the first failing line, exactly as `Tournament` |
| Day02RockPaperScissors.TournamentFails | 2022/rust/src/bin/02.rs:103-119 | the tournament fails exactly when some line does |
| Day02RockPaperScissors.TournamentBounds | 2022/rust/src/bin/02.rs:103-119 | a tournament scores between 1 and 9 points per non-blank line |
| Day02RockPaperScissors.Part1 | 2022/rust/src/bin/02.rs:121-126 | `part1` scores the tournament with the part 1 closure |
| Day02RockPaperScissors.Part2 | 2022/rust/src/bin/02.rs:128-134 | `part2` scores the tournament with the part 2 closure |
| Day02RockPaperScissors.SampleGuidePart1 | 2022/rust/src/bin/02.rs:121-126 | the puzzle's example guide `A Y`, `B X`, `C Z` scores 15 under part 1 |
| Day02RockPaperScissors.SampleGuidePart2 | 2022/rust/src/bin/02.rs:128-134 | the same guide scores 12 under part 2 |
| Day03Rucksacks.Priority | 2022/rust/src/bin/03.rs:10-16 | exactly the letters have a priority, each between 1 and 52 |
| Day03Rucksacks.PriorityIsPosition | 2022/rust/src/bin/03.rs:10-16 | the priority of a character is its position, from 1, in `a..=z` followed by `A..=Z` |
| Day03Rucksacks.PriorityInjective | 2022/rust/src/bin/03.rs:10-16 | different items have different priorities |
| Day03Rucksacks.OneBitMasks | 2022/rust/src/bin/03.rs:34-38 | for positions below 64, `1 << p` and `1 << q` share a bit exactly when `p == q`, so a mask of priorities is a set of them |
| Day03Rucksacks.AllBits | 2022/rust/src/bin/03.rs:52 | `u64::MAX` has every bit position below 64 set |
| Day03Rucksacks.Items | 2022/rust/src/bin/03.rs:33-35 | a string's mask succeeds exactly when every character is a letter, and then holds exactly the priorities of its characters; otherwise it fails with "Incorrect item" for a non-letter |
| Day03Rucksacks.InItems | 2022/rust/src/bin/03.rs:33-35 | a letter's priority is in the mask exactly when the letter is in the string |
| Day03Rucksacks.CollectItems | 2022/rust/src/bin/03.rs:33-35 | the mask-building loop computes `Items` |
| Day03Rucksacks.FirstShared | 2022/rust/src/bin/03.rs:36-42 | a scan result is the priority of a character of the string that is in the mask; "none" means no character's priority is in the mask; an error names a non-letter |
| Day03Rucksacks.FirstIn | 2022/rust/src/bin/03.rs:36-43 | the reference: the first character of a string that is in a set, if any |
| Day03Rucksacks.FirstSharedIsFirstIn | 2022/rust/src/bin/03.rs:36-43 | on letters, scanning a mask finds the priority of the first character in the set the mask stands for |
| Day03Rucksacks.FindShared | 2022/rust/src/bin/03.rs:36-42 | the scanning loop computes `FirstShared` |
| Day03Rucksacks.SplitAtByte | 2022/rust/src/bin/03.rs:31 | `split_at` by byte length gives two parts that rejoin to the line, the first being that many bytes |
| Day03Rucksacks.LettersByBytes | 2022/rust/src/bin/03.rs:28-31 | on letters, byte length is character length and `split_at(n)` cuts after `n` characters |
| Day03Rucksacks.Rucksack | 2022/rust/src/bin/03.rs:22-43 | a line of `part1` adds nothing exactly when it is blank; a non-blank line of odd byte length fails with "Odd number of items in line"; an accepted line has even byte length, splits at a character boundary and has a left half of letters only, and adds a priority between 1 and 52 |
| Day03Rucksacks.ItemsStopsAt | 2022/rust/src/bin/03.rs:33-35 | building a mask fails with "Incorrect item" for the first character that is not a letter |
| Day03Rucksacks.FirstSharedStopsAt | 2022/rust/src/bin/03.rs:36-42 | the scan fails with "Incorrect item" for a non-letter when no letter before it is in the mask |
| Day03Rucksacks.BadLeftItem | 2022/rust/src/bin/03.rs:31-35 | a line whose left half holds a non-letter fails with "Incorrect item" for the first one |
| Day03Rucksacks.BadRightItem | 2022/rust/src/bin/03.rs:31-42 | with a left half of letters, a non-letter in the right half fails with "Incorrect item" unless a letter before it occurs in the left half |
| Day03Rucksacks.LetterRucksack | 2022/rust/src/bin/03.rs:28-43 | an even line of letters adds the priority of the first character of its right half that occurs in its left half, or fails with "No matches in line" |
| Day03Rucksacks.TotalFails | 2022/rust/src/bin/03.rs:22-45 | the sum fails exactly when one of the lines does |
| Day03Rucksacks.TotalBounds | 2022/rust/src/bin/03.rs:22-45 | with at most `bound` added per line, the sum lies between its start and `bound` per line more |
| Day03Rucksacks.Part1Total | 2022/rust/src/bin/03.rs:18-46 | `part1` fails exactly when a line does, and adds at most 52 per line |
| Day03Rucksacks.Part1 | 2022/rust/src/bin/03.rs:18-46 | the loop of `part1` computes the reference sum |
| Day03Rucksacks.Visit | 2022/rust/src/bin/03.rs:60-77 | a non-blank line that is not a third line leaves the sum alone and advances the line number |
| Day03Rucksacks.RunStep | 2022/rust/src/bin/03.rs:54-78 | a blank line leaves the state alone; any other line applies `Visit` or stops with its error |
| Day03Rucksacks.Part2 | 2022/rust/src/bin/03.rs:48-85 | the loop of `part2` and its final check compute the reference `Badges` |
| Day03Rucksacks.SharedMask | 2022/rust/src/bin/03.rs:70-75 | after two lines of letters, the mask that starts at all ones stands for the items both lines share |
| Day03Rucksacks.FirstTwo | 2022/rust/src/bin/03.rs:70-77 | the first two lines of a group narrow the mask and bring the line number to 3 |
| Day03Rucksacks.ThirdLine | 2022/rust/src/bin/03.rs:60-69 | the third line adds the priority of its first item that the first two share and resets the counter and mask; with no such item, the counter goes on to 4 |
| Day03Rucksacks.Stuck | 2022/rust/src/bin/03.rs:60-77 | once a third line has had no match, every later line only counts up |
| Day03Rucksacks.ShortGroup | 2022/rust/src/bin/03.rs:80-84 | with one or two lines left over, the loop ends away from line 1 and the reference has no sum, so `part2` reports extra lines |
| Day03Rucksacks.Grouped | 2022/rust/src/bin/03.rs:54-84 | over lines of letters, the loop ends at line 1 exactly when the lines form complete groups whose third lines all match, with the sum of the reference |
| Day03Rucksacks.Part2Groups | 2022/rust/src/bin/03.rs:48-85 | `part2` succeeds exactly when the non-blank lines split into groups of three whose third line shares an item with the first two. It then returns the sum of those items' priorities, and otherwise fails with "Extra N line(s)" |
| Day04CampCleanup.GroupOf | 2022/rust/src/bin/04.rs:18-19 | a group `(\d+)` followed by its separator reads back exactly its digits |
| Day04CampCleanup.MatchPrefixReads | 2022/rust/src/bin/04.rs:18-19 | a match captures four runs of digits, the text starts with their shape, and no digit follows the match |
| Day04CampCleanup.MatchesShape | 2022/rust/src/bin/04.rs:18-19 | the shape `a-b,c-d` followed by a non-digit matches with those four captures |
| Day04CampCleanup.FirstMatchLeftmost | 2022/rust/src/bin/04.rs:20-21 | the search reports the match at the leftmost position that has one, and nothing when no position does |
| Day04CampCleanup.ParseLine | 2022/rust/src/bin/04.rs:14-39 | every number `parse_line` returns fits in a `u64` |
| Day04CampCleanup.ParseLineReads | 2022/rust/src/bin/04.rs:18-38 | it fails with "Can't parse line" exactly when no position matches; a success holds the values of the four captures of a match in order |
| Day04CampCleanup.NoDashCantParse | 2022/rust/src/bin/04.rs:20-22 | a line without `-` never parses |
| Day04CampCleanup.ParseFormat | 2022/rust/src/bin/04.rs:14-39 | the line printed for two 64-bit ranges parses back to them |
| Day04CampCleanup.FormatReads | 2022/rust/src/bin/04.rs:45-49 | a printed line is non-blank, has nothing to trim and parses back |
| Day04CampCleanup.Symmetric | 2022/rust/src/bin/04.rs:58-68 | neither predicate depends on the order of the two ranges |
| Day04CampCleanup.ContainsMeans | 2022/rust/src/bin/04.rs:58-61 | for ranges with `l <= r`, the part 1 predicate holds exactly when one range's sections include the other's |
| Day04CampCleanup.OverlapsMeans | 2022/rust/src/bin/04.rs:64-68 | for such ranges, the part 2 predicate holds exactly when they share a section |
| Day04CampCleanup.ContainsOverlaps | 2022/rust/src/bin/04.rs:57-69 | containment implies overlap |
| Day04CampCleanup.Count | 2022/rust/src/bin/04.rs:41-55 | the loop of `parse` computes the reference `Counted`: blank lines skipped, the first bad line's error, otherwise the number of lines the policy accepts |
| Day04CampCleanup.CountedIsParsed | 2022/rust/src/bin/04.rs:41-55 | counting fails exactly when parsing every non-blank line fails, whatever the policy; otherwise it counts the parsed pairs the policy accepts, one pair per non-blank line |
| Day04CampCleanup.CountWhereMonotone | 2022/rust/src/bin/04.rs:50-52 | a policy that holds wherever another holds counts at least as many pairs |
| Day04CampCleanup.Part1 | 2022/rust/src/bin/04.rs:57-62 | `part1` counts with the containment closure |
| Day04CampCleanup.Part2 | 2022/rust/src/bin/04.rs:64-69 | `part2` counts with the overlap closure |
| Day04CampCleanup.Part1AtMostPart2 | 2022/rust/src/bin/04.rs:57-69 | with proper ranges, both parts succeed and part 1 counts no more than part 2 |
| Day04CampCleanup.SampleParses | 2022/rust/src/bin/04.rs:41-55 | the puzzle's example reads as its six pairs |
| Day04CampCleanup.SampleCounts | 2022/rust/src/bin/04.rs:81-94 | in the example, part 1 counts 2 and part 2 counts 4 |
| Day05CrateYard.OneCrate | 2022/rust/src/bin/05.rs:19-25 | `one_crate` reads `[c]` or three spaces, and the slot it returns is printed as the text it consumed |
| Day05CrateYard.OneCrateRoundTrip | 2022/rust/src/bin/05.rs:19-25 | `[c]` reads as `Some(c)` and three spaces as `None`, whatever follows |
| Day05CrateYard.SepList1 | 2022/rust/src/bin/05.rs:30 | `separated_list1` fails exactly when its first item does, and otherwise returns at least one item |
| Day05CrateYard.SepListRoundTrip | 2022/rust/src/bin/05.rs:30 | a list printed with its separator is read back item by item, stopping where nothing more can be read |
| Day05CrateYard.Tag | 2022/rust/src/bin/05.rs:75-77 | `tag(t)` succeeds exactly when the input starts with `t`, and returns the rest |
| Day05CrateYard.Drawing | 2022/rust/src/bin/05.rs:27-31 | `stacks` returns at least one row, each with at least one slot |
| Day05CrateYard.RowRoundTrip | 2022/rust/src/bin/05.rs:30 | a printed row reads back as its slots |
| Day05CrateYard.DrawingRoundTrip | 2022/rust/src/bin/05.rs:27-41 | a printed drawing reads back row by row, and stops at the line of stack numbers |
| Day05CrateYard.SkipLabel | 2022/rust/src/bin/05.rs:40 | `take_while` over spaces and digits consumes exactly a run of those characters |
| Day05CrateYard.Number | 2022/rust/src/bin/05.rs:61-63 | `number` reads a non-empty run of digits whose value fits a `usize` |
| Day05CrateYard.NumberRoundTrip | 2022/rust/src/bin/05.rs:61-63 | a printed number reads back when no digit follows it |
| Day05CrateYard.MoveRoundTrip | 2022/rust/src/bin/05.rs:72-81 | `move N from F to T` reads back as count `N`, from `F` and to `T` |
| Day05CrateYard.MovesRoundTrip | 2022/rust/src/bin/05.rs:83-85 | a printed list of moves, one per line, reads back in order |
| Day05CrateYard.Program | 2022/rust/src/bin/05.rs:87-89 | a successful read gives a non-empty drawing and a non-empty move list |
| Day05CrateYard.ProgramRoundTrip | 2022/rust/src/bin/05.rs:87-89 | a printed input reads back as its drawing and its moves |
| Day05CrateYard.Stacks | 2022/rust/src/bin/05.rs:44-56 | there is one stack per slot of the bottom row |
| Day05CrateYard.Transpose | 2022/rust/src/bin/05.rs:42-57 | the transposition loop fails exactly when a crate lies beyond the bottom row's width, and otherwise builds each stack from its column, bottom row first |
| Day05CrateYard.StacksHoldDrawing | 2022/rust/src/bin/05.rs:44-56 | the stacks hold exactly as many crates of each label as the drawing shows |
| Day05CrateYard.Reversed | 2022/rust/src/bin/05.rs:103 | `rev` yields the same crates, last one first |
| Day05CrateYard.Step | 2022/rust/src/bin/05.rs:91-106 | a move succeeds exactly when it is a no-op (`from == to`) or feasible, and a no-op leaves the stacks alone. It fails with "wrong 'from'", "Can't take more than in stack" or "wrong 'to'", in that order of checks |
| Day05CrateYard.StepMoves | 2022/rust/src/bin/05.rs:96-106 | a move takes exactly the top `count` crates off the source and appends them to the destination, reversed by part 1's crane; every other stack is unchanged |
| Day05CrateYard.StepConserves | 2022/rust/src/bin/05.rs:96-106 | a move neither creates nor destroys crates of any label |
| Day05CrateYard.OneCrateEitherWay | 2022/rust/src/bin/05.rs:102-106 | the two cranes agree on moves of at most one crate |
| Day05CrateYard.OneAtATime | 2022/rust/src/bin/05.rs:102-106 | the reversing move of `count` crates is `count` moves of one crate each |
| Day05CrateYard.FailureSticks | 2022/rust/src/bin/05.rs:91-107 | once a move fails, the whole replay fails with that move's error |
| Day05CrateYard.RearrangeConserves | 2022/rust/src/bin/05.rs:91-107 | a whole replay neither creates nor destroys crates |
| Day05CrateYard.Replay | 2022/rust/src/bin/05.rs:91-107 | the replay loop, with `split_off` and `extend`, computes the reference `Rearrange` |
| Day05CrateYard.Top | 2022/rust/src/bin/05.rs:108 | a stack's top is its last crate, or a space when it is empty |
| Day05CrateYard.Tops | 2022/rust/src/bin/05.rs:108 | the message has one character per stack, its top |
| Day05CrateYard.TopAfterMove | 2022/rust/src/bin/05.rs:100-108 | after a move, the destination's top is the lowest lifted crate (reversing crane) or the source's old top, and the source's top is the crate below the lifted ones |
| Day05CrateYard.Parse | 2022/rust/src/bin/05.rs:87-116 | `parse` fails with "Parse error" when the grammar or the transposition fails, otherwise fails with the first failing move's error or returns the tops after the replay |
| Day05CrateYard.SampleCrateMover9000 | 2022/rust/src/bin/05.rs:166-169 | the puzzle's example, replayed with reversing moves, leaves `CMZ` on top |
| Day05CrateYard.SampleCrateMover9001 | 2022/rust/src/bin/05.rs:176-179 | replayed in order, it leaves `MCD` on top |
| Day06TuningTrouble.FindMarker | 2022/rust/src/bin/06.rs:67-96 | the answer, when there is one, is a position after the start and within the input; otherwise the error is "Not enough items in collection" |
| Day06TuningTrouble.FindMarkerReads | 2022/rust/src/bin/06.rs:67-96 | the answer is one past the first index whose `W` characters ending there are pairwise distinct; the error means no index has that property |
| Day06TuningTrouble.WindowVsMaximal | 2022/rust/src/bin/06.rs:75-92 | a window ending at the current position is distinct exactly when it is no longer than the longest distinct run ending there |
| Day06TuningTrouble.LastIndexOf | 2022/rust/src/bin/06.rs:75-76 | the backwards search finds the last occurrence of the character, or reports that there is none |
| Day06TuningTrouble.PushKeepsMaximal | 2022/rust/src/bin/06.rs:75-92 | dropping up to the last earlier occurrence of the new character and appending it keeps the buffer the longest distinct run ending at the current position |
| Day06TuningTrouble.ScanStep | 2022/rust/src/bin/06.rs:73-93 | a step either makes the buffer `W` long, which is then the answer, or keeps it shorter and still maximal |
| Day06TuningTrouble.Exhausted | 2022/rust/src/bin/06.rs:94-95 | when the input runs out first, the answer is the error |
| Day06TuningTrouble.ShiftDown | 2022/rust/src/bin/06.rs:77-80 | the copy loop moves the characters after the duplicate to the front of the buffer |
| Day06TuningTrouble.ShiftPush | 2022/rust/src/bin/06.rs:74-91 | one call of the closure leaves in the buffer the characters after the last earlier occurrence of the new character, followed by it |
| Day06TuningTrouble.ShiftScan | 2022/rust/src/bin/06.rs:73-93 | one turn of `parse` with the buffer kept as the longest distinct run |
| Day06TuningTrouble.ParseShift | 2022/rust/src/bin/06.rs:67-96 | `parse::<W>` computes the reference `Marker` |
| Day06TuningTrouble.Slot | 2022/rust/src/bin/06.rs:30 | every ring index is below `W` |
| Day06TuningTrouble.RingFind | 2022/rust/src/bin/06.rs:49-58 | the ring walk from `be` back to `bs` stops at the slot of the last occurrence of the character in the live part, or at `bs` when it is absent |
| Day06TuningTrouble.RingAppend | 2022/rust/src/bin/06.rs:59-60 | writing after the newest slot appends to the live part |
| Day06TuningTrouble.RingRestart | 2022/rust/src/bin/06.rs:53-54 | moving `bs` to the duplicate's slot and writing after `be` leaves the characters after the duplicate, then the new one |
| Day06TuningTrouble.RingPush | 2022/rust/src/bin/06.rs:47-62 | one call of `parse_ring`'s closure reports success exactly when the buffer would be `W` long, and otherwise keeps the ring holding the longest distinct run |
| Day06TuningTrouble.RingScan | 2022/rust/src/bin/06.rs:47-62 | one turn of `parse_ring` with the ring kept as the longest distinct run |
| Day06TuningTrouble.ParseRing | 2022/rust/src/bin/06.rs:40-65 | `parse_ring::<W>` computes the same `Marker` as `parse::<W>` |
| Day06TuningTrouble.Part1 | 2022/rust/src/bin/06.rs:98-102 | `part1` is the marker of 4 distinct characters |
| Day06TuningTrouble.Part2 | 2022/rust/src/bin/06.rs:104-108 | `part2` is the marker of 14 distinct characters |
| Day06TuningTrouble.MarkerMonotone | 2022/rust/src/bin/06.rs:98-108 | when the message marker exists, the packet marker exists and comes no later |
| Day07DirectoryTree.ChildWithinParent | 2022/rust/src/bin/07.rs:138-141 | a subdirectory's total never exceeds its parent's |
| Day07DirectoryTree.MinOf | 2022/rust/src/bin/07.rs:142-144 | the running minimum is lowered to the candidate, if there is one, and only to it |
| Day07DirectoryTree.Lowest | 2022/rust/src/bin/07.rs:130-148 | every candidate of the reference minimum lies above the space to free |
| Day07DirectoryTree.NothingAboveBelow | 2022/rust/src/bin/07.rs:138-141 | pruning is sound: below a directory whose total is at most the space to free, no total exceeds it |
| Day07DirectoryTree.CurDir | 2022/rust/src/bin/07.rs:90-93 | the current directory is the last id of the path, or the root 0 when the path is empty |
| Day07DirectoryTree.ApplyKeepsWf | 2022/rust/src/bin/07.rs:60-88 | every command keeps the arena invariant: child ids are in range and above their parent's, path ids are in range, and no memo is set |
| Day07DirectoryTree.CdDownEffect | 2022/rust/src/bin/07.rs:68-82 | `cd` into a known name pushes its id and leaves the arena alone. Into a new name, it appends one empty node at index `len`, maps the name to it in the current directory only, and pushes it |
| Day07DirectoryTree.LsAndCdUpEffect | 2022/rust/src/bin/07.rs:62-86 | `ls` overwrites the current directory's own size and changes nothing else; `cd /` clears the path; `cd ..` pops one id and does nothing at the root |
| Day07DirectoryTree.Replay | 2022/rust/src/bin/07.rs:171-193 | replaying commands on a fresh tree keeps the arena invariant and sets no memo |
| Day07DirectoryTree.NoCacheIsSound | 2022/rust/src/bin/07.rs:95-107 | a tree with no memo set has a sound memo |
| Day07DirectoryTree.Tree.constructor | 2022/rust/src/bin/07.rs:51-57 | a fresh tree holds only an empty root and an empty path |
| Day07DirectoryTree.Tree.HandleCommand | 2022/rust/src/bin/07.rs:60-88 | `handle_command` updates the arena and the path as `Apply` says, keeping the invariant |
| Day07DirectoryTree.Tree.GetTotalSize | 2022/rust/src/bin/07.rs:95-107 | `get_total_size` returns the directory's own size plus its subdirectories' totals, and caches it; it changes no size, child or path, so a repeated call returns the same value |
| Day07DirectoryTree.Tree.SumForPart1 | 2022/rust/src/bin/07.rs:109-124 | `sum_for_part_1` returns the same total, caches it, and sums the totals of at most 100,000 of the directory and everything below it |
| Day07DirectoryTree.Tree.FindMinPart2 | 2022/rust/src/bin/07.rs:130-148 | `find_min_part_2` returns the smaller of `cur_min` and the least total above the space to free among the directories below |
| Day07DirectoryTree.LineBody | 2022/rust/src/bin/07.rs:160 | `is_not("\n")` takes the longest non-empty prefix without a newline, and fails on an empty one |
| Day07DirectoryTree.LsOutput | 2022/rust/src/bin/07.rs:155-169 | `parse_ls_output` consumes no input it did not have |
| Day07DirectoryTree.DirRoundTrip | 2022/rust/src/bin/07.rs:160 | a `dir NAME` line counts 0 |
| Day07DirectoryTree.FileRoundTrip | 2022/rust/src/bin/07.rs:162 | a `SIZE NAME` line counts its size and is not a directory line |
| Day07DirectoryTree.EntryRoundTrip | 2022/rust/src/bin/07.rs:158-164 | each printed entry reads back as its size, directories counting 0 |
| Day07DirectoryTree.ListingRoundTrip | 2022/rust/src/bin/07.rs:155-169 | `parse_ls_output` on a printed listing returns the sum of its file sizes and stops after it |
| Day07DirectoryTree.CdRoundTrip | 2022/rust/src/bin/07.rs:177-184 | `$ cd ARG` reads as the command its trimmed argument names: `/`, `..` or a directory name |
| Day07DirectoryTree.LsRoundTrip | 2022/rust/src/bin/07.rs:185 | `$ ls` and a listing read as `Ls` of the listing's total file size |
| Day07DirectoryTree.CommandsAdvance | 2022/rust/src/bin/07.rs:173-191 | reading one more command extends the commands read so far |
| Day07DirectoryTree.ReplayAdvance | 2022/rust/src/bin/07.rs:190 | handling one more command applies it to the replayed tree |
| Day07DirectoryTree.Parse | 2022/rust/src/bin/07.rs:171-193 | `parse` handles each command as soon as it is read, giving the tree of the whole transcript and the unread rest |
| Day07DirectoryTree.Part1 | 2022/rust/src/bin/07.rs:195-201 | `part1` is the sum of the directory totals of at most 100,000 |
| Day07DirectoryTree.SpaceToFreeCases | 2022/rust/src/bin/07.rs:209-222 | the capacity checks pass exactly when the used space is above 40,000,000 and at most 70,000,000; the space to free is then positive and below the used space, so the third check never fails |
| Day07DirectoryTree.Part2 | 2022/rust/src/bin/07.rs:203-226 | `part2` fails as the capacity checks say, and otherwise returns the least directory total above the space to free, the root's included |
| Day07DirectoryTree.Part2FreesEnough | 2022/rust/src/bin/07.rs:209-224 | deleting the directory part 2 picks frees enough space |
| Day07DirectoryTree.LowestMonotone | 2022/rust/src/bin/07.rs:130-148 | lowering the bound never makes the minimum search find less, nor a larger minimum |
| Day07DirectoryTree.AtLeastNeed | 2022/rust/src/bin/07.rs:136-146 | the intended search, for totals at least the space to free, frees enough and never answers more than the search as written |
| Day07DirectoryTree.ExactFitSkipped | 2022/rust/src/bin/07.rs:138-141 | on a root of 40,000,000 bytes with a 1-byte subdirectory, exactly 1 byte must be freed: the search as written answers 40,000,001, the intended one 1 |
| Day08TreeGrid.ViewDistance | 2022/rust/src/bin/08.rs:70-79 | the viewing distance back along a ray reaches the nearest tree at least as tall, or the start of the ray; it is positive when a tree precedes |
| Day08TreeGrid.RunMax | 2022/rust/src/bin/08.rs:51-56 | the tallest earlier height occurs in the run and no height in it exceeds it |
| Day08TreeGrid.ViewDistanceStep | 2022/rust/src/bin/08.rs:72-78 | after a tree of height `h`, heights up to `h` see 1 and taller ones one more than before |
| Day08TreeGrid.NewProc | 2022/rust/src/bin/08.rs:43-45 | a new processor is in the state of having passed no tree |
| Day08TreeGrid.Reset | 2022/rust/src/bin/08.rs:47-49 | `reset` returns a processor to the state of having passed no tree, in place |
| Day08TreeGrid.RaiseTable | 2022/rust/src/bin/08.rs:72-78 | after a tree of height `h`, table entry `x` is the viewing distance of height `x` back along the ray |
| Day08TreeGrid.Process | 2022/rust/src/bin/08.rs:51-79 | `process` marks or rescores the one tree it is given, as the reference `Effect` says, and advances the processor's state past it |
| Day08TreeGrid.VisProcStep | 2022/rust/src/bin/08.rs:51-56 | `VisProc` marks a tree exactly when it is the first of its ray or taller than every earlier one, never clears a mark, and keeps the running maximum |
| Day08TreeGrid.RayPos | 2022/rust/src/bin/08.rs:94-98 | every tree is the `k`-th of exactly one ray of each direction |
| Day08TreeGrid.RayPosOfCell | 2022/rust/src/bin/08.rs:94-98 | different steps of the rays of one direction reach different trees, so each tree is visited once per direction |
| Day08TreeGrid.EdgeTree | 2022/rust/src/bin/08.rs:71 | a tree on the edge is visible and has scenic score 0 |
| Day08TreeGrid.SweptStep | 2022/rust/src/bin/08.rs:51-79 | passes in different directions combine: one more pass adds its direction, as a logical or for visibility and as one more factor for the score |
| Day08TreeGrid.Visit | 2022/rust/src/bin/08.rs:95-98 | one processor call advances that direction's progress on the current ray |
| Day08TreeGrid.ProcessStep | 2022/rust/src/bin/08.rs:94-99 | one step of the inner loop advances all four processors by one tree |
| Day08TreeGrid.SweepIndex | 2022/rust/src/bin/08.rs:94-99 | the inner loop walks all four rays of the index to their ends |
| Day08TreeGrid.SweepRound | 2022/rust/src/bin/08.rs:88-100 | one turn of the outer loop resets the four processors and completes the rays of that index |
| Day08TreeGrid.ProcessGrid | 2022/rust/src/bin/08.rs:82-101 | on a square grid, `process` leaves every tree marked visible exactly when it is visible from some side, or with its score multiplied by its scenic score |
| Day08TreeGrid.SweptAll | 2022/rust/src/bin/08.rs:82-101 | passed from all four sides, a tree has had all it gets from the sweep |
| Day08TreeGrid.Parse | 2022/rust/src/bin/08.rs:18-32 | `parse` succeeds exactly when every character of the trimmed input's lines is a digit. It then builds one unmarked tree of score 1 per character, and otherwise fails with "Incorrect input" |
| Day08TreeGrid.InBoundsIffSquare | 2022/rust/src/bin/08.rs:87-98 | when the first and last rows are not empty, `process` stays in bounds exactly when the grid is square |
| Day08TreeGrid.RowsEnds | 2022/rust/src/bin/08.rs:20 | the trimmed input never gives an empty first or last row |
| Day08TreeGrid.PlantedGrid | 2022/rust/src/bin/08.rs:18-32 | the parsed grid passes `process`'s bounds exactly when the input describes a square grid |
| Day08TreeGrid.Sweep | 2022/rust/src/bin/08.rs:103-119 | parsing then processing fails with the parse error, ends in the index panic on a non-square grid, and otherwise gives every tree its outcome |
| Day08TreeGrid.FlattenMembers | 2022/rust/src/bin/08.rs:108-109 | the flattened grid holds every tree of the grid and nothing else |
| Day08TreeGrid.CountVisible | 2022/rust/src/bin/08.rs:110-111 | the visibility count is at most the number of trees |
| Day08TreeGrid.VisibleOfGrid | 2022/rust/src/bin/08.rs:108-111 | summing the marks of the swept grid counts exactly the trees visible from outside |
| Day08TreeGrid.MaxScore | 2022/rust/src/bin/08.rs:122-124 | the maximum is absent exactly for no trees, and is a score no other tree's exceeds |
| Day08TreeGrid.BestOfGrid | 2022/rust/src/bin/08.rs:120-124 | the maximum over the swept grid is the highest scenic score, and is absent exactly for the empty grid |
| Day08TreeGrid.Part1 | 2022/rust/src/bin/08.rs:103-112 | `part1` is the number of trees visible from outside the grid |
| Day08TreeGrid.Part2 | 2022/rust/src/bin/08.rs:114-125 | `part2` is the highest scenic score, failing with "No max??" on the empty grid |
| ExtraItertools.MapOkRes | 2022/rust/src/extra_itertools.rs:18-24 | the adapter yields one item per inner item |
| ExtraItertools.MapOkResPointwise | 2022/rust/src/extra_itertools.rs:18-24 | item `k` is `f(v)` for an inner `Ok(v)` and `Err(e)` for an inner `Err(e)` |
| ExtraItertools.MapOkResAppend | 2022/rust/src/extra_itertools.rs:19-23 | mapping a concatenation maps each part, so an error does not stop the items after it |
| ExtraItertools.FilterMapOkRes | 2022/rust/src/extra_itertools.rs:44-56 | the adapter yields no more items than the inner iterator |
| ExtraItertools.FilterMapOkResAppend | 2022/rust/src/extra_itertools.rs:47-53 | filter-mapping a concatenation filter-maps each part, so an error does not stop the items after it |
| ExtraItertools.FilterIsMapThenDrop | 2022/rust/src/extra_itertools.rs:44-56 | `filter_map_ok_res(f)` is `map_ok_res(f)` with the `Ok(None)` items dropped and the `Ok(Some(x))` ones unwrapped, in order |
| ExtraItertools.FilterMapOkResErrors | 2022/rust/src/extra_itertools.rs:44-56 | no inner error is lost, and the `Ok` items plus the inner errors are no more than the inner items |
| ExtraItertools.MapOkResIter.constructor | 2022/rust/src/extra_itertools.rs:61-67 | `map_ok_res` wraps the iterator and the function and consumes nothing |
| ExtraItertools.MapOkResIter.Next | 2022/rust/src/extra_itertools.rs:18-24 | `next` yields the adapter's first item and consumes exactly one inner item, or yields nothing at the end |
| ExtraItertools.FilterMapOkResIter.constructor | 2022/rust/src/extra_itertools.rs:70-76 | `filter_map_ok_res` wraps the iterator and the function and consumes nothing |
| ExtraItertools.FilterMapOkResIter.Next | 2022/rust/src/extra_itertools.rs:44-56 | `next` skips the dropped items and yields the adapter's first item, or nothing once the inner items run out |
| ExtraItertools.CollectMapOkRes | 2022/rust/src/extra_itertools.rs:18-24 | calling `next` until it yields nothing collects exactly what `MapOkRes` says |
| ExtraItertools.CollectFilterMapOkRes | 2022/rust/src/extra_itertools.rs:44-56 | calling `next` until it yields nothing collects exactly what `FilterMapOkRes` says |

## Left out

- Reading files (`open`, `BufReader`, `read_to_string`, `lines()` over a
  reader) is not modelled. Each solver takes the lines or the text as a
  parameter, so the "Failed to read line" errors and the `?` on I/O have no
  counterpart. `lib.rs` (`data_dir`, `open`) is not part of this model.
- ExtraItertools.MapOkRes, FilterMapOkRes: the source's `f` is an `FnMut`
  closure, which may keep state between calls. The model takes `f` as a
  pure function, so a closure whose results depend on earlier calls is not
  captured.
- Integers are unbounded. The `u64`/`usize` sums and counters of every day
  (and the `u32` line counter of day 3) are not checked for overflow. Only
  parsing a number checks the 64-bit range, as `str::parse` does.
- Day 1's `parse` takes its callback as a closure. The model collects the
  emitted sums and then runs the callback's step over them in order, which
  computes the same thing.
- Day01Calories.Part1: the "No elves in data" error cannot occur (see
  `AlwaysOneGroup`), so its contract states only the success case.
- Day 2 and day 4 take each solver's closure as a function parameter
  (`Game`, `Policy`). Day 4's `parse` also takes the line reader as a
  parameter (`Reader`), and its parts pass `ParseLine`.
- Day 3 keeps a `u64` bitmask as the set of its bit positions. `OneBitMasks`
  justifies this, since every priority is below 64.
- Day 3's `part1` runs each line through the function `Rucksack`, whose
  mask and scan are the functions `Items` and `FirstShared`. The loops over
  a line's characters are the methods `CollectItems` and `FindShared`, which
  `part2`'s loop calls.
- Day 3's `split_at` on a byte index inside a multi-byte character panics in
  Rust; the model returns the panic message as an error.
- Day 4's regular expression is modelled as an unanchored search for the
  shape `a-b,c-d`. `\d` is taken to be an ASCII digit; the regex crate's
  Unicode digits are not modelled.
- Day 5's and day 7's nom errors are not rendered. Day 5 fails with the
  fixed prefix "Parse error:\n" whatever the trace. Day 5's "Line wider than
  base" error goes through the same `map_res` and so also ends as the
  parse error.
- Day05CrateYard.Step: `from - 1` with `from == 0` underflows a `usize`.
  A release build wraps it to an index past the last stack and reports
  "wrong 'from'", which is what the model does; a debug build panics
  instead. A `to` of 0 likewise gives "wrong 'to'".
- Day 6's `parse_ring_unsafe` is the text of `parse_ring` with unchecked
  indexing. It is modelled once, as `ParseRing`, whose ring indices are
  proved to be below `W`.
- Day06TuningTrouble.ParseShift, ParseRing: require `W >= 1`. The source
  uses 4 and 14, and a ring of 0 slots would divide by zero.
- Day 7's `Cell` memo is an `Option` field of each node. `HashMap` iteration
  order is not modelled; the sums and minimums are proved independent of it.
  The caller's `finish` is defined outside this model. `Parse` therefore
  returns the unread rest of the transcript instead of rejecting it, and
  `Part1`/`Part2` ignore that rest.
- Day 8's grid is an `array2`, so `process` is modelled on square grids. On
  any other grid the source indexes out of bounds (`InBoundsIffSquare`); the
  model's `Part1`/`Part2` return an "index out of bounds" error there.
- Sample answers are proved where the puzzle's published example is small:
  days 2, 4 and 5. The examples of days 1, 3, 6, 7 and 8 (the `test.txt`
  files and the marker strings in 06.rs's tests) are not evaluated. The
  `*_regression` tests need the author's input files, which are not part of
  this model.

## Findings

| source | as written | input that shows it | evidently intended | confidence | as-written member | corrected member |
|---|---|---|---|---|---|---|
| 2022/rust/src/bin/07.rs:138 | `find_min_part_2` skips a directory whose total is `<= space_to_free`, so one that frees exactly the space needed is never chosen | a root with 40,000,000 bytes of files and one subdirectory holding a 1-byte file: 1 byte must be freed, the subdirectory frees it, and part 2 answers 40,000,001 | skip only totals below `space_to_free`, and answer 1 | medium; not executed | Day07DirectoryTree.ExactFitSkipped | Day07DirectoryTree.AtLeastNeed |

`Part2` keeps the search as written, since it models `part2` itself;
`AtLeastNeed` is the answer the puzzle asks for, and `ExactFitSkipped`
shows the two differ.
