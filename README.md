# Advent of Code 2018, days 2 and 4 to 9, modelled in Dafny

This project models the puzzle logic of a Rust solution set for Advent of Code 2018 and proves properties of it. It covers seven puzzles. Each one gets its own module:

- `BoxIds` (day 2, "Inventory Management System"):
  - the letters two box IDs have in common;
  - the search for the two IDs that differ in one letter;
  - the double/triple letter classification behind the checksum.
- `GuardNaps` (day 4, "Repose Record"):
  - parsing and ordering timestamps;
  - the stable sort of the event log;
  - replaying the log into a map from guard to naps;
  - total nap time;
  - the 60-slot minute histogram;
  - the choice of the sleepiest guard.
- `Polymer` (day 5, "Alchemical Reduction"):
  - which units react;
  - one left-to-right pass of reactions;
  - the chain of passes repeated until the length stops changing.
- `ChronalCoordinates` (day 6, "Chronal Coordinates"):
  - Manhattan distance;
  - the uniquely closest position;
  - the grid of closest positions over the bounding box.
- `StepScheduler` (day 7, "The Sum of Its Parts"):
  - the constraint-line parser;
  - the prerequisite map;
  - the `Steps` scheduler, which completes the alphabetically least ready step at each round;
  - the driver loop that yields the step order.
- `LicenseTree` (day 8, "Memory Maneuver"):
  - the recursive-descent node grammar over the number stream;
  - its inverse encoding;
  - the metadata checksum.
- `MarbleMania` (day 9, "Marble Mania"):
  - the marble circle object, updated one turn at a time;
  - the game driver that credits each turn's score to the players in rotation.

`Wrappers` holds the `Option` type that the Rust code returns, plus one sequence fact.

The model follows the shape of the code:
- State changed in place becomes imperative Dafny:
  - the `Steps` and `MarbleCircle` objects are classes;
  - the loops of `calc_naps`, `most_common_minute`, `react_single_letter`, `closest`, `create_grid`, `generate_prereq_map`, `find_one_letter_off` and the day 2 counting are methods with loop invariants.
- Each such method is proved against a specification function. The lemmas state what the puzzle promises about that function.
- Recursive and expression-shaped code becomes functions and lemmas, such as the day 8 grammar and `keep_common_letters`.

The puzzles' own worked examples, as written in the unit tests, are proved as lemmas. Day 4's example replays the full 17-event log of its unit test, given as parsed events, through `CalcNaps` and derives the answers 10, 50 and 24 from the map it builds. Day 7's example uses the seven constraints of the published puzzle text, because the example input file is not part of this model.

## Model

| member | source | states |
|---|---|---|
| BoxIds.KeepCommonLetters | src/day02/mod.rs:6-16 | the common letters are never longer than either ID |
| BoxIds.AgreeingPositionsExact | src/day02/mod.rs:6-16 | the listed positions are exactly those below the bound where both IDs agree, in strictly ascending order |
| BoxIds.KeepCommonLettersAgrees | src/day02/mod.rs:6-16 | the common letters are the letters of the first ID at the agreeing positions within the shorter length, in order (zip stops at the shorter ID) |
| BoxIds.KeepCommonLettersSelf | src/day02/mod.rs:60-63 | an ID keeps all of its letters against itself ("abc" with "abc" gives "abc") |
| BoxIds.KeepCommonLettersSymmetric | src/day02/mod.rs:6-16 | swapping the two IDs does not change the common letters |
| BoxIds.KeepCommonLettersFull | src/day02/mod.rs:6-16 | nothing is dropped exactly when the two IDs agree on their whole common length |
| BoxIds.KeepCommonLettersExample | src/day02/mod.rs:60-68 | "abc" and "azc" have "ac" in common, and "abc" keeps "abc" against itself |
| BoxIds.FindOneLetterOff | src/day02/mod.rs:18-28 | `None` exactly when no pair (i, j) with i <= j is one letter off; otherwise the common letters of the first such pair in search order |
| BoxIds.Classify | src/day02/mod.rs:36-51 | the two flags are set exactly when some letter occurs exactly twice, or exactly three times |
| BoxIds.CountHaving | src/day02/mod.rs:53-54 | the count of IDs with a given letter multiplicity is at most the number of IDs |
| BoxIds.CountTwosAndThrees | src/day02/mod.rs:30-55 | the two counters equal the number of IDs with a doubled letter and with a tripled letter |
| GuardNaps.LessEqIsTotalOrder | src/day04/mod.rs:8-15 | the derived field-by-field ordering of timestamps is reflexive, antisymmetric, transitive and total |
| GuardNaps.ParseUnsigned | src/day04/mod.rs:17-25 | a parsed number is below the integer type's bound (u16 or u8) |
| GuardNaps.ParsePad2 | src/day04/mod.rs:22-25 | a two-digit zero-padded number parses back to itself |
| GuardNaps.ParsePad4 | src/day04/mod.rs:17-20 | a four-digit zero-padded number parses back to itself |
| GuardNaps.ParseDateTime | src/day04/mod.rs:27-41 | a timestamp is read only from at least 16 characters with '-', '-', ' ' and ':' at the separator places; its fields fit four and two digits, and the rest is exactly what follows the 16 characters |
| GuardNaps.ParseRender | src/day04/mod.rs:27-41 | the text "YYYY-MM-DD hh:mm" of any timestamp parses back to it, leaving what follows |
| GuardNaps.ParseExample | src/day04/mod.rs:153-168 | "1518-07-31 00:54" parses to 31 July 1518, 00:54 |
| GuardNaps.InsertAdds | src/day04/mod.rs:101 | insertion adds exactly one event: the length grows by one and the multiset gains the event |
| GuardNaps.InsertKeepsSorted | src/day04/mod.rs:101 | inserting into a sorted log keeps it sorted |
| GuardNaps.SortByDateTime | src/day04/mod.rs:101 | the sorted log is in timestamp order and is a permutation of the input |
| GuardNaps.SortKeepsSorted | src/day04/mod.rs:101 | sorting a log that is already in order returns it unchanged |
| GuardNaps.Nap.Duration | src/day04/mod.rs:93-97 | for a nap whose end is not before its start, start plus duration is the end |
| GuardNaps.WakeUps | src/day04/mod.rs:110-121 | every listed wake-up index is among the events replayed so far |
| GuardNaps.WakeUpsMembers | src/day04/mod.rs:110-121 | an index is listed exactly when that event is a wake-up during the given guard's shift |
| GuardNaps.WakeUpsAscending | src/day04/mod.rs:110-121 | the wake-ups are listed in strictly ascending order |
| GuardNaps.NapsFromWakeUps | src/day04/mod.rs:108-121 | a guard has one nap per wake-up on its shifts; nap n runs from the latest fall-asleep minute before wake-up n to that wake-up's minute |
| GuardNaps.NapsChronological | src/day04/mod.rs:101-121 | on the sorted log, each guard's naps are stored in chronological order of their wake-ups |
| GuardNaps.CalcNaps | src/day04/mod.rs:99-124 | given a log whose earliest event is a shift start, the returned map holds, for every guard, exactly the naps the sorted log closes on its shifts |
| GuardNaps.ReplayWakeUp | src/day04/mod.rs:112-117 | a wake-up appends one nap to the list of the guard on duty, creating the entry if needed |
| GuardNaps.ReplayOther | src/day04/mod.rs:118-119 | falling asleep and starting a shift close no nap |
| GuardNaps.MostCommonMinute | src/day04/mod.rs:136-146 | the result is a minute of the hour covered by the most naps, and the last such minute, which is the tie winner of `max_by_key` |
| GuardNaps.TotalNapTime | src/day04/mod.rs:131-134 | the total is at least the duration of every single nap |
| GuardNaps.NoNapTimeIffEmptyNaps | src/day04/mod.rs:131-134 | the total is zero exactly when every nap is empty |
| GuardNaps.TotalIsHistogramSum | src/day04/mod.rs:131-143 | the total nap time equals the sum of the 60 histogram counts |
| GuardNaps.MostTimeNapping | src/day04/mod.rs:126-129 | the chosen guard is in the entries and has a total nap time no smaller than any other entry's |
| GuardNaps.MostTimeNappingOfMap | src/day04/mod.rs:126-129 | in any iteration order of the map, the chosen guard has a maximal total among all guards |
| GuardNaps.ExampleLogKeepsOrder | src/day04/mod.rs:222-238 | the 17 events of the example log are already in timestamp order, so sorting returns them unchanged |
| GuardNaps.ExampleLogNaps | src/day04/mod.rs:222-238 | replaying all 17 example events closes the naps 5-25, 30-55 and 24-29 for guard 10, the naps 40-50, 36-46 and 45-55 for guard 99, and none for any other guard |
| GuardNaps.CalcNapsExample | src/day04/mod.rs:220-243 | the map `CalcNaps` builds from the 17-event example log is exactly guard 10 with its three naps and guard 99 with its three naps |
| GuardNaps.Part1Example | src/day04/mod.rs:219-253 | on the map built from the 17-event log, in any iteration order, guard 10 naps the most, for 50 minutes, and 24 is the only minute that can be its most common |
| GuardNaps.ExamplePipeline | src/day04/mod.rs:243-252 | building the map from the 17-event log, then taking guard 10's total nap time and most common minute, gives 50 and 24 |
| Polymer.WillReactSingleLetter | src/day05/mod.rs:6-12 | two units react exactly when the first is an ASCII letter and the second is that letter in the other case, and, under a single-letter reaction, the letter is the chosen one in either case |
| Polymer.WillReact | src/day05/mod.rs:14-16 | under any reaction, a letter reacts with itself in the other case and with nothing else |
| Polymer.WillReactSymmetric | src/day05/mod.rs:6-12 | reacting does not depend on the order of the two units |
| Polymer.WillReactExamples | src/day05/mod.rs:72-80 | 'A' and 'a' react; 'a' and 'b' do not |
| Polymer.ScanShape | src/day05/mod.rs:24-40 | a scan keeps a subsequence, drops units in pairs, and keeps everything exactly when no neighbours react |
| Polymer.PassShape | src/day05/mod.rs:18-43 | one pass keeps a subsequence shorter by an even count (except a lone unit); it keeps the length exactly when the polymer is inert and longer than one unit, and then returns its input |
| Polymer.PassOfOneUnit | src/day05/mod.rs:26-39 | a one-unit polymer does not survive a pass |
| Polymer.ReactSingleLetter | src/day05/mod.rs:18-43 | the loop computes one pass |
| Polymer.React | src/day05/mod.rs:45-47 | `react` is a pass under any reaction |
| Polymer.ScanAppend | src/day05/mod.rs:24-40 | when nothing reacts across a cut, scanning the whole equals scanning the parts |
| Polymer.PassExamples | src/day05/mod.rs:82-120 | the unit tests of a single pass where nothing or everything reacts |
| Polymer.PassExamplesOnePair | src/day05/mod.rs:82-120 | the unit tests of a single pass where one pair reacts |
| Polymer.ChainReactSingleLetter | src/day05/mod.rs:49-59 | the recursive driver computes the chain of passes |
| Polymer.ChainReact | src/day05/mod.rs:61-63 | `chain_react` is the chain under any reaction |
| Polymer.ChainSettles | src/day05/mod.rs:49-59 | the chain's result is inert and a subsequence of the input, and a further pass leaves it unchanged |
| Polymer.ChainExample | src/day05/mod.rs:122-125 | "dabAcCaCBAcCcaDA" reacts to "dabCBAcaDA" |
| Polymer.ChainExample2 | src/day05/mod.rs:127-130 | "hHsSmMHhhHwWlLojYCclLy" reacts to "oj" |
| Polymer.FullyReactedSettles | src/day05/mod.rs:49-59 | the corrected reaction is inert, a subsequence of the input, shorter by an even count, and stable under a scan |
| Polymer.ChainVersusFullyReacted | src/day05/mod.rs:49-59 | the chain as written equals the corrected reaction, except that it returns "" when the corrected result is one unit |
| Polymer.ChainDropsLastUnit | src/day05/mod.rs:38-39 | the chain as written turns "aAb" into "" |
| ChronalCoordinates.Position.DistanceFrom | src/day06/mod.rs:32-37 | the distance is zero exactly from a position to itself, and at most 2 * 65535, so the cast to `u32` keeps it |
| ChronalCoordinates.DistanceIsMetric | src/day06/mod.rs:32-37 | the distance is zero only between equal positions, is symmetric, and obeys the triangle inequality |
| ChronalCoordinates.DistanceExamples | src/day06/mod.rs:122-146 | distance from (1, 2) to itself is 0; from (0, 0) to (1, 1) it is 2 |
| ChronalCoordinates.ClosestAnswerUnique | src/day06/mod.rs:45-75 | at most one answer meets the closest-position specification |
| ChronalCoordinates.Closest | src/day06/mod.rs:45-75 | returns the position strictly closer than every other entry; `None` when the smallest distance is shared or the list is empty |
| ChronalCoordinates.TieHasNoWinner | src/day06/mod.rs:58-59 | two entries at the smallest distance leave no entry uniquely closest |
| ChronalCoordinates.ClosestTwoPointsExample | src/day06/mod.rs:148-165 | from (5, 6), of (1, 2) and (3, 4), the closest is (3, 4) |
| ChronalCoordinates.FoldMax | src/day06/mod.rs:78-84 | the fold bounds every entry componentwise, and each component comes from the start or from some entry |
| ChronalCoordinates.CreateGrid | src/day06/mod.rs:77-98 | the grid has a row for each y up to the largest y and a cell for each x up to the largest x; every cell holds its closest position |
| ChronalCoordinates.GridExample | src/day06/mod.rs:167-190 | the grid of (0, 0) and (1, 1) holds each position in its own cell and ties in the other two |
| StepScheduler.ParsePrereq | src/day07/mod.rs:16-26 | a parsed line is the constraint line of the returned pair, followed by the rest |
| StepScheduler.ParseRender | src/day07/mod.rs:16-26 | every constraint line parses back to its own (step, prerequisite) pair |
| StepScheduler.ParseExampleLine | src/day07/mod.rs:103-110 | "Step C must be finished before step A can begin." gives step A with prerequisite C |
| StepScheduler.MentionedIff | src/day07/mod.rs:74-79 | a step is mentioned exactly when it is one side of some pair |
| StepScheduler.PrereqsOfIff | src/day07/mod.rs:74-79 | p is listed for s exactly when (s, p) is an input pair |
| StepScheduler.PrereqsOfUnmentioned | src/day07/mod.rs:78 | a step met only as a prerequisite gets an empty list |
| StepScheduler.GeneratePrereqMap | src/day07/mod.rs:71-82 | the keys are exactly the steps mentioned on either side, and each key maps to its prerequisites in input order |
| StepScheduler.PrereqMapClosed | src/day07/mod.rs:71-82 | every prerequisite in the map is itself a key |
| StepScheduler.Least | src/day07/mod.rs:61-63 | the minimum of a non-empty set of steps is in it and below all of it |
| StepScheduler.SelectStep | src/day07/mod.rs:49-68 | `None` exactly when no uncompleted step has all prerequisites completed; otherwise the least such step |
| StepScheduler.Steps.constructor | src/day07/mod.rs:40-45 | a new scheduler has the given graph and nothing completed |
| StepScheduler.Steps.PerformStep | src/day07/mod.rs:49-68 | returns the selected step and adds it, and only it, to the completed set; the graph is unchanged |
| StepScheduler.RunSchedule | src/day07/mod.rs:88-95 | the driver loop collects the schedule from the empty completed set |
| StepScheduler.Part1 | src/day07/mod.rs:84-96 | part one on parsed pairs is the schedule of their prerequisite map |
| StepScheduler.ScheduleRounds | src/day07/mod.rs:91-93 | each step of the order is what `perform_step` selects after the earlier ones, and after the last one it selects nothing |
| StepScheduler.ScheduleValid | src/day07/mod.rs:49-68 | the order lists distinct uncompleted keys, and every prerequisite of a step comes earlier or was already completed |
| StepScheduler.ScheduleStops | src/day07/mod.rs:91-93 | when the loop stops, every remaining step has an uncompleted prerequisite |
| StepScheduler.ScheduleLength | src/day07/mod.rs:91-93 | the loop runs at most once per step |
| StepScheduler.ScheduleComplete | src/day07/mod.rs:84-96 | on an acyclic graph closed under prerequisites, the order lists every step exactly once |
| StepScheduler.ExampleMentioned | src/day07/mod.rs:112-123 | the example constraints mention steps A to F |
| StepScheduler.ExamplePrereqsOf | src/day07/mod.rs:112-123 | in the example, A waits for C and C waits for nothing (and so on for every step) |
| StepScheduler.ExampleSchedule | src/day07/mod.rs:131-135 | the example graph schedules as "CABDFE" |
| StepScheduler.ExamplePart1 | src/day07/mod.rs:131-135 | part one on the example constraints gives "CABDFE" |
| StepScheduler.PrerequisiteOnlyScheduled | src/day07/mod.rs:78 | a step named only as a prerequisite is still scheduled |
| StepScheduler.CycleScheduleEmpty | src/day07/mod.rs:49-68 | on a two-step cycle nothing is ever selected |
| LicenseTree.ParseNode | src/day08/mod.rs:21-31 | a parsed node has as many children and metadata entries as its header says, and consumes at least its header |
| LicenseTree.ParseChildren | src/day08/mod.rs:27 | reading `count` children gives exactly `count` nodes |
| LicenseTree.ParseEncode | src/day08/mod.rs:21-31 | reading the encoding of any tree gives the tree back, whatever follows |
| LicenseTree.ParseIsEncoding | src/day08/mod.rs:21-31 | a successful read consumes exactly the encoding of the tree it returns |
| LicenseTree.SumMetadata | src/day08/mod.rs:33-39 | the checksum is the sum of the metadata of every node of the tree, listed by a separate flattening of the tree |
| LicenseTree.LeafExample | src/day08/mod.rs:46-55 | "0 3 10 11 12" is a leaf with metadata 10, 11, 12 |
| LicenseTree.NestedExample | src/day08/mod.rs:57-74 | "1 1 0 1 99 2" is a root with metadata 2 over a leaf with 99, with checksum 101 |
| MarbleMania.ScoredQuotient | src/day09/mod.rs:22 | the number of scoring turns among the first n is n divided by 23 |
| MarbleMania.ScoringCircleSize | src/day09/mod.rs:23-28 | on a scoring turn the circle holds at least 23 marbles, so the removal index is in range |
| MarbleMania.InsertKeepsValid | src/day09/mod.rs:33-45 | a quiet turn keeps the circle invariant: the size is fixed by the last value, the current index stays in range, and the marbles are distinct values already placed |
| MarbleMania.RemoveKeepsValid | src/day09/mod.rs:22-32 | a scoring turn keeps the circle invariant |
| MarbleMania.Place | src/day09/mod.rs:20-51 | on any circle a turn either leaves the circle alone or places the next value; a turn that changes the circle removes one marble on a multiple of 23 and adds one otherwise; a turn scores exactly when it is a multiple of 23 that changes the circle |
| MarbleMania.PlaceSpec | src/day09/mod.rs:20-51 | a turn inserts the next marble two places clockwise and scores 0, or, on a multiple of 23, removes the marble seven places counter-clockwise and scores both |
| MarbleMania.MarbleCircle.constructor | src/day09/mod.rs:11-17 | a new circle holds only marble 0, which is current, with 0 as the last value placed |
| MarbleMania.MarbleCircle.PlaceNextMarble | src/day09/mod.rs:20-51 | the object's new state and the returned score are those of one turn on its old state; the invariant is kept |
| MarbleMania.PlaceManyValid | src/day09/mod.rs:58-61 | any number of turns keeps the circle valid and places one marble each |
| MarbleMania.Max | src/day09/mod.rs:63 | the maximum is an element and bounds every element |
| MarbleMania.CreditPlayer | src/day09/mod.rs:57-60 | after k turns it is player k mod n's turn |
| MarbleMania.CreditConserves | src/day09/mod.rs:58-61 | the players' totals add up to the sum of the turn scores |
| MarbleMania.CreditAtLeast | src/day09/mod.rs:58-61 | the score of turn j counts towards player j mod n |
| MarbleMania.Part1 | src/day09/mod.rs:54-64 | the result is the largest of the players' totals after the given number of turns |
| MarbleMania.FirstTurns | src/day09/mod.rs:80-101 | the first three turns give [0, 1], [0, 2, 1] and [0, 2, 1, 3] and score nothing |
| MarbleMania.TwentyThirdTurn | src/day09/mod.rs:103-119 | turn 23 scores 32 and leaves the circle of the unit test with index 6 current |
| MarbleMania.ExampleScores | src/day09/mod.rs:121-124 | of the first 25 turns, only turn 23 scores, and it scores 32 |
| MarbleMania.Part1Example | src/day09/mod.rs:121-124 | 9 players and 25 marbles give a high score of 32 |

## Left out

- Days 1 and 3 are not part of this model. Neither are the day 5 part two solution and the unit tests that read puzzle input files (their expected answers depend on files that are not part of this model, such as the day 8 example with checksum 138).
- The nom combinator parsers are modelled as plain functions only where their grammar is the subject: the day 4 timestamp, the day 7 constraint line and the day 8 node grammar. The day 4 action/event/line-list parsers, the day 6 position parser and the day 7 line-list parser are left out; those models take already-parsed events, positions and pairs.
- The day 8 model reads a sequence of 16-bit numbers. The whitespace tokenising and the overflow failure of `take_u16` on a too-large number are left out.
- Input is given as sequences of lines or values. `str::lines`, file reads and printing are left out.
- `HashMap` and `HashSet` iteration order is not modelled. The day 4 map is read through an explicit sequence of its entries in an arbitrary order, and the tie winner among equally sleepy guards is left unspecified. Day 7 takes the least step, which does not depend on order.
- GuardNaps.TotalNapTime: the `u16` accumulator is an unbounded natural, so its overflow is not modelled; the `u32` histogram counts and `u8` minutes are unbounded naturals likewise.
- GuardNaps.Nap.Duration: requires a valid nap (end not before start) instead of modelling the `u8` subtraction panic.
- GuardNaps.CalcNaps: requires the earliest event to start a shift, where the source panics. The `unwrap` panic on an empty log is likewise a precondition.
- GuardNaps.SortByDateTime: the stability of `sort_by` is not stated; the contract is sortedness plus permutation.
- GuardNaps.MostCommonMinute: requires every nap to lie within the hour (where an out-of-range index would panic). The `u8` cast of the result is not modelled.
- GuardNaps.MostTimeNapping: requires a non-empty map, where `unwrap` would panic on an empty one.
- MarbleMania.PlaceSpec: holds for valid circles only. `Place` returns a fixed fallback on circles no game can reach, where the source's `remove`/`insert` would panic.
- MarbleMania.Part1: requires at least one player, where the source's `% players.len()` would panic. The `u64` scores and `usize`/`i64` indices are unbounded integers.
- LicenseTree.SumMetadata: the checksum is an unbounded natural rather than a `u64`.
- Text is a sequence of characters. Day 2 compares byte lengths (`len()`) with character counts, which agree on the ASCII IDs the puzzle uses; the model counts characters.
- StepScheduler: the driver loop has no cycle detection in the source. The model proves that the order is complete on acyclic graphs, and CycleScheduleEmpty shows what happens on a cycle.

## Findings

| source | as written | input that shows it | evidently intended | confidence | as-written member | corrected member |
|---|---|---|---|---|---|---|
| src/day05/mod.rs:18-59 | a pass drops a lone remaining unit (its loop never runs when one unit is left, and the result is empty), and the chain keeps passing while the length changes, so a polymer that reduces to one unit ends as "" | "aAb": the first pass gives "b", the next gives "", so `chain_react("aAb")` is "" | the fully reacted polymer "b" (a single unit cannot react) | not executed | Polymer.ChainDropsLastUnit | Polymer.FullyReactedSettles |
