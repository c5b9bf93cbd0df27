# Advent of Code 2022 solvers, modelled in Dafny

This project models the puzzle solvers of a Rust Advent of Code 2022 repository
(`src/bin/NN.rs`, one binary per day) and proves properties of the model. Each
solver becomes one Dafny module `DayNN` in `dayNN.dfy` (`07b.rs` becomes `Day07b`).
Shared pieces have modules of their own:

- `Wrappers`: `Option` and `Result`.
- `Modular`: facts about `%` and `/` with a variable divisor.
- `Text`: the string operations the parsers use: `split`, `trim`, `split_whitespace`,
  decimal parsing, and parsing an input line by line.
- `Sets`: least and greatest members, subset cardinality, injective maps and
  order-free sums over finite sets.
- `Seqs`: reversal, sums, extremes and duplicate removal for sequences.

Puzzle input reaches each solver as its sequence of lines, or as the whole text where
the solver splits it itself. Where a solver mutates
state in loops, the model is a method with loop invariants, proved against a
function that specifies it. Where the solver only computes a value, the model is a
function, and lemmas state what the value means. A panic in the source is an
explicit error value in the model. Where the source would loop forever, the model
returns an explicit "no progress" outcome.

## Model

| member | source | states |
|---|---|---|
| `Text.Split` | src/bin/10.rs:20 | `str::split(c)`: the pieces between the occurrences of `c`, at least one and none holding `c`; `JoinSplit` and `SplitJoin` make it the inverse of joining with `c` |
| `Text.Trim` | src/bin/14.rs:13 | `str::trim`: the input less its leading and trailing whitespace; `TrimShape` proves that exactly that prefix and suffix go |
| `Text.SplitOn` | src/bin/01.rs:2 | `str::split(&str)`: the pieces between the non-overlapping occurrences of the separator, found left to right, at least one; `JoinSplitOn` makes joining them the inverse |
| `Text.ParseSigned` | src/bin/10.rs:23 | `i32::from_str`: an optional `+` or `-` and at least one decimal digit, accepted only inside the type's bounds, which the contract guarantees of every result |
| `Text.JoinSplit` | src/bin/21.rs:43-45 | joining the pieces of `split(c)` with `c` gives back the input |
| `Text.SplitJoin` | src/bin/21.rs:43-45 | pieces that do not contain `c` are recovered exactly by splitting their join |
| `Text.TrimShape` | src/bin/21.rs:44-45 | `trim` removes a whitespace-only prefix and suffix and nothing else; the result neither starts nor ends with whitespace |
| `Text.Words` | src/bin/21.rs:49-52 | every word of `split_whitespace` is non-empty and holds no whitespace |
| `Text.WordsKeepVisible` | src/bin/21.rs:49-52 | the words, concatenated, are exactly the non-whitespace characters of the input, in order |
| `Text.ParseUnsigned` | src/bin/21.rs:46 | a successful unsigned parse yields a value below the type's bound |
| `Text.DecimalRoundTrip` | src/bin/21.rs:46 | parsing the decimal digits of any n below the bound gives back n |
| `Text.Lines` | src/bin/05.rs:26 | `lines()` yields newline-free pieces that, joined with newlines, give back the input less at most one final newline |
| `Text.WordsOfTwo` | src/bin/02.rs:127-129 | two words joined by one space split back into exactly those two words |
| `Day01.Parse` | src/bin/01.rs:1-12 | `parse`: the total of each blank-line-separated group, in order, or `None` where a count fails its `unwrap`; `ParseSpec` states this element by element |
| `Day01.BadCount` | src/bin/01.rs:6-8 | a word of a group that is not a count below 2^32 makes the group fail, as `unwrap` panics on it |
| `Day01.BlankGroup` | src/bin/01.rs:6-8 | a group holding only whitespace has no words and totals 0 |
| `Day01.GroupRoundTrip` | src/bin/01.rs:5-9 | counts below 2^32 written one per line parse back to a group whose total is their sum |
| `Day01.ParseSpec` | src/bin/01.rs:1-12 | the input parses exactly when every group between blank lines has a total; then there is one total per group, in the groups' order, and at least one |
| `Day01.PartOne` | src/bin/01.rs:14-17 | part one answers exactly when the input parses, and its answer is one of the totals and no total exceeds it |
| `Day01.Sort` | src/bin/01.rs:22 | `Vec::sort` as an insertion sort of the same length; `SortAscending` and `SortMultiset` prove it orders the totals and keeps them as a multiset |
| `Day01.SortAscending` | src/bin/01.rs:22 | sorting leaves the totals in ascending order |
| `Day01.SortMultiset` | src/bin/01.rs:22 | sorting keeps every total as often as it occurs |
| `Day01.ReverseAscending` | src/bin/01.rs:23 | reversing an ascending sequence gives a descending one |
| `Day01.ReverseMultiset` | src/bin/01.rs:23 | reversing keeps every element as often as it occurs |
| `Day01.Kept` | src/bin/01.rs:24 | `truncate(3)` keeps three totals, or all of them when there are fewer |
| `Day01.Largest` | src/bin/01.rs:22-24 | sort, reverse and `truncate(k)`: the first k totals of the descending order; `LargestSpec` proves they are k of the totals, none smaller than any left out |
| `Day01.LargestSpec` | src/bin/01.rs:22-24 | sorting, reversing and truncating to `k` picks `k` of the totals, and every total left out is at most every total picked |
| `Day01.LargestAll` | src/bin/01.rs:22-25 | when nothing is truncated away, part two adds up all the totals |
| `Day01.LargestFirst` | src/bin/01.rs:14-25 | the first total part two keeps is the answer of part one |
| `Day01.PartTwo` | src/bin/01.rs:19-26 | part two answers exactly when the input parses, with the sum of the three largest totals, or of all of them when there are fewer than three |
| `Day02.OutcomeScore` | src/bin/02.rs:50-54 | the points of an outcome: 6 for a win, 3 for a draw, 0 for a loss; used by `GameScore` |
| `Day02.Play` | src/bin/02.rs:36-49 | the table's outcome is a draw exactly for equal shapes, a win exactly when the response is one step ahead in the cycle Rock, Paper, Scissors, and a loss exactly when it is two steps ahead |
| `Day02.SelectionScore` | src/bin/02.rs:28-34 | Rock scores 1, Paper 2, Scissors 3: one more than the shape's place in the cycle |
| `Day02.GameScore` | src/bin/02.rs:35-55 | 6, 3 or 0 points, three times the response's distance ahead of the initial move plus one, taken modulo 3 |
| `Day02.GameScoreSymmetric` | src/bin/02.rs:36-54 | the two players' game scores for the same round add up to 6 |
| `Day02.TotalScore` | src/bin/02.rs:56-58 | a round's total lies between 1 and 9 |
| `Day02.TotalScoreDetermines` | src/bin/02.rs:56-58 | equal totals mean the same shape played and the same outcome |
| `Day02.ForceOutcome` | src/bin/02.rs:62-75 | the chosen response gives exactly the demanded outcome against the initial move |
| `Day02.ForceOutcomeUnique` | src/bin/02.rs:62-75 | any response that gives the demanded outcome is the one `force_outcome` chooses |
| `Day02.ForcedTotal` | src/bin/02.rs:163-164 | a forced round scores the demanded outcome's points plus the forced shape's |
| `Day02.ParseInitial` | src/bin/02.rs:81-90 | parses exactly the letters A, B and C; any other word is the panic |
| `Day02.ParseResponse` | src/bin/02.rs:96-105 | parses exactly the letters X, Y and Z; any other word is the panic |
| `Day02.ParseOutcome` | src/bin/02.rs:111-120 | parses exactly the letters X, Y and Z; any other word is the panic |
| `Day02.LettersRoundTrip` | src/bin/02.rs:78-121 | each letter decodes to the shape or outcome it is written for, and every accepted word is that letter |
| `Day02.ParseRound` | src/bin/02.rs:126-130 | a part-one line: its first two whitespace-separated words as initial move and response, `None` where a word is missing or not a letter the source accepts; `ParseRoundRender` is its round trip |
| `Day02.ParseRoundRender` | src/bin/02.rs:126-130 | a line "initial response" reads back as that round |
| `Day02.ParseGame` | src/bin/02.rs:138-142 | a part-two line: initial move and demanded outcome, `None` on a missing or unknown word; `ParseGameRender` is its round trip |
| `Day02.ParseGameRender` | src/bin/02.rs:138-142 | a line "initial outcome" reads back as that game |
| `Text.ParseAllSpec` | src/bin/02.rs:123-133 | the guide parses exactly when every line does, to one entry per line in order |
| `Text.ParseLines` | src/bin/02.rs:123-145 | the line loop of `parse_input` and `parse_input_part_two` returns what `ParseAll` specifies, `None` at the first failing line |
| `Text.ParseAllNoneStays` | src/bin/02.rs:126-131 | once a line has failed, the whole guide fails |
| `Day02.ScoreBounds` | src/bin/02.rs:152-155 | the score of n rounds lies between n and 9n |
| `Day02.Forced` | src/bin/02.rs:162-164 | the part-two rounds keep each initial move and pair it with a response that brings about the demanded outcome |
| `Day02.ForcedScore` | src/bin/02.rs:160-166 | the part-two score is the demanded outcomes' points plus the forced shapes' points |
| `Day02.SumScores` | src/bin/02.rs:152-155 | the scoring loop adds up every round's total score |
| `Day02.PartOne` | src/bin/02.rs:147-157 | part one is the summed score of the parsed rounds, `None` where parsing panics |
| `Day02.PartTwo` | src/bin/02.rs:159-167 | part two is the summed score of the rounds with each response forced to the demanded outcome |
| `Day02.ExampleOne` | src/bin/02.rs:180-183 | the example guide reads as three rounds that score 15 |
| `Day02.ExampleTwo` | src/bin/02.rs:159-167 | the example guide reads as three games that score 12 in part two |
| `Day03.Priority` | src/bin/03.rs:8-18 | a priority is at most 52, and it is 0 exactly for the characters that are no ASCII letters |
| `Day03.ItemOf` | src/bin/03.rs:13-16 | every priority from 1 to 52 belongs to a letter |
| `Day03.PriorityItemOf` | src/bin/03.rs:13-17 | priorities and letters are inverse: lower case letters have priorities 1..26, upper case ones 27..52 |
| `Day03.PriorityInjective` | src/bin/03.rs:13-17 | two letters with the same priority are the same letter |
| `Day03.SplitVector` | src/bin/03.rs:21-32 | the split succeeds exactly on an even length of at least two, into halves of equal length whose concatenation is the rucksack; a length below two fails with the first panic |
| `Day03.FindCommon` | src/bin/03.rs:39-48 | the result holds exactly the items of the left half that the right half contains |
| `Day03.FindCommonAll` | src/bin/03.rs:50-59 | for at least one vector, the result holds exactly the items of the first vector that every vector contains; for none it is the panic |
| `Day03.Groups` | src/bin/03.rs:61-74 | the fold of `parse_input_two`: a new group at every line whose index is a multiple of three, each line appended to the last group; empty exactly when there are no lines; `GroupsChunks` proves the groups are the consecutive triples |
| `Day03.GroupsCount` | src/bin/03.rs:61-74 | there is one group per three lines, rounding up |
| `Day03.GroupAt` | src/bin/03.rs:61-74 | group k holds lines 3k to 3k+2, as far as there are lines |
| `Day03.GroupsChunks` | src/bin/03.rs:61-74 | the groups are the lines cut into consecutive triples, the last one possibly short |
| `Day03.GroupsNonEmpty` | src/bin/03.rs:67-71 | no group is empty, so the `unwrap` of the last group and the indexing of its first rucksack never fail |
| `Day03.SumPriorities` | src/bin/03.rs:81-83 | the loop over the set adds up the priorities of its members, in whatever order it visits them |
| `Day03.PrioritySumSingle` | src/bin/03.rs:81-83 | a single common item contributes its own priority |
| `Day03.TotalOneSome` | src/bin/03.rs:75-86 | part one has an answer exactly when every rucksack has an even number of at least two items |
| `Day03.SackSum` | src/bin/03.rs:79-83 | one rucksack adds the priorities of the items both its halves hold, or fails where the split panics |
| `Day03.PartOne` | src/bin/03.rs:75-86 | the answer is the sum over the rucksacks of the priorities of their halves' common items, missing when a split panics |
| `Day03.GroupSum` | src/bin/03.rs:92-95 | one group adds the priorities of the items all its rucksacks hold |
| `Day03.PartTwo` | src/bin/03.rs:88-98 | the answer is the sum over the groups of three lines of the priorities of the items the whole group shares |
| `Day04.Contains` | src/bin/04.rs:24-26 | `contains`: the first range starts no later and ends no earlier than the second; `ContainsMeansSubset` proves this is inclusion of section sets |
| `Day04.ContainsMeansSubset` | src/bin/04.rs:24-26 | for an `other` holding some section, `contains` holds exactly when every section of `other` lies in `self` |
| `Day04.Overlaps` | src/bin/04.rs:28-30 | `overlaps`: each range starts no later than the other ends; `OverlapsMeansShared` proves this is a shared section |
| `Day04.OverlapsMeansShared` | src/bin/04.rs:28-30 | for ranges holding some section, `overlaps` holds exactly when they share a section |
| `Day04.OverlapsSymmetric` | src/bin/04.rs:28-48 | `overlaps` is symmetric, as the comment in `overlap_exists` says |
| `Day04.ContainsOverlaps` | src/bin/04.rs:24-30 | a range holding some section overlaps, both ways, a range that contains it |
| `Day04.EitherContains` | src/bin/04.rs:39-41 | `either_contains`: one range of the pair contains the other, in either direction |
| `Day04.OverlapExists` | src/bin/04.rs:43-47 | `overlap_exists`: the first range overlaps the second, asked in one direction only; `OverlapsSymmetric` justifies the source's remark that one direction suffices |
| `Day04.PairTestsSymmetric` | src/bin/04.rs:39-47 | `either_contains` and `overlap_exists` do not depend on the order of the pair |
| `Day04.EitherContainsOverlaps` | src/bin/04.rs:39-47 | for ranges holding some section, a containing pair is an overlapping pair |
| `Day04.ParseRange` | src/bin/04.rs:11-20 | `from_str` succeeds exactly when the text has a dash and its first two pieces are `usize` numbers |
| `Day04.NoDash` | src/bin/04.rs:13-19 | text without a dash is the "Invalid section range" error |
| `Day04.RangeRoundTrip` | src/bin/04.rs:11-20 | a range written as `start-end` parses back to itself |
| `Day04.ParsePair` | src/bin/04.rs:54-62 | a line parses exactly when it has a comma and its first two pieces parse as ranges; a line without a comma is the "Invalid section range pair" error |
| `Day04.PairRoundTrip` | src/bin/04.rs:53-62 | a pair written as `a-b,c-d` parses back to itself |
| `Day04.CollectOk` | src/bin/04.rs:50-65 | the input parses exactly when every line does, into each line's pair in order |
| `Day04.CollectErr` | src/bin/04.rs:50-65 | a failed parse reports the error of the first line that fails |
| `Day04.ContainCountIsSize` | src/bin/04.rs:67-76 | part one's count is the number of pairs in which one range contains the other |
| `Day04.OverlapCountIsSize` | src/bin/04.rs:78-87 | part two's count is the number of pairs whose ranges overlap |
| `Day04.CountsOrdered` | src/bin/04.rs:67-87 | with ranges holding some section, part one's count is at most part two's, which is at most the number of pairs |
| `Day04.CountContaining` | src/bin/04.rs:69-75 | the counting loop of part one counts exactly the containing pairs |
| `Day04.CountOverlapping` | src/bin/04.rs:80-86 | the counting loop of part two counts exactly the overlapping pairs |
| `Day04.PartOne` | src/bin/04.rs:67-76 | part one is `None` exactly when parsing fails, and otherwise the number of containing pairs |
| `Day04.PartTwo` | src/bin/04.rs:78-87 | part two is `None` exactly when parsing fails, and otherwise the number of overlapping pairs |
| `Day05.Drawn` | src/bin/05.rs:27-31 | the drawing shows `(w + 1) / 4` stacks for a label line `w` characters wide |
| `Day05.PushRow` | src/bin/05.rs:35-43 | a row is accepted exactly when every label position holds a space or an upper-case letter of an existing stack; then each letter goes on the front of its stack and nothing else changes; an invalid label is reported with the character the row shows there |
| `Day05.StackedAll` | src/bin/05.rs:32-45 | after the last crate row the pushed stacks are the drawn columns and every row was fine |
| `Day05.StackRow` | src/bin/05.rs:32-44 | one turn of the row loop pushes the next row up onto the stacks of the rows below it; a failing row means the drawing does not parse |
| `Day05.ParseStacks` | src/bin/05.rs:4-46 | the drawing parses exactly when it has a label line and all rows above it are fine, and the result is each stack's column read top first; an invalid label is a character some crate row shows |
| `Day05.Number` | src/bin/05.rs:68-70 | a parsed capture is below the `usize` bound |
| `Day05.DecimalNumber` | src/bin/05.rs:68-70 | a number's decimal digits parse back to it and contain no space |
| `Day05.ParseMove` | src/bin/05.rs:63-71 | a line of the form `move N from S to T`, its three numbers read as `usize`, `None` for any other line; `ParseMoveRender` is its round trip |
| `Day05.ParseMoveRender` | src/bin/05.rs:63-71 | a move written as "move N from S to T" parses back to itself |
| `Day05.MovesOfSpec` | src/bin/05.rs:64-76 | the moves parse exactly when every line is a move, one move per line in order; otherwise the error is the first line that is not a move |
| `Day05.ParseMoves` | src/bin/05.rs:54-77 | the line loop returns the moves in order or stops at the first invalid line, as `MovesOf` says |
| `Day05.MoveOne` | src/bin/05.rs:108-109 | one pop and push keeps the number of stacks |
| `Day05.Repeat9000` | src/bin/05.rs:107-110 | repeated single moves keep the number of stacks |
| `Day05.Step9000` | src/bin/05.rs:106-111 | a part-one move keeps the number of stacks |
| `Day05.Transfer9000` | src/bin/05.rs:107-110 | between different stacks, `n` single moves succeed exactly when the source holds at least `n` crates, and then put the top `n` on the target in reverse order |
| `Day05.SameStack9000` | src/bin/05.rs:107-110 | moving crates from a stack onto itself fails only on an empty stack and otherwise changes nothing |
| `Day05.Step9001` | src/bin/05.rs:126-133 | part two's move: the top `number` crates leave the source together and land on the target in their order, `None` where a `pop_front` or a stack index fails; `Step9001Spec` states it |
| `Day05.Step9001Spec` | src/bin/05.rs:126-133 | a part-two move onto the same stack changes nothing; between different stacks the group keeps its order on the target, leaves the source's remainder and touches no other stack |
| `Day05.CranesDiffer` | src/bin/05.rs:106-133 | with valid distinct stacks both cranes succeed together, and their results differ only in the group on the target, which the 9000 reverses |
| `Day05.StepKeepsCrates` | src/bin/05.rs:106-133 | a move by either crane keeps the number of stacks and the total number of crates |
| `Day05.RunKeepsCrates` | src/bin/05.rs:106-111 | a whole sequence of moves keeps the number of stacks and the total number of crates |
| `Day05.Dock.Move9000` | src/bin/05.rs:107-110 | one move crate by crate succeeds exactly when `Step9000` does, and leaves the stacks it gives |
| `Day05.Dock.Move9001` | src/bin/05.rs:126-133 | one move of a whole group succeeds exactly when `Step9001` does, and leaves the stacks it gives |
| `Day05.Dock.TakeCrates` | src/bin/05.rs:127-130 | popping `n` crates succeeds exactly when the stack exists and holds `n`; they come off top first and the stack keeps the rest |
| `Day05.Dock.PutCrates` | src/bin/05.rs:131-133 | pushing the crates in reverse leaves them on the target in their original order above its old contents; fails only on a missing stack |
| `Day05.RepeatNoneStays` | src/bin/05.rs:107-110 | once a crate-by-crate move has panicked, more repetitions panic too |
| `Day05.TopsOf` | src/bin/05.rs:112-116 | the top crate of every stack in stack order, `None` when a stack is empty and `stack[0]` panics |
| `Day05.Tops` | src/bin/05.rs:112-116 | the top crate of every stack in order, or `None` when some stack is empty |
| `Day05.SolveSpec` | src/bin/05.rs:102-117 | an answer names one crate per stack of the drawing, and the moves lose no crate |
| `Day05.Parse` | src/bin/05.rs:79-100 | the drawing and the moves are split at the first blank line and parsed, `None` where either is missing or fails |
| `Day05.Operate` | src/bin/05.rs:105-116 | the move loop followed by the tops computes the answer `Solve` specifies, `None` at the first panic |
| `Day05.RunNoneStays` | src/bin/05.rs:106-111 | once a move has panicked, the whole run panics |
| `Day05.PartOne` | src/bin/05.rs:102-117 | part one is the answer with the crane that moves one crate at a time |
| `Day05.PartTwo` | src/bin/05.rs:119-140 | part two is the answer with the crane that moves a group at once |
| `Day06.ElementsCard` | src/bin/06.rs:12-13 | the set built from a buffer is never larger than it, and exactly as large when no character occurs twice, so comparing the two lengths tests distinctness |
| `Day06.BufferTest` | src/bin/06.rs:11-13 | on a full buffer holding the last `width` characters, the set has `width` elements exactly when that window is a marker |
| `Day06.Marker` | src/bin/06.rs:3-36 | the position just after the first window of `width` distinct characters, or `None`; `MarkerSpec` proves it is the least such position |
| `Day06.MarkerFromFirst` | src/bin/06.rs:9-17 | a scan that answers returns a position after its start that ends a window of distinct characters, and no earlier position after its start does |
| `Day06.MarkerFromNone` | src/bin/06.rs:9-19 | a scan that finds nothing has passed no window of distinct characters |
| `Day06.MarkerSpec` | src/bin/06.rs:3-20 | the marker is at least `width` and at most the input's length, ends a window of distinct characters and is the first such position; there is none exactly when no window is distinct |
| `Day06.MarkerMonotone` | src/bin/06.rs:3-36 | when there is a start-of-message marker there is a start-of-packet marker, and it comes no later |
| `Day06.Push` | src/bin/06.rs:10-17 | pushing one character reports a marker exactly when the window ending after it is distinct, and keeps the buffer equal to the last `min(index, width - 1)` characters |
| `Day06.FindMarker` | src/bin/06.rs:8-19 | the loop answers the first marker position, or `None` when the input has none |
| `Day06.PartOne` | src/bin/06.rs:3-20 | part one is the marker for 4 distinct characters |
| `Day06.PartTwo` | src/bin/06.rs:22-36 | part two is the marker for 14 distinct characters |
| `Day07.ParseWords` | src/bin/07.rs:12-31 | `Line::from_str` on the words: `$ cd`, `$ ls`, `dir` and an all-digit size with a name, the error `Invalid command` for any other first word or command, a panic on a missing word or a size above `u32`; file sizes are below 2^32 |
| `Day07.ParseRenderLine` | src/bin/07.rs:15-31 | a `cd`, `ls`, `dir` or file line written with single spaces (a file size below 2^32, names without whitespace) parses back to the same line |
| `Day07.ParseLine` | src/bin/07.rs:25-27 | a parsed file line always has a size that fits a `u32`; larger digit strings panic |
| `Day07.Components` | src/bin/07.rs:48 | the components a path is kept as are non-empty, free of `/` and never `.` |
| `Day07.Parent` | src/bin/07.rs:44 | the root has no parent; any other path's parent is its prefix one component shorter |
| `Day07.ChangeDir` | src/bin/07.rs:42-51 | `cd ..` moves to the parent, which the root lacks (the source's `unwrap`), and any other `cd` joins its argument; `CdRoundTrip` proves `cd d` then `cd ..` returns |
| `Day07.JoinPath` | src/bin/07.rs:48 | `PathBuf::join`: an absolute argument replaces the path, a relative one appends its components; `CdRoot` covers the absolute case |
| `Day07.CdRoundTrip` | src/bin/07.rs:42-50 | `cd name` enters the child `name` and a following `cd ..` returns to the directory it started from |
| `Day07.CdRoot` | src/bin/07.rs:48 | `cd /` leads to the root from any directory |
| `Day07.ParseLines` | src/bin/07.rs:35 | every line parsed and unwrapped: a result exactly when each line parses, holding each line's parse at its position |
| `Day07.RunSpec` | src/bin/07.rs:36-62 | the session succeeds exactly when the `cd`s never leave the root; it ends in the directory the `cd`s lead to, has entries exactly for the root and the directories a file was listed in, and each directory's entry (0 where it has none) is the total of the files listed while it was current |
| `Day07.StepTotal` | src/bin/07.rs:58-60 | a file line adds its size to the sum of all direct sizes, and any other line leaves that sum alone |
| `Day07.RunTotal` | src/bin/07.rs:58-60 | the direct sizes of all directories add up to the sizes of all files listed |
| `Day07.SumAfterFile` | src/bin/07.rs:59 | adding a file to one directory's entry raises the sum over all entries by the file's size |
| `Day07.DirectSizes` | src/bin/07.rs:35-62 | the first loop yields the session's direct sizes, or `None` exactly when some line fails to parse or a `cd ..` leaves the root |
| `Day07.Apply` | src/bin/07.rs:41-61 | one line's effect on the current directory and the sizes, failing exactly at `cd ..` in the root |
| `Day07.WalkPrefixNone` | src/bin/07.rs:35-44 | once a prefix of the lines fails, the whole session fails: the panic ends it |
| `Day07.AncestorsSpec` | src/bin/07.rs:66 | a path is an ancestor of some directory (itself included) exactly when some directory lies in or below it |
| `Day07.AddToAncestors` | src/bin/07.rs:66-68 | the inner loop adds the size to the entry of the path and of each of its ancestors, creating missing entries, and leaves all other entries alone |
| `Day07.PartialStep` | src/bin/07.rs:64-69 | after one more directory, each entry is the sum of the direct sizes of the directories handled so far that lie in or below it |
| `Day07.RecursiveSizes` | src/bin/07.rs:63-69 | the second loop, in any order over the directories, gives each ancestor the sum of the direct sizes of all directories in or below it |
| `Day07.TreeMonotone` | src/bin/07.rs:63-69 | a directory's recursive size is at least that of any directory inside it |
| `Day07.RootTotal` | src/bin/07.rs:63-69 | the root's recursive size is the total size of all files listed |
| `Day07.SmallStep` | src/bin/07.rs:73-77 | handling one more entry adds its size to the running total exactly when it is below 100000 |
| `Day07.SumSmall` | src/bin/07.rs:72-77 | the last loop, in any order, sums exactly the recursive sizes below 100000 |
| `Day07.PartOne` | src/bin/07.rs:34-81 | the sum of the recursive sizes below 100000, `None` exactly when the session panics |
| `Day07.NeedToFree` | src/bin/07.rs:84-85 | the space to free is the root's size less 40000000, and the `u32` subtractions fail exactly when the root is above 70000000 or below 40000000 |
| `Day07.LeastSoFarStep` | src/bin/07.rs:123-133 | taking a directory's size when it is above the need and below the best so far keeps the best the least size above the need among the directories seen |
| `Day07.LeastSoFarAll` | src/bin/07.rs:123-133 | the best after all directories is the least size above the need, and none exactly when no size is above it |
| `Day07.SmallestAbove` | src/bin/07.rs:123-133 | sorting and taking the first size above the need gives the least such size, and `None` exactly when no size exceeds the need |
| `Day07.PartTwo` | src/bin/07.rs:83-137 | the least recursive size above the space to free, `None` when the session panics, the subtraction underflows or no directory is big enough |
| `Day07.DeletionFrees` | src/bin/07.rs:122-136 | the chosen size belongs to some directory and deleting it leaves the root's size less it below 40000000 |
| `Day07b.FindFrom` | src/bin/07b.rs:45-49 | the first position holding the value, or `None` exactly when no node holds it |
| `Day07b.ArenaTree.NodeFor` | src/bin/07b.rs:43-54 | the stored index of the first node holding the value with the arena unchanged, or a new parentless, childless node at the end whose index is the old size, which grows by one |
| `Day07b.AppendOrdered` | src/bin/07b.rs:21-28 | a node built by `Node::new` at the end keeps every stored index equal to its position and the parent/child structure intact |
| `Day07b.EdgesAppend` | src/bin/07b.rs:58-62 | the edge count is the sum of the children-list lengths: appending a node adds its own list's length |
| `Day07b.NewNodeNoEdges` | src/bin/07b.rs:51-53 | adding a node never changes the edge count |
| `Day07b.Depth` | src/bin/07b.rs:64-69 | the depth is zero exactly at a parentless node and never exceeds the node's position |
| `Day07b.DepthAppend` | src/bin/07b.rs:64-69 | adding a node leaves every existing node's depth unchanged |
| `Day07b.DepthToTarget` | src/bin/07b.rs:70-84 | the search answers `Some(0)` exactly at a node holding the target |
| `Day07b.FirstHit` | src/bin/07b.rs:77-83 | a hit found among the children is at depth one or more |
| `Day07b.DepthToTargetSound` | src/bin/07b.rs:70-84 | a reported depth is the length of a real downward path to a node holding the target |
| `Day07b.DepthToTargetComplete` | src/bin/07b.rs:70-84 | whenever some downward path reaches the target, the search reports a depth |
| `Day07b.ClimbWithoutHit` | src/bin/07b.rs:93-100 | when no ancestor's subtree holds the target, the climb counts exactly the depth of the start node |
| `Day07b.FreshNodeDistance` | src/bin/07b.rs:86-88 | a start value not yet in the tree is added unconnected and is at distance 0 |
| `Day07b.ArenaTree.DistanceBetween` | src/bin/07b.rs:85-107 | the start node is looked up or added, and the result is the climb count minus one, never below zero |
| `Day08.ParseRow` | src/bin/08.rs:7 | a row parses exactly when every character is a digit, and then holds each digit's value in order |
| `Day08.ParseInput` | src/bin/08.rs:1-10 | the forest parses exactly when every line does, with one row per line |
| `Day08.ParseRender` | src/bin/08.rs:7 | parsing the digits of a row of single-digit heights gives the row back |
| `Day08.VisibleIff` | src/bin/08.rs:17-27 | a tree is visible exactly when it is strictly taller than every tree between it and the border in at least one of the four directions |
| `Day08.BorderVisible` | src/bin/08.rs:17-25 | every border tree is visible, because an empty line of sight satisfies `all` |
| `Day08.Count` | src/bin/08.rs:13-28 | the visible count over the first m rows never exceeds the number of trees in them |
| `Day08.VisibleInRow` | src/bin/08.rs:15-45 | the inner loop adds one for each visible tree of the row |
| `Day08.DetermineVisible` | src/bin/08.rs:12-48 | the nested loops count the visible trees of the forest |
| `Day08.TakeShorter` | src/bin/08.rs:63-67 | `take_while` keeps the leading trees shorter than the current one and stops at the first that is not |
| `Day08.ViewDistance` | src/bin/08.rs:60-73 | the viewing distance is 0 at the border, the whole line when every tree is shorter, and otherwise reaches exactly to the first tree at least as tall |
| `Day08.Score` | src/bin/08.rs:141-142 | the score is the product of the four viewing distances, truncated to `u32` |
| `Day08.BorderScoresZero` | src/bin/08.rs:141 | every border tree scores 0 |
| `Day08.RowScores` | src/bin/08.rs:53-144 | the inner loop pushes the score of each tree of the row, in order |
| `Day08.DetermineScores` | src/bin/08.rs:50-147 | the nested loops build the grid of scores, row by row |
| `Day08.ScoresAt` | src/bin/08.rs:50-147 | entry (x, y) of the score grid is the score of tree (x, y) |
| `Day08.GridShape` | src/bin/08.rs:50-147 | the score grid has one row per row of trees, each as long as a row of trees |
| `Day08.MaxScore` | src/bin/08.rs:159-163 | the result is an entry of the grid and no entry is larger; it is `None` exactly when the grid has no rows or an empty row |
| `Day08.PartOne` | src/bin/08.rs:149-153 | the number of visible trees, or `None` when a line holds a non-digit or the rows differ in length |
| `Day08.PartTwo` | src/bin/08.rs:155-165 | the largest entry of the score grid, or `None` when parsing fails, the rows differ in length or there are no trees |
| `Day08.BestScoreBounds` | src/bin/08.rs:159-164 | part two's answer is at least the score of every tree |
| `Day08.BestScoreExists` | src/bin/08.rs:159-163 | part two has an answer exactly when the forest has at least one tree |
| `Day09.Toward` | src/bin/09.rs:49-62 | one pass moves at most one unit on each axis, one unit closer on each axis where the knots differ and not at all where they agree; a knot not adjacent ends one king move closer |
| `Day09.TrailSpec` | src/bin/09.rs:44-64 | the recorded trail ends next to the other knot; it is one entry when the knot was already adjacent, otherwise one entry per move plus the final position recorded again |
| `Day09.TrailStep` | src/bin/09.rs:49-63 | recording one move keeps the history-plus-remaining-trail and the final position |
| `Day09.TrailSteps` | src/bin/09.rs:49-63 | each recorded position is at most one unit on each axis from the one before |
| `Day09.Adjacent` | src/bin/09.rs:25-33 | the source's adjacency: at most one apart on each axis, diagonals and overlap included |
| `Day09.MoveRel` | src/bin/09.rs:43-65 | `move_relative` on values: the knot walks the trail toward the other knot and records every position it passes, the last one adjacent; `MoveRelSpec` states it |
| `Day09.MoveRelSpec` | src/bin/09.rs:43-65 | after move_relative the knot is adjacent to the other, the old history is a prefix of the new one, and the knot stands on its last entry |
| `Day09.Knot.constructor` | src/bin/09.rs:18-24 | a new knot is at (0, 0) with history [(0, 0)] |
| `Day09.Knot.IsAdjacent` | src/bin/09.rs:25-33 | true exactly when the knots are at most one king move apart, i.e. both coordinate differences are at most 1 |
| `Day09.Knot.MoveRelative` | src/bin/09.rs:43-65 | the loop computes `MoveRel`: it ends at the trail's end and appends the trail to the history |
| `Day09.FollowUpToSpec` | src/bin/09.rs:79-85 | follow_up keeps the head, updates knots 1.. in order, each by move_relative after its already-updated predecessor, and leaves each adjacent to it |
| `Day09.PullsHead` | src/bin/09.rs:86-116 | n pulls move the head n units in the direction and leave its history unchanged |
| `Day09.PullTaut` | src/bin/09.rs:91-95 | after a head move and follow_up, every knot behind the head is adjacent to its predecessor |
| `Day09.FollowUpToRecorded` | src/bin/09.rs:79-85 | follow_up keeps every history starting at the origin and every follower standing on its last entry |
| `Day09.PullsRecorded` | src/bin/09.rs:86-116 | so do the head moves of an instruction |
| `Day09.RunRecorded` | src/bin/09.rs:145-148 | and so do all instructions |
| `Day09.TailPlacesSpec` | src/bin/09.rs:150-153 | the tail's recorded places include the origin and, behind a head, its own position, so the count is at least 1 |
| `Day09.Rope.constructor` | src/bin/09.rs:74-78 | `length` distinct fresh knots, each at the origin with history [(0, 0)] |
| `Day09.Rope.FollowKnot` | src/bin/09.rs:82-83 | knot i moves after knot i - 1; no other knot changes |
| `Day09.Rope.FollowUpKnots` | src/bin/09.rs:79-85 | the loop over knots 1.. computes `FollowUp` |
| `Day09.Rope.PullHead` | src/bin/09.rs:92-95 | one head move, then follow_up, computes `Pull` |
| `Day09.Rope.Repeat` | src/bin/09.rs:92-95 | repeating the head move n times computes `Pulls` |
| `Day09.Rope.Movement` | src/bin/09.rs:86-116 | each direction's loop computes `Move`; a negative distance moves nothing |
| `Text.SignedDecimalRoundTrip` | src/bin/09.rs:130 | an `i32` distance written in decimal parses back and holds no space |
| `Day09.DirectionLetter` | src/bin/09.rs:131-137 | each instruction's letter is matched back to its own direction, with its distance |
| `Day09.ParseLineRender` | src/bin/09.rs:125-139 | a line "<letter> <distance>" parses back to its instruction |
| `Day09.ParseInput` | src/bin/09.rs:119-140 | the instructions exist exactly when every line parses, one per line, in order |
| `Day09.Simulate` | src/bin/09.rs:143-153 | the instruction loop on a fresh rope, then the tail's distinct places, computes `TailPlaces` |
| `Day09.PartOne` | src/bin/09.rs:142-154 | `TailPlaces` for two knots, at least 1; `None` exactly when parsing panics |
| `Day09.PartTwo` | src/bin/09.rs:156-169 | `TailPlaces` for ten knots, at least 1; `None` exactly when parsing panics |
| `Day10.ParseInstruction` | src/bin/10.rs:19-29 | `parse_instruction`: two space-separated pieces make an add of the second, read as `i32`, a lone `noop` a noop, anything else the panic; `ParseRenderInstruction` is its round trip |
| `Day10.ParseRenderInstruction` | src/bin/10.rs:19-29 | "noop" and "addx v" with an `i32` value parse back to the instruction |
| `Day10.ParseTwoPieces` | src/bin/10.rs:20-25 | any line of two space-free pieces is an add of the second piece read as an `i32`, whatever the first piece says, and a panic when the second is no `i32` |
| `Day10.ParseNoop` | src/bin/10.rs:26 | exactly the line "noop" is a noop |
| `Day10.Pending` | src/bin/10.rs:37-52 | an operation has one register change per remaining cycle |
| `Day10.PendingOf` | src/bin/10.rs:45-52 | an add takes two cycles and changes the register by its value in the second; a noop takes one and changes nothing |
| `Day10.ExpandAppend` | src/bin/10.rs:65 | the changes of a queue with an operation pushed at the back are the queue's changes followed by the operation's |
| `Day10.DeltasSnoc` | src/bin/10.rs:63-66 | one more instruction appends its own changes to the program's |
| `Day10.Run` | src/bin/10.rs:75-83 | one register value per change, the last being the start value plus all changes |
| `Day10.RunAppend` | src/bin/10.rs:75-83 | running two stretches of changes is running the first, then the second from where the first ended |
| `Day10.RunSnoc` | src/bin/10.rs:77-82 | each cycle appends the last register value, or 1 before the first, plus the cycle's change |
| `Day10.Work` | src/bin/10.rs:71-83 | one cycle on the front operation yields its value when it completes and nothing otherwise, leaving the rest of it at the front |
| `Day10.Enqueue` | src/bin/10.rs:63-66 | queueing the cycle's instruction keeps the queue equal to the changes of the queued instructions not yet done, and grows those by at most two |
| `Day10.Tick` | src/bin/10.rs:71-83 | one cycle records exactly one register value and moves exactly one change from the queue into the history |
| `Day10.RunProgram` | src/bin/10.rs:59-85 | the history is the running register over the program's changes, in input order, and equals the reference one-instruction-at-a-time CPU |
| `Day10.TraceOfDeltas` | src/bin/10.rs:59-85 | the queue's register changes give the same values as running each instruction to completion in turn |
| `Day10.RunOfInstruction` | src/bin/10.rs:45-52 | a noop records the register once; an add records it, then it plus the value |
| `Day10.TraceLength` | src/bin/10.rs:59-85 | the history has one value per cycle: two per add and one per noop |
| `Day10.Strength` | src/bin/10.rs:86-90 | the sum of `history[c - 2] * c` over the cycles `c` below the bound with `c % 40 == 20` inside the history, the source's `skip(19).step_by(40)`; `SignalSum` ties the loop to it |
| `Day10.StrengthStart` | src/bin/10.rs:87 | no cycle before 20 contributes to the signal strength |
| `Day10.StrengthQuiet` | src/bin/10.rs:87 | between two cycles 40 apart that are 20 more than a multiple of 40, no cycle contributes |
| `Day10.StrengthBeyond` | src/bin/10.rs:87 | cycles from the history's length on contribute nothing |
| `Day10.SignalSum` | src/bin/10.rs:86-90 | the loop sums `history[c - 2] * c` over exactly the cycles `c < len` that are 20 more than a multiple of 40 |
| `Day10.PartOne` | src/bin/10.rs:54-93 | part one answers exactly when every line parses, and then answers the signal strength of the reference CPU's history |
| `Day10.Pixel` | src/bin/10.rs:131-137 | one pixel: lit exactly when the sprite `x - 1 ..= x + 1` covers the column `i % 40` |
| `Day10.Draw` | src/bin/10.rs:128-141 | pixel `i` of the 1-prefixed history is `#` exactly when the register is within 1 of `i % 40`, and a line break follows every 40th pixel |
| `Day10.PartTwo` | src/bin/10.rs:95-143 | part two returns the empty string when every line parses, and prints the screen of the reference CPU's history |
| `Day11.Apply` | src/bin/11.rs:60-64 | the worry level after the operation: the item plus or times the operand, or squared |
| `Day11.CalculateWorry` | src/bin/11.rs:59-68 | part one's worry is the operation's result divided by three and rounded down: 3·r ≤ w < 3·r + 3 |
| `Day11.CalculateWorryNoRelief` | src/bin/11.rs:69-76 | part two's worry is below `modulo` and congruent to the operation's result modulo `modulo` |
| `Day11.NoReliefKeepsTests` | src/bin/11.rs:69-76 | modulo any divisor of `modulo`, the reduced worry leaves the same remainder as the unreduced one |
| `Day11.Inspect` | src/bin/11.rs:79-97 | the item goes to the true branch when the new worry is divisible by the test, otherwise to the false branch |
| `Day11.ApplyCongruent` | src/bin/11.rs:70-74 | adding, multiplying and squaring map items that agree modulo m to results that agree modulo m |
| `Day11.InspectAgree` | src/bin/11.rs:89-97 | with reduction modulo a multiple of the test, an inspection throws to the same monkey as with unbounded worry, and the two new worries stay congruent |
| `Day11.ProductDivides` | src/bin/11.rs:166-170 | the product of the positive tests is positive and a multiple of every test |
| `Day11.Step` | src/bin/11.rs:135-139 | one inspection takes the front item off the monkey's queue and counts exactly one inspection, for that monkey only |
| `Day11.StepThrows` | src/bin/11.rs:135-139 | the inspected item, with its new worry, joins the back of the true-branch queue exactly when the worry is divisible, else the false-branch queue; no other queue changes |
| `Day11.Steps` | src/bin/11.rs:134-140 | n inspections take the first n items off the queue and add n to that monkey's count and nothing to the others' |
| `Day11.TurnDrains` | src/bin/11.rs:134-140 | a turn empties the monkey's queue and counts one inspection per item it held |
| `Day11.StepKeepsTotal` | src/bin/11.rs:135-139 | an inspection moves an item without losing or creating one |
| `Day11.RoundsKeepTotal` | src/bin/11.rs:131-142 | after any number of rounds, the monkeys together hold as many items as at the start |
| `Day11.RoundsAgree` | src/bin/11.rs:166-190 | rounds with reduction modulo a common multiple of the tests give the same counts and queue lengths as rounds with unbounded worry, item by item congruent |
| `Day11.BusinessAgree` | src/bin/11.rs:166-196 | part two's answer with the reduction equals the answer unbounded worry would give |
| `Day11.TopTwo` | src/bin/11.rs:145-155 | two different monkeys, the first with the larger count, and no other monkey has a count above the second's |
| `Day11.ParseOperation` | src/bin/11.rs:37-43 | the last two words of the operation: `* old` squares, a number after `+` or `*` adds or multiplies, anything else is the error the source panics on; `ParseOperationText` is its round trip |
| `Day11.ParseOperationText` | src/bin/11.rs:37-43 | "new = old + v", "new = old * v" and "new = old * old" parse back to add, multiply and square |
| `Day11.Monkey.InspectItem` | src/bin/11.rs:79-87 | counts one more inspection, keeps the queue, and returns `Inspect` with relief |
| `Day11.Monkey.InspectItemNoRelief` | src/bin/11.rs:89-97 | counts one more inspection, keeps the queue, and returns `Inspect` reduced modulo `modulo` |
| `Day11.PopAndInspect` | src/bin/11.rs:135-136 | pops the front item and inspects it; only that monkey's state changes |
| `Day11.PushBack` | src/bin/11.rs:137-139 | appends the item to the target's queue; only the target's state changes |
| `Day11.InspectNext` | src/bin/11.rs:135-139 | one pass of the turn's loop computes `Step` on the monkeys' states |
| `Day11.MonkeyTurn` | src/bin/11.rs:133-140 | the loop over the queue's starting length computes `Turn` |
| `Day11.PlayRound` | src/bin/11.rs:132-141 | the monkeys take their turns in id order, which computes `Round` |
| `Day11.PlayRounds` | src/bin/11.rs:131-142 | the round loop computes `Rounds` |
| `Day11.Build` | src/bin/11.rs:125-130 | one fresh monkey per record, with its rule, its items and no inspections |
| `Day11.Play` | src/bin/11.rs:131-156 | builds, plays the rounds and returns the product of the two largest counts |
| `Day11.PartOne` | src/bin/11.rs:123-157 | twenty rounds with relief, then the product of the two largest counts; fewer than two monkeys give `None` |
| `Day11.PartTwo` | src/bin/11.rs:159-197 | ten thousand rounds reduced modulo the product of the tests; the answer equals the one unbounded worry would give |
| `Text.JoinSplitOn` | src/bin/14.rs:12 | joining the pieces of `split("->")` with the separator gives back the input |
| `Day12.Grid.Get` | src/bin/12.rs:20-36 | a cell is returned exactly when both coordinates are non-negative and inside the grid, and it is the cell at that column of that row |
| `Day12.Grid.Reach` | src/bin/12.rs:47-55 | one move of `neighbors`: the cell it leads to, if it is in the grid and at most one higher; `ReachClimbable` states it |
| `Day12.Grid.NeighborsOf` | src/bin/12.rs:37-57 | what `neighbors` returns: the cells the four moves reach, in move order, each at cost 1; `NeighborsSpec` characterises them |
| `Day12.Grid.Neighbors` | src/bin/12.rs:37-57 | the loop over the four moves returns `NeighborsOf`, the cells one may climb to in move order |
| `Day12.NeighborsUpToSpec` | src/bin/12.rs:46-56 | the first k moves give at most k entries, each a grid cell orthogonally next to the position, at most one higher, at cost 1, and every such move is kept |
| `Day12.ReachClimbable` | src/bin/12.rs:48-52 | a move whose cell exists and is at most one higher gives a cell next to the position at cost 1 |
| `Day12.NeighborsSpec` | src/bin/12.rs:37-57 | at most four neighbours, each orthogonally adjacent, each at most one higher (any descent allowed), each at cost 1; every such grid cell is a neighbour |
| `Day12.Height` | src/bin/12.rs:92-111 | 'a'..'z' give 1..26, 'S' gives 1 and 'E' gives 26; exactly the other characters are rejected |
| `Day12.LastIn` | src/bin/12.rs:91-109 | the last column of the row before `n` holding the marker, or none if no such column |
| `Day12.MarkIn` | src/bin/12.rs:89-119 | the last cell in reading order of the first rows holding the marker, or none if there is none |
| `Day12.ParsedSpec` | src/bin/12.rs:79-121 | the parse succeeds exactly when every character is valid and both 'S' and 'E' occur; each cell stores its own column, row and its character's height; the start is an 'S' at height 1 and the end an 'E' at height 26 |
| `Day12.ParseRow` | src/bin/12.rs:90-117 | the loop over one line pushes its cells in order and updates the start and end markers, or fails on an invalid character |
| `Day12.ParseInput` | src/bin/12.rs:79-121 | the loop over the lines computes `Parsed`: the rows, the last 'S' and the last 'E', or `None` on a panic |
| `Day12.LowUpToSpec` | src/bin/12.rs:141-148 | the collected starts are exactly the cells of height 1 |
| `Day12.CollectStarts` | src/bin/12.rs:141-148 | the nested loop collects the cells of height 1 in reading order |
| `Day12.ShortestUpToSpec` | src/bin/12.rs:150-168 | the selected length is at most `u32::MAX` and at most every length found, and is one of them unless it is `u32::MAX` |
| `Day12.Shortest` | src/bin/12.rs:150-168 | the loop over the starts computes `ShortestUpTo` |
| `Day12.PartOne` | src/bin/12.rs:123-135 | the answer exists exactly when the parse succeeds and the search finds a path from the start, and is its length |
| `Day12.PartTwo` | src/bin/12.rs:137-169 | the answer is at most the path length of every height-1 cell that has one, and is one of those lengths unless no cell has a path and it is `u32::MAX` |
| `Day13.Cmp` | src/bin/13.rs:28-39 | `Packet::cmp`: numbers numerically, lists lexicographically, a number against a list as the one-element list; `CmpFlip` and `CmpRefl` make it antisymmetric and reflexive |
| `Day13.CmpList` | src/bin/13.rs:32 | `Vec::cmp`: the first differing position decides, otherwise the shorter list is less; `PrefixLess` states the prefix case |
| `Day13.CmpFlip` | src/bin/13.rs:28-39 | comparing two packets the other way round gives the opposite ordering |
| `Day13.CmpListFlip` | src/bin/13.rs:31 | comparing two lists of packets the other way round gives the opposite ordering |
| `Day13.CmpRefl` | src/bin/13.rs:28-39 | every packet compares equal to itself |
| `Day13.CmpListRefl` | src/bin/13.rs:31 | every list of packets compares equal to itself |
| `Day13.PrefixLess` | src/bin/13.rs:31 | a proper prefix of a list is less than the list |
| `Day13.LiftValue` | src/bin/13.rs:33-36 | against any packet, on either side, a number compares as the list holding just that number |
| `Day13.EqualNotSame` | src/bin/13.rs:5-36 | a number and the list holding it compare equal, yet the derived equality tells them apart |
| `Day13.TryFrom` | src/bin/13.rs:11-26 | `try_from`: arrays become lists, the first failure ending the conversion; a `u64` number becomes its value cut to 32 bits, another number panics, anything else is `Invalid packet`; `TryFromToJson` is its round trip |
| `Day13.TryFromAll` | src/bin/13.rs:15-20 | the loop over an array's items, stopping at the first `?` failure; `TryFromAllOk` characterises success |
| `Day13.TryFromOk` | src/bin/13.rs:11-26 | the conversion from JSON succeeds exactly on values built from arrays and integers in `u64` range |
| `Day13.TryFromAllOk` | src/bin/13.rs:15-20 | an array converts exactly when each of its elements does |
| `Day13.TryFromToJson` | src/bin/13.rs:11-26 | a packet with 32-bit numbers, written as JSON, converts back to itself |
| `Day13.TryFromToJsonAll` | src/bin/13.rs:15-20 | a list of such packets, written as a JSON array, converts back to the list |
| `Day13.OrderedIndicesMembers` | src/bin/13.rs:49-58 | a 1-based position is listed exactly when its pair's first packet is less than its second |
| `Day13.OrderedIndicesIncrease` | src/bin/13.rs:49-58 | the listed positions increase, so each pair counts at most once |
| `Day13.OrderedIndicesSnoc` | src/bin/13.rs:55-57 | one more pair appends its position exactly when it is in the right order |
| `Day13.PartOne` | src/bin/13.rs:47-60 | the answer is missing exactly when some block has fewer than two lines or a packet fails to decode or convert; otherwise it is the sum of the ordered positions |
| `Day13.NonEmpty` | src/bin/13.rs:64 | the kept lines are exactly the non-empty lines of the input |
| `Day13.DividerFromJson` | src/bin/13.rs:69-73 | the JSON `[[n]]` converts to the divider packet for n |
| `Day13.Insert` | src/bin/13.rs:77 | inserting adds exactly one packet and keeps all others; the last packet is the new one or the old last |
| `Day13.InsertSorted` | src/bin/13.rs:77 | inserting into a sorted list keeps it sorted |
| `Day13.Sort` | src/bin/13.rs:77 | the result is a permutation of the input in which no packet is greater than the next |
| `Day13.Find` | src/bin/13.rs:78-91 | a position is found exactly when the packet occurs; it is the first position that holds it |
| `Day13.SortFinds` | src/bin/13.rs:77-91 | every packet of the input is found after sorting, so the `unwrap`s of the searches never fail |
| `Day13.DividerProduct` | src/bin/13.rs:77-92 | both dividers are found in the sorted list, and the answer is the product of their 1-based positions |
| `Day13.WithDividers` | src/bin/13.rs:74-92 | with the two dividers appended, both are found after sorting, and the answer is the product of their 1-based positions |
| `Day13.PartTwo` | src/bin/13.rs:62-93 | the answer is missing exactly when some non-empty line fails to decode or convert; otherwise both dividers are found in the sorted packets and the answer is the product of their positions |
| `Day14.ParsePoint` | src/bin/14.rs:13-15 | one endpoint: the trimmed piece split at commas, its first two parts read as `u64`, `None` where the index or `unwrap` panics; `ParsePointRender` is its round trip |
| `Day14.PointText` | src/bin/14.rs:13-15 | two digit strings joined by a comma are unchanged by the trim and split back into the two strings |
| `Day14.ParsePointRender` | src/bin/14.rs:13-15 | an endpoint written as `x,y` parses back to `(x, y)` |
| `Day14.AllPresentSpec` | src/bin/14.rs:11-16 | the collected endpoints exist exactly when every piece parsed, one per piece, in order |
| `Day14.EndpointsSpec` | src/bin/14.rs:11-16 | a line is rejected exactly when one piece does not parse as `x,y`; otherwise its endpoints are the pieces' points in order |
| `Day14.Segment` | src/bin/14.rs:25-47 | one window: the points from the lower to the higher coordinate of a vertical or horizontal segment, `None` for the `invalid line` panic; `SegmentPoints` states which points |
| `Day14.SegmentPoints` | src/bin/14.rs:19-47 | a window is expanded exactly when it is strictly horizontal or strictly vertical, into every point between its endpoints inclusive in either direction, each once |
| `Day14.PushSegment` | src/bin/14.rs:25-47 | the four range loops push exactly the window's `Segment` onto the list; any other window is the panic |
| `Day14.PathRocksPoints` | src/bin/14.rs:18-48 | a path fails exactly when one of its windows is not straight; otherwise its points are those between some pair of consecutive endpoints |
| `Day14.PushPath` | src/bin/14.rs:18-48 | the loop over the windows pushes the path's points in order, or reports the panic |
| `Day14.FlattenPoints` | src/bin/14.rs:10-50 | the input parses exactly when every line does, and its rock locations are exactly those of its lines |
| `Day14.ExpandLine` | src/bin/14.rs:11-48 | one line's endpoints are parsed and its windows pushed after the earlier lines' points |
| `Day14.PushLine` | src/bin/14.rs:10-49 | one turn of the line loop extends the points of the earlier lines by this line's; a panic on this line is a panic of the whole parse |
| `Day14.ParseInput` | src/bin/14.rs:8-51 | the loop over the lines computes `RockLocations`, with `None` at the first panic |
| `Day14.RockSetMembers` | src/bin/14.rs:63-66 | the cave's tiles are exactly the rock locations |
| `Day14.CaveHeight` | src/bin/14.rs:67 | the height is one more than the lowest rock row: every rock is above it and one rock is on the row above it |
| `Day14.Cave.constructor` | src/bin/14.rs:62-69 | the tiles are the rock locations and the height is `CaveHeight` |
| `Day14.Fall` | src/bin/14.rs:115-144 | a grain rests and is counted exactly when the three tiles below are taken; otherwise it moves one row down into a free tile, trying down, then down-left, then down-right; with Spout a grain resting at (500, 0) ends the call |
| `Day14.Step` | src/bin/14.rs:96-145 | tiles only grow; with Overflow the call returns with the count as soon as y + 1 >= height; with Spout a grain at y + 1 == height + floor becomes an uncounted floor tile, and the call returns one count higher |
| `Day14.Cave.Settle` | src/bin/14.rs:115-144 | the three-way match on the tiles below computes `Fall` |
| `Day14.StepsGrow` | src/bin/14.rs:108-128 | after any number of passes the cave holds every tile it held before |
| `Day14.FinishedStays` | src/bin/14.rs:100-126 | once the call has returned, further passes change nothing |
| `Day14.StepProgress` | src/bin/14.rs:96-145 | a pass that neither returns nor is stuck fills one more free tile of the triangle below the source or moves the grain one row down |
| `Day14.StuckForever` | src/bin/14.rs:119-130 | with Overflow, a grain at a blocked source that is itself taken is counted again and again with nothing else changing |
| `Day14.NeverFinishes` | src/bin/14.rs:96-145 | a call that reaches such a state never returns |
| `Day14.SandCount` | src/bin/14.rs:93-130 | the returned count is the number of grains that came to rest above the floor row, plus, with Spout, the last grain at the source |
| `Day14.Cave.FillSand` | src/bin/14.rs:71-147 | the loop returns exactly the count a run of the loop body returns, with the final tiles; with Spout it always returns, and a stuck Overflow call is reported as never returning |
| `Day14.PartOne` | src/bin/14.rs:150-158 | parses, builds the cave and fills it with Overflow and no floor; a parse panic or an empty rock list gives `None` |
| `Day14.PartTwo` | src/bin/14.rs:160-165 | fills with Spout and a floor two rows down, which always returns a count |
| `Day15.Reach` | src/bin/15.rs:17-19 | `distance_to_nearest`: the Manhattan distance from the sensor to its beacon |
| `Day15.Distance` | src/bin/15.rs:14-16 | the Manhattan distance, zero exactly at the sensor itself |
| `Day15.PushedSpec` | src/bin/15.rs:21-30 | the first `n` turns push exactly the points at distance `d` whose row is less than `n` from the sensor's |
| `Day15.Perimeter` | src/bin/15.rs:21-38 | the method returns the pushed points with repetitions removed in first-occurrence order |
| `Seqs.Unique` | src/bin/15.rs:37 | `unique()` keeps the same elements and holds none twice |
| `Day15.PerimeterOf` | src/bin/15.rs:21-38 | the points `perimeter` pushes, without repetitions; `PerimeterSpec` and `PerimeterOmitsTips` say exactly which points at the beacon's distance they are |
| `Day15.PerimeterSpec` | src/bin/15.rs:21-38 | the perimeter has no repeated point, and a point is on it exactly when it lies at the sensor's reach and its row is strictly less than the reach away |
| `Day15.PerimeterOmitsTips` | src/bin/15.rs:24 | the points straight above and below the sensor at its reach are at distance `d` but not on the perimeter |
| `Day15.RowXs` | src/bin/15.rs:44-47 | the `x` values kept by the row filter are exactly those of the perimeter points in the row |
| `Day15.RangeGivenRow` | src/bin/15.rs:39-59 | a range returned runs from its least to its greatest value |
| `Day15.RowOfPerimeter` | src/bin/15.rs:39-59 | the perimeter's points in a row are none beyond the reach, and otherwise exactly the two at `x - k` and `x + k` |
| `Day15.RangeInside` | src/bin/15.rs:39-59 | in a row strictly nearer than the reach, the least and greatest perimeter `x` are `x - k` and `x + k` |
| `Day15.RangeOutside` | src/bin/15.rs:39-59 | a row at or beyond the reach has no range |
| `Day15.RangeGivenRowSpec` | src/bin/15.rs:39-59 | the range exists exactly when the row is strictly nearer than the reach, and is then `x - k ..= x + k` with `k` the reach left after the rows |
| `Day15.RangeCovers` | src/bin/15.rs:39-59 | inside a row the range reaches, its positions are exactly those within the sensor's reach |
| `Day15.Beacons` | src/bin/15.rs:88-94 | one beacon per sensor, its nearest one, in the same order |
| `Day15.Ranges` | src/bin/15.rs:111-114 | every range `filter_map` keeps runs from a start to an end no smaller than it |
| `Day15.CountRow` | src/bin/15.rs:115-135 | the nested loops count exactly the positions of the ranges that hold no beacon |
| `Day15.CoveredSnoc` | src/bin/15.rs:111-114 | a position is covered by the sensors exactly when it is covered by the ones before the last or by the last |
| `Day15.MarkedSpec` | src/bin/15.rs:109-124 | a position is counted exactly when it is in the row, it is no beacon, and some sensor whose range reaches the row has it within its reach |
| `Day15.PartOne` | src/bin/15.rs:99-136 | part one answers the count for row 10 |
| `Day18.ParseCube` | src/bin/18.rs:14-19 | one line: its first three comma-separated pieces as `u32`, `None` on a missing piece or a failed parse; `ParseRenderCube` is its round trip |
| `Day18.ParseRenderCube` | src/bin/18.rs:14-19 | a cube written as `x,y,z` with coordinates below 2^32 parses back to itself |
| `Day18.Adjacent` | src/bin/18.rs:35-43 | the source's test: two coordinates agree and the third differs by exactly 1; `AdjacentSpec` proves it is Manhattan distance 1 |
| `Day18.AdjacentSpec` | src/bin/18.rs:35-43 | the three-way adjacency test holds exactly when the Manhattan distance is 1; it is symmetric and never joins a cube to itself |
| `Day18.GraphOf` | src/bin/18.rs:24-50 | the graph `points_to_graph` builds: each distinct point once and an edge between every adjacent pair; `PointsToGraph` is the loop that builds it |
| `Day18.PointsToGraph` | src/bin/18.rs:24-50 | the graph holds every distinct point once in first-seen order, and an edge in both orientations for every adjacent pair |
| `Day18.JoinFrom` | src/bin/18.rs:30-47 | one turn of the outer loop adds exactly the edges between its point and the later points |
| `Day18.JoinedAll` | src/bin/18.rs:30-47 | the edges of the pairs taken in order are exactly the adjacent pairs of points |
| `Day18.Degree` | src/bin/18.rs:93 | `graph.edges(node).count()`: the number of edges at the node; `DegreeAtMostSix` bounds it |
| `Day18.DegreeAtMostSix` | src/bin/18.rs:93 | no node has more than six edges, so `6 - count` never underflows |
| `Day18.FreeCount` | src/bin/18.rs:90-95 | over distinct nodes, the summed `6 - degree` is six per node less the edges leaving them |
| `Day18.SurfaceCount` | src/bin/18.rs:90-95 | every degree is at most 6, and the surface is six per node less the number of edge orientations |
| `Day18.PartOne` | src/bin/18.rs:78-97 | part one answers exactly when every line parses, and then answers six faces per cube less one per edge orientation |
| `Day18.Maxima` | src/bin/18.rs:54-63 | the fold from (0, 0, 0) gives maxima no smaller than 0 |
| `Day18.MaximaSpec` | src/bin/18.rs:54-63 | each maximum bounds that coordinate of every node and is 0 or some node's coordinate |
| `Day18.Column` | src/bin/18.rs:69-73 | the points of a column are exactly its `(x, y, z)` with `z` in range that are not nodes |
| `Day18.Plane` | src/bin/18.rs:68-74 | the points of a plane are exactly its `(x, y, z)` in range that are not nodes |
| `Day18.Box` | src/bin/18.rs:67-75 | the points of the box are exactly the grid points in range that are not nodes |
| `Day18.PushColumn` | src/bin/18.rs:69-73 | the inner loop appends exactly the column's missing points, in order of `z` |
| `Day18.PushPlane` | src/bin/18.rs:68-74 | the middle loop appends exactly the plane's missing points, in order of `y` then `z` |
| `Day18.PushBox` | src/bin/18.rs:66-75 | the outer loop collects exactly the box's missing points, in order of `x`, `y`, `z` |
| `Day18.InvertedPoints` | src/bin/18.rs:52-75 | the points collected are the box up to the maxima, less the nodes |
| `Day18.FindInvertedGraph` | src/bin/18.rs:52-77 | the inverted graph's nodes are exactly the grid points up to the maxima that are no cubes, joined as `points_to_graph` joins them |
| `Day20.FindFirstSpec` | src/bin/20.rs:6-10 | the `enumerate().find` succeeds exactly when some entry satisfies the test, at a position before which none does |
| `Day20.Remove` | src/bin/20.rs:12 | `Vec::remove`: the list without the entry at the index, one shorter; `RemoveMultiset` and `RemoveInsert` relate it to `Insert` |
| `Day20.Insert` | src/bin/20.rs:25 | `Vec::insert`: the entry at the index and the others shifted up, one longer; `InsertMultiset` keeps the multiset |
| `Day20.RemoveMultiset` | src/bin/20.rs:12 | `Vec::remove` takes out exactly the one entry at the position |
| `Day20.InsertMultiset` | src/bin/20.rs:25 | `Vec::insert` adds exactly the one entry |
| `Day20.RemoveInsert` | src/bin/20.rs:12-25 | removing an inserted entry gives back the list it went into |
| `Day20.NewIndex` | src/bin/20.rs:13-16 | the new place is from 1 to len - 1 and congruent to the old place plus the value modulo len - 1 |
| `Day20.WrapVec` | src/bin/20.rs:5-27 | `wrap_vec` answers exactly when the list has two or more entries and holds the one that started at the index, and keeps the length |
| `Day20.WrapVecPermutes` | src/bin/20.rs:5-27 | `wrap_vec` yields a rearrangement: the same entries, each as often as before |
| `Day20.WrapVecMoves` | src/bin/20.rs:5-27 | the entry that started at the index lands at the new place, and removing it from both lists leaves the others in their old order |
| `Day20.WrapVecSound` | src/bin/20.rs:5-27 | on any rearrangement of a list that holds the index's entry, `wrap_vec` does not panic and keeps the entries |
| `Day20.MixSteps` | src/bin/20.rs:41-44 | the list after `wrap_vec` for the indexes 0 to n-1 in turn, `None` once a step fails; `MixStepsSound` proves it never fails on a parsed list of two or more entries and only rearranges it |
| `Day20.MixStepsNoneStays` | src/bin/20.rs:41-44 | once a step has panicked, the mix has |
| `Day20.MixStep` | src/bin/20.rs:42 | one pass of the loop is the next step of the mix |
| `Day20.Mix` | src/bin/20.rs:40-44 | the loop calls `wrap_vec` once for each original position, in order |
| `Day20.MixRounds` | src/bin/20.rs:70-75 | the list after the given number of full mixes, `None` once a mix fails; `MixRoundsSound` proves the same for it |
| `Day20.MixRoundsNoneStays` | src/bin/20.rs:70-75 | once a round has panicked, all later rounds have |
| `Day20.MixRepeated` | src/bin/20.rs:69-75 | the outer loop repeats the whole mix the given number of times |
| `Day20.PermutationHasTag` | src/bin/20.rs:5-27 | a rearranged list still holds every original position it held |
| `Day20.PermutationTagged` | src/bin/20.rs:5-27 | a rearrangement of a list that carries every original position carries all of them too |
| `Day20.WrapVecSome` | src/bin/20.rs:6-10 | the search of `wrap_vec` never fails on a list of two or more entries that holds the index's entry |
| `Day20.MixStepsSound` | src/bin/20.rs:40-44 | on a parsed list of two or more entries the mix never panics and yields a rearrangement |
| `Day20.MixRoundsSound` | src/bin/20.rs:69-75 | the same for any number of mixes |
| `Day20.ParseInput` | src/bin/20.rs:29-36 | `parse_input`: each line read as `i64` and tagged with its index, `None` where the `unwrap` panics; `TaggedAll` proves the tags are the original positions |
| `Day20.Tagged` | src/bin/20.rs:29-36 | position k of the parsed list holds the k-th value tagged with k |
| `Day20.TaggedAll` | src/bin/20.rs:29-36 | a parsed list carries every original position |
| `Day20.GroveSum` | src/bin/20.rs:45-58 | the values 1000, 2000 and 3000 places after the first zero, counting round the input's length, added up; `None` when no zero exists; `GroveSumSome` proves when it exists |
| `Day20.GroveSumSome` | src/bin/20.rs:45-58 | with the list's own length, the grove sum exists exactly when the list holds a zero |
| `Day20.AnswerSome` | src/bin/20.rs:37-93 | two or more values, one of them zero, always give an answer, for any number of mixes |
| `Day20.Scaled` | src/bin/20.rs:62-68 | each value is multiplied by the decryption key 811589153 and keeps its tag |
| `Day20.PartOne` | src/bin/20.rs:38-59 | part one is the grove sum after one mix of the parsed list |
| `Day20.PartTwo` | src/bin/20.rs:61-90 | part two is the grove sum after ten mixes of the scaled list |
| `Day21.ParseLine` | src/bin/21.rs:42-63 | a parsed line is keyed by the trimmed text before the colon and never holds a verdict; only root in part two gets an `Equal` operation |
| `Day21.RootBecomesEqual` | src/bin/21.rs:81-88 | in part two root's operation becomes `Equal` on the same operands whatever its operator, and every other line parses as in part one |
| `Day21.ParseAll` | src/bin/21.rs:40-66 | the parsed map's keys are exactly the lines' keys, and no entry holds a verdict |
| `Day21.ParseInput` | src/bin/21.rs:40-66 | the insert loop yields `ParseAll`: later lines override earlier ones, and the first bad line is the error |
| `Day21.Value` | src/bin/21.rs:107-165 | an operation yields a number, or for `Equal` a verdict that holds iff both operands are equal |
| `Day21.EntryUpdate` | src/bin/21.rs:106-168 | number entries are kept; an entry is overwritten only when both operands are numbers, and then with its operation's value; a subtraction below zero or an inexact division aborts the human search, and only the human search aborts |
| `Day21.Pass` | src/bin/21.rs:104-169 | one sweep keeps the key set, and every entry is either unchanged or turned from an operation into a non-operation |
| `Day21.RunPass` | src/bin/21.rs:104-169 | the `for` loop over the snapshot computes `Pass` |
| `Day21.ShrinkOps` | src/bin/21.rs:103-171 | a sweep that changes anything resolves at least one operation, so the outer loop only repeats a state when it makes no progress |
| `Day21.Evaluate` | src/bin/21.rs:103-171 | evaluation stops with root no longer an operation and the same keys, unless it aborts, panics or stops making progress |
| `Day21.Settle` | src/bin/21.rs:103-171 | the outer `while` loop computes `Evaluate` |
| `Day21.PassConsistent` | src/bin/21.rs:104-169 | a sweep keeps every resolved entry equal to its original operation applied to its operands' current numbers |
| `Day21.EvaluateConsistent` | src/bin/21.rs:103-171 | the whole evaluation keeps that consistency |
| `Day21.SolvePartOne` | src/bin/21.rs:182-239 | part one returns root's settled number, or the panic that stops it |
| `Day21.PartOneHonest` | src/bin/21.rs:182-239 | part one's answer is the number root's operation yields, with every resolved monkey holding its operation's value |
| `Day21.FindHumanValue` | src/bin/21.rs:97-180 | `find_human_value` binds humn to h, evaluates, and accepts h exactly when root settles as a true equality |
| `Day21.AcceptedBalances` | src/bin/21.rs:97-180 | an accepted h really balances root: root was an `Equal` whose two operands settle to the same number, with humn still h |
| `Day21.PartTwo` | src/bin/21.rs:241-253 | the answer is the least h ≥ 1 that is accepted, every smaller candidate was rejected, and the search stops at the first panic or endless loop |
| `Day23.NextDirection` | src/bin/23.rs:17-24 | the next direction is the following one in declaration order, East wrapping to North |
| `Day23.RoundDirection` | src/bin/23.rs:144-153 | the cycling iterator's direction for round r is entry r mod 4 of North, South, West, East |
| `Day23.TurnPeriod` | src/bin/23.rs:33-41 | four turns return to the start direction and fewer do not, so the `while` loop stops |
| `Day23.CycleListsAll` | src/bin/23.rs:33-41 | a direction cycle starts at its direction and lists each of the four directions exactly once |
| `Day23.DirectionCycle` | src/bin/23.rs:33-41 | the loop returns four directions, each the next one of the one before |
| `Day23.ComparisonVectors` | src/bin/23.rs:25-32 | the step is listed first, and the three vectors are exactly the neighbours on that direction's side |
| `Day23.SidesCoverNeighbours` | src/bin/23.rs:54-58 | the four sides together cover all eight neighbours, so the `any` test looks at every neighbour |
| `Day23.FirstOpen` | src/bin/23.rs:62-74 | the labelled loop finds nothing exactly when every direction is blocked, and a found step lands on an empty cell |
| `Day23.AloneStays` | src/bin/23.rs:54-61 | an elf with no neighbour proposes nothing |
| `Day23.ProposerHasNeighbour` | src/bin/23.rs:54-61 | an elf that proposes has a neighbour |
| `Day23.Proposal` | src/bin/23.rs:51-75 | what `check_direction` proposes: nothing for an elf without neighbours, else the first of the round's four directions whose three cells are free; `ProposalIsFirstOpen` states it |
| `Day23.ProposalIsFirstOpen` | src/bin/23.rs:51-75 | an elf with a neighbour proposes one step in the first unblocked direction of the cycle, onto an empty cell |
| `Day23.BoxedIn` | src/bin/23.rs:74 | an elf blocked on all four sides proposes nothing |
| `Day23.AnyOccupied` | src/bin/23.rs:64-71 | the inner loop finds an elf exactly when the direction is blocked |
| `Day23.CheckDirection` | src/bin/23.rs:51-75 | `check_direction` computes `Proposal` |
| `Day23.Uncontested` | src/bin/23.rs:165-179 | a proposal survives duplicate removal exactly when no other elf proposes the same target |
| `Day23.UncontestedIsInjective` | src/bin/23.rs:165-179 | after removal no two elves share a target |
| `Day23.ProposalsTargetEmpty` | src/bin/23.rs:155-161 | every proposal comes from an elf and targets an empty cell |
| `Day23.ElfCountKept` | src/bin/23.rs:155-186 | a round keeps the number of elves |
| `Day23.CollectProposals` | src/bin/23.rs:155-161 | the `filter_map` builds the map of all proposals |
| `Day23.CountTarget` | src/bin/23.rs:167-171 | the `filter().count()` is the number of elves proposing that target |
| `Day23.RemoveDuplicates` | src/bin/23.rs:165-179 | collecting and removing the duplicates leaves `Uncontested` of the proposals |
| `Day23.Retain` | src/bin/23.rs:182 | `retain` removes exactly that elf, and one entry when the list has no repeats |
| `Day23.ApplyMoves` | src/bin/23.rs:181-184 | the update loop keeps the list free of repeats and its length, and moves exactly the proposing elves to their targets |
| `Day23.Round` | src/bin/23.rs:155-185 | one round yields `NextElves`, keeps the elf count, and reports whether any elf proposed |
| `Day23.GetBoundaries` | src/bin/23.rs:101-119 | the corners bound every elf and each coordinate is attained; with no elves they stay at the i32 extremes |
| `Day23.BoxCard` | src/bin/23.rs:121-124 | the box spans width · height cells |
| `Day23.EmptyCells` | src/bin/23.rs:195-201 | width · height minus the elf count is the number of empty cells in the box |
| `Day23.Parse` | src/bin/23.rs:88-99 | the parsed elves are exactly the `#` cells, with no repeats |
| `Day23.SimulateSucc` | src/bin/23.rs:153-186 | round n + 1 starts from the elves after n rounds and faces North turned n times |
| `Day23.RunRounds` | src/bin/23.rs:153-186 | the round loop yields `Simulate` from North and keeps the elf count |
| `Day23.PartOne` | src/bin/23.rs:141-202 | the answer is the number of empty cells in the smallest box around the elves after ten rounds |
| `Day23.RoundsUntilQuiet` | src/bin/23.rs:204-260 | the answer is the first round in which no elf proposes, and elves proposed in every earlier round |
| `Day23.PartTwo` | src/bin/23.rs:204-261 | part two runs the rounds from the parsed grid |
| `Day24.UnitVector` | src/bin/24.rs:33-41 | each direction's vector has length 1, is vertical exactly for up and down, and points forwards for down and right |
| `Day24.Step` | src/bin/24.rs:42-69 | a step adds the unit vector and wraps only the moving coordinate, and only when it leaves 0..=max |
| `Day24.StepModular` | src/bin/24.rs:42-69 | inside the box, a step is the move modulo max + 1 on each axis |
| `Day24.StepTowardsHome` | src/bin/24.rs:84-88 | every step off the start cell brings the blizzard strictly nearer to the start, around its line |
| `Day24.Scan` | src/bin/24.rs:84-88 | the wall-skipping loop ends on a cell that is not a wall, on the blizzard's line |
| `Day24.NextPos` | src/bin/24.rs:84-114 | a blizzard's next cell is open, inside the box and on its own line |
| `Day24.StepAll` | src/bin/24.rs:76-118 | stepping keeps the count, the order and the directions, and puts every blizzard on an open cell in the box |
| `Day24.MaxOrZero` | src/bin/24.rs:122-126 | the fold from 0 yields the largest value, or 0 |
| `Day24.Boundaries` | src/bin/24.rs:122-126 | the largest wall x and y, each at least 0; every wall lies within them |
| `Day24.StepBlizzards` | src/bin/24.rs:76-118 | the loop of `Blizzards::step` computes `StepAll` |
| `Day24.SkipWalls` | src/bin/24.rs:84-88 | the inner `while` loop computes `NextPos` |
| `Day24.WalledStep` | src/bin/24.rs:42-118 | in a walled basin one minute moves a blizzard one interior cell forwards and wraps past the walls at either end |
| `Day24.WalledAfter` | src/bin/24.rs:42-118 | after t minutes a blizzard in a walled basin is at its start cell shifted by t modulo the interior length |
| `Day24.WalledPeriodic` | src/bin/24.rs:42-118 | a blizzard comes back to its start after any multiple of its line's interior length |
| `Day24.Lcm` | src/bin/24.rs:494 | the least positive common multiple of the two interior sizes |
| `Day24.FieldAt` | src/bin/24.rs:495-500 | the field after t steps keeps the count and keeps every blizzard open and in the box |
| `Day24.FieldAtEach` | src/bin/24.rs:495-500 | the field after t steps is each blizzard moved t times on its own |
| `Day24.Period` | src/bin/24.rs:494 | the period is positive and a multiple of both interior sizes |
| `Day24.FieldPeriodic` | src/bin/24.rs:494-500 | after one period the whole field is back where it started, which justifies the wrap edge from the last minute to minute 0 |
| `Day24.Parse` | src/bin/24.rs:138-165 | walls are the `#` cells and blizzards the arrow cells, in reading order |
| `Day24.GridBlizzardsMember` | src/bin/24.rs:138-165 | a blizzard is parsed iff an arrow naming its direction stands at its cell |
| `Day24.ParsedApart` | src/bin/24.rs:138-165 | no parsed blizzard starts on a wall |
| `Day24.AnyAt` | src/bin/24.rs:218 | the `any` test holds iff some blizzard stands on the cell |
| `Day24.OpenGraph.AddCycleNodes` | src/bin/24.rs:210-224 | adds exactly the box cells that are neither wall nor blizzard, as nodes of the given minute |
| `Day24.OpenGraph.LastCycle` | src/bin/24.rs:226 | the largest minute among the nodes |
| `Day24.OpenGraph.FindEndings` | src/bin/24.rs:292-301 | the nodes on the row with the largest y |
| `Day24.OpenGraph.FindStarts` | src/bin/24.rs:302-311 | the nodes on the row with the smallest y |
| `Day24.OpenGraph.LinkCycles` | src/bin/24.rs:227-257 | links every node of one minute to each node of the next minute at distance at most 1 |
| `Day24.OpenGraph.RemoveWaits` | src/bin/24.rs:276-290 | removes exactly the wait edges out of the given nodes |
| `Day24.OpenGraph.FinalizeEdges` | src/bin/24.rs:225-291 | the edges become the old ones plus every link to the next minute, the last minute wrapping to 0, minus the waits on the first and last rows |
| `Day24.LayersMember` | src/bin/24.rs:495-500 | a node is in the graph iff its minute is in range and its cell is open at that minute |
| `Day24.BuildGraph` | src/bin/24.rs:489-501 | builds one layer of open cells per minute of the period; the edges are then exactly the links minus the pruned waits |
| `Day24.LayersBelowPeriod` | src/bin/24.rs:494-500 | every node's minute is below the period |
| `Day24.LinkIsMove` | src/bin/24.rs:225-291 | in a walled basin every edge is a legal minute: a move of at most one cell from an open cell to a cell that is open one minute later |
| `Day25.Decode` | src/bin/25.rs:1-16 | decoding succeeds exactly on strings of the five SNAFU digits |
| `Day25.DecodeSplit` | src/bin/25.rs:3-14 | digits are weighted by powers of five from the right: the value of p + q is value(p)·5^|q| + value(q) |
| `Day25.DecodeRightmostError` | src/bin/25.rs:12 | the panic names the rightmost bad character, the first one the reversed scan meets |
| `Day25.SnafuToInt` | src/bin/25.rs:1-16 | the loop computes `Decode` |
| `Seqs.Reverse` | src/bin/25.rs:35 | reversal keeps the length and mirrors the positions |
| `Day25.Encode` | src/bin/25.rs:19-36 | `int_to_snafu` as a recursion: low digit `(n + 2) rem 5` as one of `=`, `-`, `0`, `1`, `2`, then the numeral of `(n + 2) / 5`, with Rust's truncating division; `RoundTrip` proves it decodes back |
| `Day25.IntToSnafu` | src/bin/25.rs:19-36 | the loop computes `Encode`; zero encodes as the empty string |
| `Day25.RoundTrip` | src/bin/25.rs:19-36 | an encoding uses only SNAFU digits and decodes back to the number |
| `Day25.EncodeNonNegative` | src/bin/25.rs:19-36 | every n ≥ 0 has an encoding |
| `Day25.Total` | src/bin/25.rs:38-44 | the sum of the decoded lines is defined exactly when every line is valid SNAFU |
| `Day25.TotalOfValues` | src/bin/25.rs:38-44 | lines that decode to known values total the sum of those values |
| `Day25.PartOne` | src/bin/25.rs:42-47 | the answer decodes to the sum of the lines and is exactly `int_to_snafu`'s numeral for that sum; it exists whenever the sum is non-negative, and a bad line is an error |
| `Day25.ExampleTotal` | src/bin/25.rs:68 | the example lines sum to 4890 |
| `Day25.ExampleEncode` | src/bin/25.rs:68 | 4890 encodes as "2=-1=0" |
| `Day25.ExampleAnswer` | src/bin/25.rs:65-68 | part one on the sample lines answers "2=-1=0" |

## Left out

- Reading the input files, `main`, and every `println!`/`dbg!` are I/O. Shared without change by all days.
- Machine integers (`u32`, `u64`, `i32`, `i64`, `usize`) are unbounded integers in the model. Overflow is not modelled anywhere; a debug-build underflow panic is modelled as an error value where noted.
- `Text.IsSpace`: only space, tab, newline and carriage return count as whitespace; the vertical tab and form feed, and the other Unicode whitespace that `trim` and `split_whitespace` skip, do not.
- HashMap iteration order: a parameter (`order`, each key once), so every result is stated for every possible order.
- Day01: a count that does not parse is a panic, modelled as `None`, so part one's `None` also stands for a panic; the source's own `None` of `max` on an empty list cannot happen, since splitting always yields a group.
- Day01: `u32` overflow of a group total or of the part two sum is not modelled.
- Day01: `sort`, `reverse` and `truncate` are modelled by their results on a sequence value (an insertion sort as the reference for `sort`), not as updates of a vector in place.
- Day01: the tests assert `None` for both parts, which `part_two` never returns; those placeholder tests are not restated.
- Day02: `u32` overflow of the score is not modelled; the example is given as its three lines, not read from a file.
- Day02: the test of part two expects `None`, but `part_two` always returns a score; the model follows the code, and `ExampleTwo` states the score 12 it returns for the example.
- Day03: `split_vector`'s two panics are error values, and part one reports `None` where the source panics.
- Day03: the `u32` totals are unbounded integers; overflow is not modelled.
- Day03: `lines()` is the sequence of lines given to the solver; a carriage return at a line end is not removed.
- Day03: the example answers 157 and 70 are not restated, because the example rucksacks are not part of this model.
- Day04: the parsers' error strings are modelled as the kind of error with the offending text; the wording of Rust's `ParseIntError` and the `{:?}` rendering of the split iterator are not.
- Day04: the `u32` counters are unbounded integers; overflow is not modelled.
- Day04: `lines()` is the sequence of lines given to the solver; a carriage return at a line end is not removed.
- Day04: the example answers 2 and 4 are not restated, because the example assignments are not part of this model.
- Day05: the move regex is modelled as an exact match of the whole line "move N from S to T" with single spaces; the source's regex would also accept a line that merely contains such a text.
- Day05: `lines()` is modelled as a split on newlines; a carriage return before the newline is not removed.
- Day05: the drawing is indexed by characters, while the source slices bytes; the two agree on the ASCII drawings the puzzle uses.
- Day05: a panic (a missing part, an empty line, an invalid label, a pop from an empty stack, a stack number out of range, an empty stack at the end) is `None` or an error value; the examples `CMZ` and `MCD` are not restated.
- Day06: the two copies of the loop are one method with the window width as a parameter; the `VecDeque` is a sequence, and the `HashSet` is the set of the buffer's characters.
- Day06: the answer is an unbounded natural number; the `index as u32` cast, which would wrap on inputs of more than 2^32 characters, is not modelled.
- Day06: the input is a sequence of Unicode scalar values, as `chars()` yields them; the example answers 5 and 19 are not restated, since the example file is not part of this model.
- Day07: a `PathBuf` is modelled as its list of components below the root. `join` keeps `..` in a joined path as a component, as `Path::components` does, and drops empty and `.` components; only a `cd ..` on its own climbs.
- Day07: the `HashMap` loops run in any order through a choice of the next key; the sums they build are stated for every order.
- Day07: the sort and `find` of part two are modelled by their result, the least size above the space to free.
- Day07: `u32` overflow of a direct size, a recursive size or the part one total is not modelled; a size that does not fit a `u32` when parsed, a missing word and a `cd ..` in the root are panics, modelled as `None`.
- Day07: the example answers 95437 and 24933642 are not restated; the example session is not part of this model.
- Day07b: `parse_input` and the line parser are left out. `part_one` calls `parse_input`, which only prints each line and panics on one that does not parse (src/bin/07b.rs:270-277); `part_one` then returns `None`. No answer uses the arena.
- Day07b.Depth: requires an `Ordered` arena, where each node stores its own position, its parent comes before it and its children come after it. On that arena the source's recursions and its climbing loop end. Arenas whose parent links are acyclic but out of order are not covered, and on a cyclic arena the source recurses without end.
- Day07b.DepthToTargetSound: the search returns the first hit in children order, not the shortest path. The model states soundness and completeness, not minimality, because the source promises no minimality.
- Day08: rows of unequal length are reported as `None`. In the source, such a forest makes some line of sight index past the end of a shorter row, so both parts panic.
- Day08.Score: the product of the distances is computed exactly before the `u32` truncation. The source multiplies in `usize`, which could overflow only for rows of more than 65535 trees.
- Day08: the example answers 21 and 8 are not restated; the example forest is not part of this model.
- Day09: positions and distances are unbounded integers; the `i32` overflow of a knot coordinate on an enormous input is not modelled.
- Day09: the `dbg!` output is not modelled, and the example answers 13 and 36 are not restated.
- Day09.Rope.Movement: requires at least one knot, where the source would panic indexing the head of an empty rope; the solvers use two and ten knots.
- Day10: the `i32` register and the `i32` products of the signal sum are unbounded integers; overflow is not modelled.
- Day10: the example answer 13140 is not restated, because the example program is not part of this model.
- Day10.PartTwo: the screen is returned as text instead of being printed; `dbg!` output is not modelled.
- Day10: `part_one` and `part_two` repeat the same cycle loop; the model has it once, as `RunProgram`.
- Day11: monkeys arrive as decoded records (`MonkeyNotes`). The regex that cuts out a record, the starting-items list and the test and target numbers are not modelled, because they go through the `regex` library. `ParseOperation` models the operation text only.
- Day11: the records are taken to be in id order with ids 0..n-1, which is the order the source's `BTreeMap` iterates.
- Day11.Valid: requires every test to be positive, every target to exist and no monkey to throw to itself. Otherwise the source divides by zero, fails an `unwrap`, or borrows a `RefCell` twice, all panics.
- Day11.CalculateWorry: the source divides in `f32`. This matches integer division by three only while the worry is exactly representable in `f32`, which the model does not check.
- Day11: `u64` overflow of worry levels is not modelled. Part one's worry never shrinks below the operation's result divided by three, and part two squares values below the modulus.
- Day11: the example answers 10605 and 2713310158 are not restated; the example records are not part of this model.
- Day11: the sort of the counts is modelled by its result, the first two entries of a descending order.
- Day12: the A* search of the `pathfinding` crate is a function parameter `search` giving the number of moves of the path it finds, or none; the search itself, its heuristic and its optimality are not modelled.
- Day12: `print_path` only prints and is not modelled; part two's re-parsing for every start yields the same grid and is not repeated.
- Day12: the panics on an invalid character and on a missing 'S' or 'E', and part one's unwrap of a missing path, are `None`.
- Day12: the example answers 31 and 29 need the search and are not restated.
- Day13: `serde_json::from_str` is a function parameter `decode` from a line to a decoded JSON value, or none where the text is no JSON. The JSON grammar itself is not modelled.
- Day13: the divider packets are built directly as `[[2]]` and `[[6]]`; `DividerFromJson` states that their decoded JSON converts to them, but the decoding of the texts "[[2]]" and "[[6]]" is not modelled.
- Day13.Sort: `Vec::sort` is modelled as a stable insertion sort on values. Only that the result is a permutation with no packet greater than the next is proved; stability and the transitivity of the ordering are not.
- Day13: a JSON number is an integer or some other number; `as_u64` of a negative or fractional number fails and panics, like any other panic modelled as `None`.
- Day13: `lines()` is modelled as a split on newlines; a carriage return before the newline is not removed.
- Day13: the `u32` sum of part one and the `usize` product of part two are unbounded integers; overflow is not modelled.
- Day13: the example answers 13 and 140 are not restated, because the example packets are not part of this model.
- Day14: the `x,y` text of an endpoint is taken as `u64` decimal numbers; extra comma-separated parts after the second are ignored, as in the source.
- Day14.Cave.FillSand: requires height + floor >= 2 with Spout. For a one-row cave without floor, the source's grain falls past the floor row and the loop never ends.
- Day14.Cave.FillSand: a call that gets stuck (with Overflow, the blocked source is itself a taken tile) loops forever in the source and is returned as `Diverges`. The model stops there instead of counting on.
- Day14: `Cave::new` on an empty rock list panics at `unwrap`; `PartOne` and `PartTwo` return `None` there and the constructor requires a non-empty list.
- Day14: the example answers 24 and 93 are not restated; the example scan is not part of this model.
- Day15: `parse_input` is left out: the `regex` match of a sensor line is not modelled, and the sensors arrive as decoded records with their nearest beacons.
- Day15: the `i32` coordinates and the `as u32` casts are unbounded integers; overflow is not modelled.
- Day15: `part_two` returns `None` and is not modelled. The example answer 26 is not restated, because the example sensors are not part of this model.
- Day15: part one counts row 10 as the source does; the row of 2000000 the real input needs appears only in a comment.
- Day18: `part_two` (petgraph's `tarjan_scc` over the inverted graph) is left out: a foreign graph-library call.
- Day18: `parse` panics on a line with fewer than three pieces or a piece that is no `u32`; the model reports `None` for the whole input.
- Day18: the `u32` sum of part one and the `as i32` casts in the adjacency test are unbounded integers; overflow is not modelled.
- Day18: the example answers 64 and 58 are not restated, because the example cubes are not part of this model.
- Day18: the graph is modelled as the node sequence and a set of edge orientations; petgraph's internal storage and edge order are not.
- Day20: `parse_input`'s `unwrap` on a line that is no `i64` panics; the model reports `None` for the whole input, as it does for the `unwrap`s of a missing entry or a missing zero.
- Day20: `wrap_vec` on a one-entry list takes `rem_euclid(0)` and panics; the model reports `None`.
- Day20: the `u32` tags, the `i64` arithmetic of the new index and the sum, and the `u32` sum of the zero's position and 1000, 2000 or 3000 are unbounded integers; overflow is not modelled.
- Day20: the example answers 3 and 1623178306 are not restated, because the example list is not part of this model.
- Day21: the sweeps visit the monkeys in the `HashMap`'s iteration order, the `order` parameter of `Evaluate`, and the outcome can depend on that order. A subtraction below zero or an inexact division, anywhere in a sweep, ends the search for the current h, even when root does not use that monkey.
- Day21: `+` and `*` on u64 can overflow in the source (a panic in a debug build). The model computes them exactly.
- Day21: part one's `u64` subtraction below zero panics in a debug build; the model reports `Underflow`.
- Day21.PartTwo: the source searches h = 1, 2, 3, … without bound. The method takes a `limit` and reports `Exhausted` past it.
- Day21: the example answers 152 and 301 are not restated; evaluating the fifteen example monkeys symbolically is beyond the proof budget.
- Day23: an input without elves is left out of both answers. The source's `u32` casts of a negative width and height would wrap.
- Day23.PartTwo: the source repeats rounds until none proposes, without bound. The method takes a `limit` and returns `None` past it.
- Day23: the example answers 110 and 20 are not restated; simulating the example rounds is beyond the proof budget.
- Day23.GetBoundaries: the first elf sets both corners directly. This equals the source's comparisons against `i32::MAX` and `i32::MIN` only when coordinates fit in `i32`, and the model does not bound them.
- Day24: the path search (`find_solution`, `find_solution_part_two`, petgraph's `astar`), `part_two`, and the example answer 18 are left out. They are foreign graph-library calls; the model stops at the node and edge sets.
- Day24.BuildGraph: requires a box of at least 3 × 3 cells (both maxima ≥ 2), because the period is the lcm of the interior sizes. A box with no interior has no usable period.
- Day24.LinkIsMove: requires that the last minute of the period has an open node, because otherwise the source's "last cycle" is an earlier minute and the wrap edge joins the wrong layers.
- Day24.StepBlizzards: requires every blizzard to start inside the wall box on a non-wall cell, because otherwise the source's wall-skipping loop need not end.
- Day25: `i64` arithmetic and `5i64.pow(i)` overflow for strings longer than 27 digits; the model computes exactly.
