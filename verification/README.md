# Advent of Code 2022 (days 1 to 14) in Dafny

This project models the Rust solutions of the first fourteen puzzles of
Advent of Code 2022 and proves properties of the model. Each puzzle reads
its input, parses it, and computes two answers ("problem 1" and
"problem 2"). Each day is one Dafny module:

- Day 1: calorie groups separated by blank lines. Problem 1 is the largest
  group total and problem 2 the sum of the three largest.
- Day 2: rock, paper, scissors scores.
- Day 3: rucksack item priorities.
- Day 4: section ranges that contain or overlap each other.
- Day 5: crates moved between stacks, one at a time or as a block.
- Day 6: the first window of `k` distinct bytes in a stream.
- Day 7: directory sizes from a shell transcript.
- Day 8: visible trees and scenic scores on a height grid.
- Day 9: a rope whose tail follows its head.
- Day 10: the signal and screen of a small CPU.
- Day 11: monkeys passing items, with worry levels reduced modulo the
  product of the test divisors.
- Day 12: a search on a height map from `S` to `E`. As written, the
  search never expands a cell: every queued entry already has a
  distance no larger than its step count, so the pruning guard sends the
  loop straight to the next entry, and the goal is never reported. The
  model keeps the expansion step as written and proves both what it does
  and that the loop never reaches it.
- Day 13: nested packets. `Packet` models their parser, printer and
  ordering; `Day13` models the input blocks, the pair check and the divider
  search.
- Day 14: sand falling onto rock paths.

Three shared modules hold what the days have in common:

- `Util`: `Option`, `Result`, `Ordering`, sums, and the `collect` of a
  sequence of options.
- `Text`: `split`, `split_whitespace`, integer parsing and printing.
- `Sorting`: a stable insertion sort that stands for `sort` and
  `sort_by`, and counting.

A panic in the source (`unwrap` on `None`, an index out of range, a
subtraction below zero on `usize`) is an error result in the model:
`None`, `Err`, or a dedicated error constructor. Every `requires` is a
demand the source itself makes of its caller, such as the shape of the
hard-coded monkey tables. Where a loop in the
source updates variables, the model is a `method` with that loop. Its
`ensures` ties the result to a specification function, and lemmas prove
what the puzzle promises about that function.

## Model

| member | source | states |
|---|---|---|
| Day01.Step | days/01/src/main.rs:24-31 | One turn of the loop: a blank line closes the open group, any other line is read as an `i32` and appended to it, and a line that does not parse panics (`None`) |
| Day01.Run | days/01/src/main.rs:24-31 | The loop state after all lines, one `Step` per line in order; `None` once a line has panicked |
| Day01.ParseInput | days/01/src/main.rs:18-34 | The result is the closed groups of the loop specification `Run`, and it is `None` exactly when `Run` panics |
| Day01.RunDefined | days/01/src/main.rs:24-31 | The input panics exactly when some non-blank line is not an `i32` |
| Day01.RunPanicExtends | days/01/src/main.rs:24-31 | Once a prefix panics, the whole input panics |
| Day01.RunSnoc | days/01/src/main.rs:24-31 | Reading one more line is one more turn of the loop |
| Day01.RunCounts | days/01/src/main.rs:24-31 | There are as many groups as blank lines, and every number read is in a closed group or the open one |
| Day01.RunLines | days/01/src/main.rs:28-30 | The lines of a group's numbers append those numbers to the open group |
| Day01.RunGroup | days/01/src/main.rs:25-27 | A group's numbers followed by a blank line close exactly that group |
| Day01.RunRender | days/01/src/main.rs:18-34 | Groups written one number per line, each followed by a blank line, read back as the same groups |
| Day01.ParseRender | days/01/src/main.rs:18-34 | Numbers after the last blank line stay in the open group and are not returned |
| Day01.Totals | days/01/src/main.rs:37-38 | One total per elf, each the sum of that elf's numbers |
| Day01.MaxOf | days/01/src/main.rs:39 | `max` is `None` exactly for no elements, and otherwise an element no smaller than any other |
| Day01.Problem1 | days/01/src/main.rs:36-44 | The `max` of the totals, `None` where its `unwrap` panics on no elves (its properties: `Day01.Problem1Max`) |
| Day01.Problem1Max | days/01/src/main.rs:36-44 | Problem 1 is the total of some elf and no elf carries more; it panics only when there are no elves |
| Day01.Problem2 | days/01/src/main.rs:46-58 | The totals sorted, then the sum of the last three, or of all when there are fewer (its properties: `Day01.Problem2Top`, `Day01.Problem2Bounds`) |
| Day01.Problem2Top | days/01/src/main.rs:46-58 | The sorted totals are a non-decreasing permutation of the totals; problem 2 adds the last three (or all if fewer), each at least any total left out, and the largest is problem 1 |
| Day01.SortedLastIsMax | days/01/src/main.rs:51 | The last sorted total is the maximum |
| Day01.TakeLast | days/01/src/main.rs:53 | `rev().take(k).sum()` is the sum of the last `k` |
| Day01.Problem2Bounds | days/01/src/main.rs:46-58 | With no negative totals, problem 1 <= problem 2 <= 3 * problem 1 |
| Day02.EndingFrom | days/02/src/main.rs:14-25 | Only "X", "Y" and "Z" are endings; any other word gives the error message with the word appended |
| Day02.ChoiceFrom | days/02/src/main.rs:58-72 | Only "A" to "C" and "X" to "Z" are shapes; any other word gives the error message |
| Day02.LettersAgree | days/02/src/main.rs:58-72 | "A"/"X", "B"/"Y" and "C"/"Z" name the same shape, and the three shapes differ |
| Day02.Value | days/02/src/main.rs:35-41 | A shape is worth 1 to 3 |
| Day02.Show | days/02/src/main.rs:74-82 | A shape displays as one letter |
| Day02.ShowDistinct | days/02/src/main.rs:74-82 | Different shapes display differently |
| Day02.PartialCmp | days/02/src/main.rs:84-98 | The comparison is always defined |
| Day02.Cmp | days/02/src/main.rs:100-104 | `cmp` unwraps `partial_cmp`, which is always defined (its properties: `Day02.CmpIsGame`, `Day02.CmpAntisymmetric`, `Day02.CmpCyclic`) |
| Day02.CmpIsGame | days/02/src/main.rs:84-104 | Equal shapes compare equal, and a shape is greater exactly than the one it beats |
| Day02.CmpAntisymmetric | days/02/src/main.rs:84-104 | Swapping the shapes reverses the comparison |
| Day02.CmpCyclic | days/02/src/main.rs:84-104 | Rock < paper < scissors < rock, so the order is not transitive |
| Day02.ForOutcomeMeets | days/02/src/main.rs:43-55 | `for_outcome` gives the ending asked for, and no other shape does |
| Day02.RoundScore | days/02/src/main.rs:136-153 | A round scores 1 to 9 |
| Day02.RoundScoreDecides | days/02/src/main.rs:136-153 | A round's score determines both shapes |
| Day02.EndingScore | days/02/src/main.rs:155-173 | In problem 2 a round scores the played shape plus 0, 3 or 6 for the ending asked |
| Day02.ParseLine | days/02/src/main.rs:119-134 | A line parses exactly when it has two words and the first is a shape; the result is that shape and the second word |
| Day02.ParseLineOfWords | days/02/src/main.rs:119-134 | "<opponent letter> <word>" parses back to the two |
| Day02.ParseInput | days/02/src/main.rs:119-134 | The loop pushes every parsed line in order, and fails on the first bad line |
| Day02.Problem1 | days/02/src/main.rs:136-153 | The sum of the round scores with the second word read as a shape; `None` where its `unwrap` panics (bounds: `Day02.ProblemsBounded`) |
| Day02.Problem2 | days/02/src/main.rs:155-173 | The sum of the round scores with the second word read as the ending asked; `None` where its `unwrap` panics (bounds: `Day02.ProblemsBounded`) |
| Day02.ProblemsBounded | days/02/src/main.rs:136-173 | Each total is defined exactly when every second word parses, and lies between the round count and 9 times it |
| Day03.IndexOf | days/03/src/main.rs:30-31 | `find` gives the first occurrence, and `None` exactly when the letter is absent |
| Day03.AlphabetDistinct | days/03/src/main.rs:9 | The alphabet has 52 letters with no repeats |
| Day03.Priority | days/03/src/main.rs:30-31 | The letter's position in `ALPHABET` plus one; `None` where `find` gives nothing and `unwrap` panics (its values: `Day03.PriorityValues`) |
| Day03.PriorityValues | days/03/src/main.rs:9 | `a` to `z` score 1 to 26 and `A` to `Z` score 27 to 52; nothing else has a priority |
| Day03.PriorityInjective | days/03/src/main.rs:9 | Different letters have different priorities |
| Day03.Items | days/03/src/main.rs:27-28 | The item set holds exactly the characters of the string |
| Day03.CommonPicks | days/03/src/main.rs:29-30 | The picked item is common, and a single common item is picked whatever the iteration order |
| Day03.CompartmentsScore | days/03/src/main.rs:24-32 | With one item in both halves of an even line, the line scores that item's priority |
| Day03.Problem1 | days/03/src/main.rs:18-38 | The sum over the lines of the priority of the item both halves share; `None` where an `unwrap` or the odd-length `assert!` panics (bounds: `Day03.TotalsBounded`) |
| Day03.Badge | days/03/src/main.rs:48-59 | The priority of the item common to a chunk's three lines; `None` for a chunk of fewer than three lines, no common item or no priority |
| Day03.Problem2 | days/03/src/main.rs:40-66 | The sum of the badges of the chunks of three lines; `None` where any chunk panics (`Day03.Problem2NeedsTriples`, `Day03.TotalsBounded`) |
| Day03.Chunks | days/03/src/main.rs:46 | `chunks(3)` gives groups of three, except possibly a shorter last one |
| Day03.ChunksCover | days/03/src/main.rs:46 | The chunks hold the lines in order, and all are full exactly when the line count is a multiple of three |
| Day03.Problem2NeedsTriples | days/03/src/main.rs:40-66 | A line count that is not a multiple of three makes problem 2 panic |
| Day03.TotalsBounded | days/03/src/main.rs:18-66 | Problem 1 lies between 1 and 52 per line; problem 2 between 1 and 52 per group of three |
| Day04.ParseLine | days/04/src/main.rs:20-47 | A line parses exactly when every piece is an `i32` and there are at least four; the first four give the two ranges |
| Day04.ParseInput | days/04/src/main.rs:20-47 | Every line parsed in order, `None` where some line panics |
| Day04.ParseShow | days/04/src/main.rs:20-47 | A pair written "a-b,c-d" within `i32` parses back to the same pair |
| Day04.Contains | days/04/src/main.rs:53 | The problem 1 filter: one range's bounds enclose the other's (its meaning: `Day04.ContainsMeaning`) |
| Day04.Overlaps | days/04/src/main.rs:64 | The problem 2 filter: an upper bound of one range lies within the other (its meaning: `Day04.OverlapsMeaning`) |
| Day04.Problem1 | days/04/src/main.rs:49-59 | The number of pairs that pass the problem 1 filter |
| Day04.Problem2 | days/04/src/main.rs:60-70 | The number of pairs that pass the problem 2 filter |
| Day04.FiltersSymmetric | days/04/src/main.rs:49-70 | Neither filter depends on the order of the pair |
| Day04.ContainsMeaning | days/04/src/main.rs:53 | For non-empty ranges, the problem 1 filter is set containment one way or the other |
| Day04.OverlapsMeaning | days/04/src/main.rs:64 | For non-empty ranges, the problem 2 filter holds exactly when some section is in both |
| Day04.ContainsOverlaps | days/04/src/main.rs:49-70 | A pair that satisfies the first filter also satisfies the second |
| Day04.CountsOrdered | days/04/src/main.rs:49-70 | With non-empty ranges, problem 1 <= problem 2 <= the number of pairs |
| Day05.FirstEmpty | days/05/src/main.rs:70-79 | The index of the first blank line, or the line count |
| Day05.NonEmpty | days/05/src/main.rs:70-79 | The non-blank lines, in order |
| Day05.SplitSections | days/05/src/main.rs:67-79 | The drawing is every line before the first blank one; the moves are the non-blank lines after it |
| Day05.Column | days/05/src/main.rs:90-100 | A stack read from the drawing rows holds at most one crate per row, all capital letters |
| Day05.Drawing | days/05/src/main.rs:81-100 | There are as many stacks as the numbering line has words; `None` exactly when there is no drawing line |
| Day05.ParseStacks | days/05/src/main.rs:81-100 | The nested loop builds exactly the stacks `Drawing` specifies |
| Day05.PushStep | days/05/src/main.rs:92-98 | Stack `i` takes byte `4i+1` exactly when it is a capital letter |
| Day05.PushRest | days/05/src/main.rs:92-94 | A row too short for the next stack adds nothing more |
| Day05.DrawnRowAt | days/05/src/main.rs:95 | Byte `4i+1` of a drawn row is stack `i`'s crate at that level, or a space |
| Day05.DrawingOfDraw | days/05/src/main.rs:81-100 | A drawing of stacks of capital letters reads back as the same stacks |
| Day05.ParseMove | days/05/src/main.rs:102-119 | A move line is six words whose numbers are digit runs without a sign; stack numbers are made 0-based; it fails when a number does not fit a `usize` or a stack number is 0 |
| Day05.ParseMoveSigned | days/05/src/main.rs:103-104 | A number with a '+' sign does not match the pattern, so the line fails |
| Day05.ParseMoveShown | days/05/src/main.rs:107-119 | A move written "move N from A to B" parses back to itself |
| Day05.ParseInput | days/05/src/main.rs:62-126 | Defined exactly when there is a drawing line and every move line parses; gives the drawing's stacks and the moves |
| Day05.Tops | days/05/src/main.rs:38 | The top crate of every stack in order; `None` exactly when some stack is empty |
| Day05.LiftsReverse | days/05/src/main.rs:26-31 | Moving `n` crates one at a time between two stacks puts the top `n` on the target in reverse order; it panics exactly when the source holds fewer |
| Day05.LiftsSameStack | days/05/src/main.rs:26-31 | Moving crates onto the same stack changes nothing, and panics only on an empty stack |
| Day05.Crane1 | days/05/src/main.rs:25-32 | The stacks after applying the moves in order, each one crate at a time; `None` from the first move that panics |
| Day05.Crane1Keeps | days/05/src/main.rs:25-32 | The moves of problem 1 keep the number of stacks and of crates |
| Day05.Crane1None | days/05/src/main.rs:25-32 | A panic on some prefix of the moves makes problem 1 panic |
| Day05.Problem1 | days/05/src/main.rs:22-40 | The loop computes the tops after the problem 1 moves, and panics where they do |
| Day05.BlockKeepsOrder | days/05/src/main.rs:46-51 | A block move puts the top `num` crates on the target in the same order; onto the same stack it changes nothing; it panics exactly when the source holds fewer |
| Day05.Crane2 | days/05/src/main.rs:45-52 | The stacks after applying the moves in order, each as one block; `None` from the first move that panics |
| Day05.Crane2Keeps | days/05/src/main.rs:45-52 | The moves of problem 2 keep the number of stacks and of crates |
| Day05.Crane2None | days/05/src/main.rs:45-52 | A panic on some prefix of the moves makes problem 2 panic |
| Day05.Problem2 | days/05/src/main.rs:42-60 | The loop computes the tops after the problem 2 moves, and panics where they do |
| Day06.JumpSkipsRepeats | days/06/src/main.rs:50-55 | After a repeat at offsets `first` < `i`, every window the jump skips repeats a byte |
| Day06.IndexedNext | days/06/src/main.rs:48-51 | Inserting a new byte keeps the map from every byte seen to its offset |
| Day06.FindStart | days/06/src/main.rs:28-65 | The result ends a window of `k` distinct bytes, every earlier window repeats, and the result is less than the stream length. `None` means every window followed by another byte repeats |
| Day06.FindStartAtEnd | days/06/src/main.rs:28-65 | Corrected loop guard: the same search, but the window ending at the stream's end is included |
| Day06.MarkerAtEnd | days/06/src/main.rs:37 | On four distinct bytes with `k` = 4, the source's search gives `None` and the corrected one gives 4 |
| Day07.ParseLine | days/07/src/main.rs:42-79 | A `cd` target is one word; the line fails where the program panics, including a size with a '-' sign |
| Day07.ParseLineNegativeSize | days/07/src/main.rs:71 | "-0 a" fails, since a `usize` takes no '-' |
| Day07.ParseLineShown | days/07/src/main.rs:42-79 | A log line written from an entry reads back as that entry |
| Day07.ParseFileShown | days/07/src/main.rs:70-71 | A file size written alone reads back as that file |
| Day07.CdTo | days/07/src/main.rs:47-63 | `cd ..` pops (an empty stack stays empty), `cd /` resets to the root, any other name is pushed |
| Day07.PrefixKeys | days/07/src/main.rs:72-75 | One key per prefix of the working directory |
| Day07.AddSize | days/07/src/main.rs:72-78 | The inner loop adds the size to the entry of every prefix key, in order |
| Day07.AddOneMore | days/07/src/main.rs:74-77 | One turn of the inner loop adds the size to the next prefix's entry |
| Day07.ParseInput | days/07/src/main.rs:32-84 | The loop over the lines computes the totals of the interpreter specification `Run`, and fails where it does |
| Day07.PrefixKeysAt | days/07/src/main.rs:74-75 | The `k`-th key is the first `k`+1 names joined with '/' |
| Day07.AddAllPrefixes | days/07/src/main.rs:72-78 | A file adds its size exactly once to each prefix key's entry, and to no other entry |
| Day07.EnclosingKey | days/07/src/main.rs:72-78 | When names contain no '/', a directory enclosing a prefix key is a prefix key too |
| Day07.AddAllMonotone | days/07/src/main.rs:72-78 | Adding a file keeps every directory's total at least that of any directory inside it |
| Day07.RunMonotone | days/07/src/main.rs:40-81 | The whole log keeps that ordering between enclosing and enclosed directories |
| Day07.TotalsMonotone | days/07/src/main.rs:32-84 | When no name contains '/', a directory's total is at least that of every directory inside it |
| Day07.RunRootTotal | days/07/src/main.rs:40-81 | While the root stays at the bottom of the stack, its total grows by exactly the sizes read |
| Day07.RootTotal | days/07/src/main.rs:32-84 | When every file is read inside the root, the root's total is the size of all files |
| Day07.SumAtMostRemove | days/07/src/main.rs:12 | The sum over the map's values does not depend on the iteration order |
| Day07.SumAtMostBound | days/07/src/main.rs:12 | Every value counted is at most the limit |
| Day07.Problem1 | days/07/src/main.rs:12 | The loop sums the totals of at most 100000, whatever the iteration order; the sum is at most 100000 per entry |
| Day07.Missing | days/07/src/main.rs:16-20 | Defined exactly when the root has an entry and neither `usize` subtraction goes below zero; then the space still needed |
| Day07.Problem2 | days/07/src/main.rs:16-27 | `None` exactly when a subtraction panics or no total frees enough space; otherwise the smallest and largest such totals |
| Day08.TreeHeight | days/08/src/main.rs:34 | Defined exactly from byte '0' up, where the `u8` subtraction does not overflow; a digit gives its value; the result fits an `i8` |
| Day08.ParseDigits | days/08/src/main.rs:29-38 | A grid of digits parses to their values, row by row |
| Day08.ScanInGrid | days/08/src/main.rs:50 | A scan stays in the forest for exactly its first `ScanLength` steps |
| Day08.AddVisible | days/08/src/main.rs:40-64 | The scan loop adds exactly the trees the specification `Seen` marks |
| Day08.TallestBelow | days/08/src/main.rs:47-55 | A height exceeds `prev` exactly when it is above -1 and above every tree scanned so far |
| Day08.SeenExactly | days/08/src/main.rs:50-63 | A scan marks exactly the trees on its line that are taller than all trees before them |
| Day08.ScanRight | days/08/src/main.rs:73 | The scan from the left edge marks the trees with only shorter trees to their left |
| Day08.ScanLeft | days/08/src/main.rs:74-80 | The scan from the right edge marks the trees with only shorter trees to their right |
| Day08.ScanDown | days/08/src/main.rs:84 | The scan from the top marks the trees with only shorter trees above |
| Day08.ScanUp | days/08/src/main.rs:85-91 | The scan from the bottom marks the trees with only shorter trees below |
| Day08.RowStep | days/08/src/main.rs:72-81 | Each row's two scans extend the rows already done |
| Day08.ColStep | days/08/src/main.rs:83-92 | Each column's two scans extend the columns already done |
| Day08.ColsAllDone | days/08/src/main.rs:66-92 | After all scans, the marked trees are exactly the visible ones |
| Day08.GridExamples | days/08/src/main.rs:48-50 | Rows longer than the first are accepted; a shorter row or no rows at all are not |
| Day08.Problem1 | days/08/src/main.rs:66-114 | Panics exactly for a forest with no rows or a row shorter than the first; otherwise the marked set is exactly the trees visible from some edge within the first row's columns, and the answer is its size |
| Day08.EdgesVisible | days/08/src/main.rs:66-92 | Every tree on the edge is visible |
| Day08.ViewLength | days/08/src/main.rs:120-125 | The number of trees between a tree and the edge each view runs to |
| Day08.CountFrom | days/08/src/main.rs:129-135 | The count never passes the edge, and is 0 exactly at the edge |
| Day08.CountFromStops | days/08/src/main.rs:129-135 | The count runs over shorter trees and stops at the first tree at least as tall |
| Day08.ViewingDistance | days/08/src/main.rs:116-141 | A view counts at most the trees up to the edge, and none exactly at the edge |
| Day08.ViewingDistanceStops | days/08/src/main.rs:116-141 | The view counts the trees up to and including the first one at least as tall, or all of them up to the edge |
| Day08.AddVisibleTrees | days/08/src/main.rs:116-141 | The counting loop computes the viewing distance |
| Day08.EdgeScoresZero | days/08/src/main.rs:151-155 | A tree on the edge scores 0 |
| Day08.TreeScore | days/08/src/main.rs:151-155 | The inner loop body computes the product of the four viewing distances |
| Day08.Trees | days/08/src/main.rs:149-150 | The positions the loops visit are exactly the grid's |
| Day08.ScoresEmpty | days/08/src/main.rs:143-165 | There is no score exactly when the forest has no columns |
| Day08.ScoredAll | days/08/src/main.rs:149-158 | Once every position is scored, the map holds exactly each tree's score |
| Day08.ScoreAll | days/08/src/main.rs:144-158 | The nested loop fills the map with exactly each tree's score |
| Day08.ScoreValues | days/08/src/main.rs:160 | The collected entries hold exactly the scores, in whatever order the map iterates |
| Day08.Problem2 | days/08/src/main.rs:143-165 | `None` exactly for a forest with no rows, no columns or a row shorter than the first; otherwise the largest score |
| Day09.ParseDir | days/09/src/main.rs:19-31 | Only "U", "D", "L" and "R" are directions |
| Day09.ParseInput | days/09/src/main.rs:83-98 | Every line read as an instruction in order, `None` where some line panics |
| Day09.ParseInstShown | days/09/src/main.rs:83-98 | An instruction written "<letter> <count>" with an `i32` count parses back to itself |
| Day09.Delta | days/09/src/main.rs:114-119 | The head's step is one unit along one axis |
| Day09.TooFar | days/09/src/main.rs:100-102 | `too_far`: the knots differ by more than one on some axis (its meaning: `Day09.TooFarChebyshev`) |
| Day09.TooFarChebyshev | days/09/src/main.rs:100-102 | Two knots are too far apart exactly when their Chebyshev distance exceeds 1 |
| Day09.TailDelta1 | days/09/src/main.rs:130-146 | The tail moves at most one in each coordinate, and not at all for an offset outside the table |
| Day09.Follow1 | days/09/src/main.rs:129-151 | The problem 1 tail moves at most one in each coordinate, and only when too far |
| Day09.Follow2 | days/09/src/main.rs:194-211 | The problem 2 knot ends touching its predecessor, and moves only when too far |
| Day09.FollowRulesAgree | days/09/src/main.rs:129-151 | Wherever problem 1 applies its table, the offset is in the table, both rules agree, and the tail touches the head again |
| Day09.Repeat | days/09/src/main.rs:122 | `0..count` gives `count` unit steps, and none for a count of zero or less |
| Day09.After1Touching | days/09/src/main.rs:122-157 | After every unit step the tail touches the head, and the table's fallback is never used |
| Day09.VisitedHasTail | days/09/src/main.rs:108-151 | The record always holds the tail's current place |
| Day09.After1Next | days/09/src/main.rs:122-157 | One more unit step moves head and tail by `Step1` and records the tail |
| Day09.Step1Next | days/09/src/main.rs:125-151 | One turn of the loop body keeps head, tail and record equal to the specification after one more unit step |
| Day09.Problem1 | days/09/src/main.rs:104-161 | The record is every place the tail is in after some unit step, and the answer is its size |
| Day09.MoveRopeTouching | days/09/src/main.rs:192-215 | After every unit step each knot touches the one before it |
| Day09.LastKnotVisits | days/09/src/main.rs:213 | The last knot's record holds every place it is in after each unit step |
| Day09.InitialRecords | days/09/src/main.rs:167-172 | Each record starts with the origin only |
| Day09.PassStart | days/09/src/main.rs:186-190 | Recording the head and moving it starts the pass over the knots |
| Day09.PassStep | days/09/src/main.rs:192-215 | Each knot follows its predecessor and is recorded where it ends |
| Day09.After2Next | days/09/src/main.rs:183-220 | A full pass leaves the rope and the records of one more unit step |
| Day09.Problem2 | days/09/src/main.rs:163-224 | The loops compute the rope and records of the specification after every unit step; the answer is the size of the last knot's record |
| Day10.Cycles | days/10/src/main.rs:17-22 | An instruction takes one or two cycles |
| Day10.FromStr | days/10/src/main.rs:28-39 | An unknown first word is an error carrying that word; an `addx` argument is an `i32`; a line with no word panics |
| Day10.ParseInput | days/10/src/main.rs:42-49 | Every line read with `from_str` in order; `None` where some line gives an error or panics |
| Day10.FromStrShown | days/10/src/main.rs:28-39 | A listed instruction reads back as itself |
| Day10.Trace | days/10/src/main.rs:63-95 | The trace has one value of X per cycle of the program |
| Day10.TraceDuring | days/10/src/main.rs:77-87 | During each cycle of instruction `k`, X is what the instructions before it left; X changes only when an instruction's last cycle is over |
| Day10.SignalStrength | days/10/src/main.rs:52-75 | The score is the sum of cycle number times X over the special cycles 20, 60, ..., 220 that the program reaches |
| Day10.StrengthSnoc | days/10/src/main.rs:73-75 | One more cycle adds its product once for each time it is listed |
| Day10.RunningStart | days/10/src/main.rs:55-61 | The first instruction is taken with its cycle count and X = 1 |
| Day10.RunningStay | days/10/src/main.rs:78-81 | A cycle that does not end the instruction leaves X unchanged |
| Day10.RunningFinish | days/10/src/main.rs:84-94 | The last cycle of an instruction applies it and takes the next one |
| Day10.Problem1 | days/10/src/main.rs:51-98 | `None` exactly for an empty program (the first `unwrap` panics); otherwise the score of the whole trace |
| Day10.SignalSnoc | days/10/src/main.rs:65-75 | One more cycle adds its product when it is special |
| Day10.PixelsSnoc | days/10/src/main.rs:125-127 | Drawing one more pixel keeps every pixel lit exactly when the sprite covers its column |
| Day10.Problem2 | days/10/src/main.rs:100-147 | `None` exactly for an empty program; otherwise one pixel per cycle, lit exactly when X is within one of the column |
| Day11.Start | days/11/src/main.rs:10-11 | The initial lists and zero counts fit the monkeys |
| Day11.Inspect | days/11/src/main.rs:17-25 | One inspection keeps one list and one counter per monkey |
| Day11.Turn | days/11/src/main.rs:15-25 | A turn empties the monkey's list first, then inspects every item that was on it |
| Day11.TakeTurn | days/11/src/main.rs:15-25 | The loop of one turn computes `Turn` with the lists and counters changed in place |
| Day11.Rounds | days/11/src/main.rs:13-27 | The state after the given number of rounds, each a turn of every monkey in order; it keeps the table's shape |
| Day11.Simulate | days/11/src/main.rs:13-27 | The round loops compute `Rounds` from the starting lists |
| Day11.InspectAllPasses | days/11/src/main.rs:17-18 | Each inspection adds one to the inspecting monkey's count and nothing to the others' |
| Day11.InspectAllItems | days/11/src/main.rs:17-25 | Each inspection moves one item to some list |
| Day11.TurnCounts | days/11/src/main.rs:15-25 | A turn counts one inspection per item held, and keeps the number of items |
| Day11.RoundsKeepItems | days/11/src/main.rs:13-27 | Rounds never create or destroy items |
| Day11.TRemZero | days/11/src/main.rs:20 | Rust's `%` is zero exactly when the Euclidean remainder is |
| Day11.ApplyCong | days/11/src/main.rs:51 | The operations respect congruence modulo any `n` |
| Day11.CongTest | days/11/src/main.rs:52 | Numbers congruent modulo a multiple of `m` pass or fail the test of `m` together |
| Day11.ModuliProductDivisible | days/11/src/main.rs:43 | The product of the moduli is positive and divisible by each modulus |
| Day11.WorryAgrees | days/11/src/main.rs:51-56 | A worry reduced modulo the product stays congruent to the unreduced worry and goes to the same monkey |
| Day11.InspectAgrees | days/11/src/main.rs:49-57 | An inspection with reduced worry agrees with one without: same counts, congruent lists |
| Day11.TurnAgrees | days/11/src/main.rs:46-58 | A turn with reduced worry agrees with one without |
| Day11.RoundsAgree | days/11/src/main.rs:45-59 | Any number of rounds with reduced worry agree with rounds without |
| Day11.ReductionKeepsCounts | days/11/src/main.rs:37-67 | Reducing worry modulo the product of the moduli leaves the inspection counts of any number of rounds unchanged, for every well-formed table, the empty one included |
| Day11.TopTwo | days/11/src/main.rs:29-32 | The sorted counts are a permutation of the counts, and the score multiplies the two largest |
| Day11.Problem1 | days/11/src/main.rs:7-35 | The sorted counts of 20 rounds dividing worry by 3, and the product of the top two |
| Day11.Problem2 | days/11/src/main.rs:37-67 | The sorted counts of 10000 rounds, equal to those with no relief at all, and the product of the top two |
| Day12.Put | days/12/src/main.rs:47-52 | Writing one cell keeps the shape of the grid |
| Day12.PutAt | days/12/src/main.rs:47-52 | After a write, the cell written holds the new value and every other cell its old one |
| Day12.Fill | days/12/src/main.rs:28-33 | `rows` rows of `cols` copies of a value |
| Day12.FindFrom | days/12/src/main.rs:37-44 | A hit is a cell of the map holding the byte, a panic is a cell past the end of its row, and every cell between the starting point and either is in the map and does not hold the byte |
| Day12.Find | days/12/src/main.rs:37-44 | `find` is the search from the first cell (its outcomes: `Day12.FindFirst`) |
| Day12.FindFirst | days/12/src/main.rs:37-44 | `find` over the first row's columns gives the first cell in row-major order holding the byte, panics at the first cell past a short row's end if that comes first, and gives `None` exactly when every cell is in the map and none holds the byte |
| Day12.FindOnLongRows | days/12/src/main.rs:37-44 | With no row shorter than the first, `find` never panics |
| Day12.FindExamples | days/12/src/main.rs:37-44 | Cells past the first row's columns are never searched, and a short row panics once reached |
| Day12.ClimbableBothWays | days/12/src/main.rs:83 | The height rule looks only at the difference, so it holds both ways |
| Day12.Neighbour | days/12/src/main.rs:70-72 | Each neighbour is one step away along one axis |
| Day12.NeighboursDistinct | days/12/src/main.rs:70 | The four neighbours are different cells |
| Day12.Moves | days/12/src/main.rs:70-88 | Every neighbour queued passes the height and distance test |
| Day12.SetAllAt | days/12/src/main.rs:86 | After the writes, a queued cell holds the new distance and every other cell its old one |
| Day12.MovesStep | days/12/src/main.rs:70-88 | Each pass over a neighbour queues it exactly when it passes the test |
| Day12.TryNeighbour | days/12/src/main.rs:71-87 | One pass queues the neighbour with `steps + 1` and records that distance exactly when it passes the test; it fails exactly where an index panics |
| Day12.TryNeighbourStep | days/12/src/main.rs:70-88 | Earlier passes leave a later neighbour's cell untouched, so each pass acts as if on the original table |
| Day12.Expand | days/12/src/main.rs:70-88 | The loop over the four neighbours queues, in order, exactly those that pass the test, and gives each the new distance |
| Day12.ExpandSafe | days/12/src/main.rs:70-88 | On a table shaped like the map, expanding a cell of the map never panics |
| Day12.ExpandKeepsWithinDist | days/12/src/main.rs:83-86 | Every queued entry's step count stays at least the distance of its cell |
| Day12.GuardAlwaysFires | days/12/src/main.rs:65-67 | The pruning guard `steps + 1 > dist` holds for every queued entry, so no entry is ever expanded |
| Day12.Problem1 | days/12/src/main.rs:22-92 | Panics exactly without rows, an `S` or an `E`, or at a short row reached before either; otherwise the search ends with the end not found and only the start marked, at distance 0 |
| Day14.Cells | days/14/src/main.rs:19-20 | The occupied cells of the column map |
| Day14.Put | days/14/src/main.rs:199 | Marking a cell adds exactly that cell, with its new element, and keeps every other cell |
| Day14.NearestBelow | days/14/src/main.rs:61 | The nearest occupied row strictly below the grain, and `None` exactly when there is none |
| Day14.DropSand | days/14/src/main.rs:58-104 | A grain rests where the cells below, below-left and below-right are occupied, inside its cone, on a free cell or where it entered |
| Day14.DropSandFallsOut | days/14/src/main.rs:58-104 | With no resting place the grain reaches, inside its cone, a point with nothing below it or nothing in the column it would move into |
| Day14.DropSandWithBottom | days/14/src/main.rs:106-160 | With the floor below everything, the grain stays in its cone, above the floor, on a free cell; it lands on the floor or rests |
| Day14.FloorAgrees | days/14/src/main.rs:106-160 | Where the grain rests without a floor, the floor changes nothing |
| Day14.FloorAboveStart | days/14/src/main.rs:191-220 | A floor at or above the entry makes every grain land below the entry, never on it |
| Day14.AddGrain | days/14/src/main.rs:166-186 | One more grain on a free cell keeps old cells and adds sand in the cone, and counts one new cell |
| Day14.FinalGrain | days/14/src/main.rs:196-220 | The last grain of problem 2, at the entry, is counted too |
| Day14.RestingInBox | days/14/src/main.rs:58-104 | Without a floor a resting grain is in a column of the original cave and above its lowest row |
| Day14.Pour | days/14/src/main.rs:162-189 | The cave after `n` grains dropped from the entry without a floor, each resting where `drop_sand` puts it; `None` once a grain falls out (ties: `Day14.Problem1`, `Day14.PourCountUnique`) |
| Day14.PourOnFloor | days/14/src/main.rs:191-223 | The cave after `n` grains dropped onto the floor, each put where `drop_sand_with_bottom` lands it (ties: `Day14.Problem2`, `Day14.FirstOnStartUnique`) |
| Day14.PourFallsOut | days/14/src/main.rs:166 | When the next grain falls out, pouring one more grain fails |
| Day14.PourStaysOut | days/14/src/main.rs:166-186 | Once pouring fails it fails for every larger count |
| Day14.PourEnds | days/14/src/main.rs:166-186 | After the grain that falls out, no larger number of grains can be poured |
| Day14.PourCountBound | days/14/src/main.rs:166-186 | Any number of grains that can be poured is at most the last count before pouring fails |
| Day14.PourCountUnique | days/14/src/main.rs:166-186 | There is only one count whose pour succeeds and whose next pour fails, so problem 1's answer is determined |
| Day14.PourLedge | days/14/src/main.rs:166-186 | On a three-cell ledge of rock one grain rests above the middle and the second falls out |
| Day14.DropSandSameBelow | days/14/src/main.rs:58-104 | Where a grain goes depends only on the cells below its row |
| Day14.RestsOnStartAgain | days/14/src/main.rs:166-168 | After a grain rests on the entry, the next grain rests there as well |
| Day14.PourNext | days/14/src/main.rs:166-168 | A grain that rests extends the pour by exactly that cell of sand |
| Day14.PourStuck | days/14/src/main.rs:166-186 | After a grain rests on the entry, every later pour yields the same cave |
| Day14.PourForever | days/14/src/main.rs:166-186 | After a grain rests on the entry, every number of grains can be poured: the loop never ends |
| Day14.Floor | days/14/src/main.rs:194 | The floor row is below every occupied row, two below the lowest |
| Day14.FirstOnStartUnique | days/14/src/main.rs:196-220 | Only one grain is the first to land on the entry, so problem 2's answer is determined |
| Day14.FloorAboveStartForever | days/14/src/main.rs:196-220 | With the floor at or above the entry, every grain lands just above the floor and none lands on the entry |
| Day14.Problem1 | days/14/src/main.rs:162-189 | Only sand is added. A finished run returns the cave after pouring exactly its count of grains, that count equals the new sand cells, and no more grains can be poured. `Forever` means a grain rests on the entry and every number of grains can be poured |
| Day14.Problem2 | days/14/src/main.rs:191-223 | Panics exactly with no rows, and never ends exactly when the floor is at or above the entry; then no grain lands on the entry. Otherwise the count is the index of the first grain that lands on the entry plus one, and the cave is the pour of that many grains with the floor |
| Day14.ParsePoint | days/14/src/main.rs:29-32 | Each coordinate is an `i32` |
| Day14.ParsePointShown | days/14/src/main.rs:29-32 | A point written "x,y" reads back as itself |
| Day14.ParsePath | days/14/src/main.rs:29-32 | The points of a line split at " -> ", each parsed; `None` where one does not parse (round trip: `Day14.ParsePathShown`) |
| Day14.ParsePathShown | days/14/src/main.rs:29-32 | A path written "x,y -> x,y ..." reads back as the same points |
| Day14.Segment | days/14/src/main.rs:38-47 | The cells between two points of a path, ends included; none for a diagonal pair |
| Day14.SegmentEnds | days/14/src/main.rs:38-47 | A segment holds both ends and runs the same either way |
| Day14.AddSegment | days/14/src/main.rs:38-50 | Marks exactly the segment's cells as rock; fails exactly at a diagonal step |
| Day14.ColumnPainted | days/14/src/main.rs:39-42 | The column filled along a vertical segment paints exactly its cells |
| Day14.RowPaintedStep | days/14/src/main.rs:44-47 | One more cell of a horizontal segment extends the painted row |
| Day14.AddPath | days/14/src/main.rs:35-53 | Marks exactly the cells of the path; fails exactly when some step is diagonal |
| Day14.LinesCellsPrefix | days/14/src/main.rs:28-54 | A bad line makes the whole input fail |
| Day14.ParseInput | days/14/src/main.rs:22-57 | Defined exactly when every line parses with straight steps; the cave is exactly the rock of all lines |
| Packet.AccessorsPartition | days/13/src/packet.rs:9-31 | A packet is a list or a number, never both; `list` and `num` answer exactly for their kind, and their answer rebuilds the packet |
| Packet.Step | days/13/src/packet.rs:70-103 | One byte of the loop: a digit accumulates (overflow panics), ',' flushes, '[' pushes a frame, ']' pops one (an empty stack panics), any other byte is an error |
| Packet.Run | days/13/src/packet.rs:70-103 | The byte loop over a text, `Step` by `Step`; the first error stops it |
| Packet.Parse | days/13/src/packet.rs:54-117 | `from_str`: refuses a text without '[' first or ']' last, runs the loop on the text between, and panics when a list is left open (round trip: `Packet.ParseShow`) |
| Packet.Flush | days/13/src/packet.rs:79-83 | A pending number moves into the current list and the stack is untouched |
| Packet.FromStr | days/13/src/packet.rs:54-117 | The byte loop with its stack, `many` and `single` computes the parse specification `Parse` |
| Packet.DigitsAccumulate | days/13/src/packet.rs:72-77 | A run of digits accumulates into one base-10 number, and fails on `u8` overflow |
| Packet.NumberRun | days/13/src/packet.rs:72-77 | The digits of a printed number are read back as that number |
| Packet.ShowRun | days/13/src/packet.rs:85-99 | The printed text of a packet is read back as that packet, appended to the current list |
| Packet.ItemsRun | days/13/src/packet.rs:79-99 | The printed items of a list are read back as those items |
| Packet.CommaRun | days/13/src/packet.rs:79-83 | A comma moves the pending number into the list |
| Packet.ParseShow | days/13/src/packet.rs:33-117 | Every list packet printed by `Display` parses back to itself |
| Packet.ParseExamples | days/13/src/packet.rs:151-173 | The three unit tests: "[]", "[[],[]]" and "[1,2,3]" parse to the expected packets |
| Packet.RunAccepts | days/13/src/packet.rs:70-103 | A successful run uses only digits, ',', '[' and ']', never closes more lists than it opened, and leaves the stack grown by the nesting depth |
| Packet.ParseAccepts | days/13/src/packet.rs:54-117 | A text that parses is bracketed, uses only the allowed characters, and has balanced brackets; the result is a list |
| Packet.ParseRejects | days/13/src/packet.rs:57-97 | A text without a leading '[' or without a trailing ']' is refused; an early ']' panics |
| Packet.Message | days/13/src/packet.rs:57-62 | Only the two bracket checks and an unexpected character produce a message, as written |
| Packet.MessageMisleads | days/13/src/packet.rs:60-62 | "[1" fails its ']' check but gets the message for a missing '[' |
| Packet.IntendedMessage | days/13/src/packet.rs:57-62 | The messages with a distinct text for a missing ']' |
| Packet.IntendedMessagesDistinct | days/13/src/packet.rs:57-62 | With the intended texts, different errors on the same input give different messages |
| Packet.NumWrapsAsList | days/13/src/packet.rs:134-135 | Against a list, a number compares exactly as the one-item list holding it |
| Packet.EqualIsNotIdentity | days/13/src/packet.rs:134-135 | `cmp` calls `3` and `[3]` Equal although they are different packets |
| Packet.Cmp | days/13/src/packet.rs:119-139 | `cmp`: numbers by value, lists by `CmpLists`, a number against a list as the one-item list (properties: `Packet.CmpReflexive`, `Packet.CmpAntisymmetric`, `Packet.CmpTransitive`) |
| Packet.CmpLists | days/13/src/packet.rs:122-133 | The zip loop: the first item pair that is not Equal decides, then the lengths |
| Packet.InOrder | days/13/src/packet.rs:141-145 | `a <= b`: `cmp` is not Greater (a total preorder: `Packet.InOrderTotalPreorder`) |
| Packet.CmpListsLexicographic | days/13/src/packet.rs:122-133 | Lists compare by their first unequal pair, and by length when one is a prefix of the other |
| Packet.CmpReflexive | days/13/src/packet.rs:119-139 | Every packet compares Equal to itself |
| Packet.CmpAntisymmetric | days/13/src/packet.rs:119-139 | Swapping the operands reverses the comparison |
| Packet.CmpViaLift | days/13/src/packet.rs:119-139 | Comparing two packets is comparing their lists, a number taken as a one-item list |
| Packet.CmpTransitive | days/13/src/packet.rs:119-139 | `a <= b <= c` gives `a <= c`, and Equal only when both steps are Equal |
| Packet.InOrderTotalPreorder | days/13/src/packet.rs:119-145 | `cmp` is a total preorder, the contract `sort` and `binary_search` rely on |
| Packet.Show | days/13/src/packet.rs:33-52 | `Display`: a number in decimal, a list as '[' then its items joined by ',' then ']' (round trip: `Packet.ParseShow`) |
| Packet.ShowItems | days/13/src/packet.rs:39-44 | The items of a list printed and separated by commas |
| Packet.ShowAllowed | days/13/src/packet.rs:33-52 | A printed packet is never empty and uses only characters the parser accepts |
| Day13.ParseBlock | days/13/src/main.rs:18-24 | The first line parsed, then the second; `None` where the first line does not parse, the second is missing or does not parse |
| Day13.ParseInput | days/13/src/main.rs:10-26 | One pair per block of the text split at blank lines; `None` where some block panics (round trip: `Day13.ParseInputRender`) |
| Day13.ShowPairSeparable | days/13/src/main.rs:16-19 | A pair printed as two lines can stand between blank lines |
| Day13.ShownLines | days/13/src/main.rs:19-21 | The first two lines of a printed pair are its two packets |
| Day13.ParseBlockShown | days/13/src/main.rs:18-24 | A printed pair of lists parses back to itself |
| Day13.ParseInputRender | days/13/src/main.rs:10-26 | Pairs of lists written as blocks separated by blank lines parse back to the same pairs, with or without a final newline |
| Day13.ParseInputEmpty | days/13/src/main.rs:16-21 | An empty input has one empty block, whose first line is empty; parsing it panics before a second line is asked for |
| Day13.Problem1 | days/13/src/main.rs:28-35 | The sum of the 1-based positions of the pairs whose left packet is Less than the right (`Day13.IndexSumsPartition`, `Day13.Problem1Swapped`) |
| Day13.IndexSumWhere | days/13/src/main.rs:29-33 | The sum of the 1-based positions of the pairs comparing as asked is at most 1 + 2 + ... + n |
| Day13.IndexSumsPartition | days/13/src/main.rs:28-35 | Every position counts under exactly one outcome of the comparison |
| Day13.Problem1Swapped | days/13/src/main.rs:28-35 | Exchanging both packets of every pair counts the pairs in the wrong order; with the ties this covers every position |
| Day13.Dividers | days/13/src/main.rs:38-39 | The divider texts parse to `[[2]]` and `[[6]]`, and the first is less than the second |
| Day13.Flatten | days/13/src/main.rs:41 | The packets of all pairs, left then right, in input order |
| Day13.SearchIn | days/13/src/main.rs:46-47 | A hit is a position in range holding an Equal packet; a miss is a position in range (the insertion point: `Day13.SearchInMisses`) |
| Day13.SearchInMisses | days/13/src/main.rs:46-47 | A miss sits just after the last packet the search saw compare Less and just before the last one it saw compare Greater |
| Day13.BinarySearch | days/13/src/main.rs:46-47 | A hit holds an Equal packet; a miss is a position at most the length (the insertion point: `Day13.BinarySearchMisses`) |
| Day13.BinarySearchMisses | days/13/src/main.rs:46-47 | In a sorted sequence a miss is the insertion point: every packet before it compares Less and every packet from it on Greater |
| Day13.SearchInFinds | days/13/src/main.rs:46-47 | In a sorted sequence the search finds an Equal packet whenever there is one |
| Day13.SearchFindsMember | days/13/src/main.rs:46-47 | A packet in a sorted sequence is found, so the `unwrap` never panics |
| Day13.PositionOfEqual | days/13/src/main.rs:44-47 | In sorted order, an Equal packet sits after all smaller packets and within the block of Equal ones |
| Day13.DividerCounts | days/13/src/main.rs:41-44 | Adding the dividers adds one Equal to each and one smaller packet below the second |
| Day13.DividerPositions | days/13/src/main.rs:44-47 | Where the searches can land among the sorted packets and dividers |
| Day13.SortPacketsSorted | days/13/src/main.rs:44 | `sort` on packets gives a non-decreasing permutation |
| Day13.ParseDividers | days/13/src/main.rs:38-39 | The two `unwrap` calls on the divider texts succeed |
| Day13.Problem2 | days/13/src/main.rs:37-50 | The sorted packets are a sorted permutation of all packets and the dividers; each index points at an Equal packet, within the range the counts allow; the answer is their product |
| Day13.Problem2WithoutTies | days/13/src/main.rs:37-50 | With no packet Equal to a divider, the answer is (packets below the first + 1) * (packets below the second + 2) |
| Util.CollectAll | days/04/src/main.rs:27-31 | `collect` into an `Option`: defined exactly when every item is, and then the items' values in order |
| Util.Reversed | days/05/src/main.rs:81 | `reverse` puts element `i` at position `n - 1 - i` |
| Util.SetMin | days/07/src/main.rs:22-25 | The first of the sorted values is the least |
| Util.SetMax | days/07/src/main.rs:22-26 | The last of the sorted values is the greatest |
| Text.ParseIn | days/04/src/main.rs:27-31 | `parse` to a bounded integer type succeeds exactly for an integer text within the bounds; an unsigned type refuses any '-' sign, even in "-0" |
| Text.ParseInSigns | days/07/src/main.rs:71 | "-0" fails for `usize` but parses as 0 for `i32`, and "+7" parses as 7 |
| Text.NatToStringParses | days/07/src/main.rs:71 | Parsing a printed number gives it back |
| Text.IntToStringParses | days/10/src/main.rs:35 | Parsing a printed integer, sign included, gives it back |
| Text.JoinSplit | days/04/src/main.rs:27-31 | Joining the pieces of `split` with the pattern gives the text back |
| Text.SplitJoinLacking | days/04/src/main.rs:27-31 | Splitting pieces joined by a pattern they lack gives the pieces back |
| Text.SplitJoinDoubled | days/13/src/main.rs:16-17 | Splitting at "\n\n" recovers blocks that hold no blank line |
| Text.SplitOnceAt | days/14/src/main.rs:30 | `split_once` cuts at the first occurrence |
| Text.Words | days/02/src/main.rs:119-134 | `split_whitespace` gives words without whitespace, splitting on every Unicode whitespace character |
| Text.WordsUnicodeWhitespace | days/02/src/main.rs:119-134 | A vertical tab and an ideographic space separate words like a space |
| Text.WordsOfJoin | days/02/src/main.rs:119-134 | Words joined by single spaces split back into the same words |
| Sorting.SortBySorted | days/01/src/main.rs:51 | The sort gives a non-decreasing permutation of its input |

## Left out

- Reading files, `BufReader`, `read_to_string`, and all printing: `println!`, `print!`, `dbg!`, the screen of day 10 and the echo of the map in day 12. Parsers take the text or its lines as a parameter, and each problem returns its answer instead of printing it.
- The hard-coded monkey tables of `days/11/src/input.rs` and its empty stub `parse_input`. The monkeys are a parameter, their `fn(i64) -> i64` closures become the operations add, multiply and square, and `WellFormed` states the shape the tables have (positive moduli and throw targets that are monkeys of the table).
- Day05.ParseMove: the regular expression for move lines is replaced by a split into six words whose numbers must be runs of ASCII digits. Both accept the well-formed lines "move N from A to B" and refuse a sign such as '+' or '-'. Unlike the model, the unanchored pattern also matches inside a longer line, and it demands single spaces; the model accepts any whitespace between the words.
- Machine-integer overflow is not modelled, except where a debug build of the source panics on it in a way the puzzle reaches. The model follows the debug build there and gives an error result: the `u8` accumulation of packet numbers in day 13, the `u8` subtraction `b - b'0'` of day 8 on a byte below '0' (`Day08.TreeHeight`), and `usize` subtraction below zero in days 5 and 7. A release build wraps around in these places instead. The `i32` range of parsed numbers is a bounded parse in every build. Sums of `i32` calories, `usize` positions and `i64` worry levels and scores are unbounded integers.
- Iteration order of `HashSet` and `HashMap`. Day 3 takes the element an intersection yields first as a parameter `first`. Days 7 and 8 read map values in an unspecified order, and the contracts state only which values occur.
- Day08.Problem2: `sort_by_key` on the (position, score) entries followed by `last` is modelled as sorting the scores alone. The contract states that the answer is the largest score, not which entry is last among equal scores.
- Day01.Problem2Top: `elves.sort()` in place is the function `Sorting.SortBy` on a sequence; the vector's storage is not modelled.
- Day10.FromStr: the error value is the unknown word itself, not the formatted text "Failed to parse ... as a command".
- Day14.Problem1: where a grain comes to rest on the entry point, the source loops without end in a release build; in a debug build the `i32` `count += 1` panics after 2^31 - 1 grains. The model stops and reports `Forever`, and proves that `Pour` then never fails.
- Day14.Problem2: with the floor at or above the entry point the source loops without end in a release build, and in a debug build the `i32` counter panics after 2^31 - 1 grains. The model reports `Forever` and proves that no grain of `PourOnFloor` lands on the entry.
- Day07.TotalsMonotone and Day07.RootTotal: these lemmas, which relate the sizes of a directory and its ancestors, assume names without '/' and a log that starts at the root (`PlainNames`, `StaysRooted`). With a '/' in a name, the "//"-joined keys of different paths can coincide.
- Day12.Problem1: no corrected search is given. The guard makes expansion unreachable, so there is no shortest-path property of the program as written to prove.
- Characters stand for bytes in the text-based days. Day 3 indexes `ALPHABET` by characters, and inputs are ASCII.
- The printed form of the day 10 screen is not modelled. The pixel each cycle lights is.
- Concurrency and floating point do not occur in these programs.

## Findings

| source | as written | input that shows it | evidently intended | confidence | as-written member | corrected member |
|---|---|---|---|---|---|---|
| days/06/src/main.rs:37 | The search stops once `idx + chunk_length >= stream.len()`, so the window that ends at the last byte is never examined | The stream of bytes 0, 1, 2, 3 with `k` = 4: the result is `None` | `Some(4)`: the four bytes are distinct and end at position 4 | not executed | Day06.MarkerAtEnd | Day06.FindStartAtEnd |
| days/13/src/packet.rs:60-61 | The check for a closing ']' returns the message for a missing '[' | "[1" is refused with "The packet should have started with '[': [1" | A message saying the packet should have ended with ']' | not executed | Packet.MessageMisleads | Packet.IntendedMessagesDistinct |
