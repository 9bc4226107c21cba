# Advent of Code 2025, days 1 to 6, in Dafny

This project models the solvers of the first six puzzles of the repository's
2025 Advent of Code workspace and proves what each of them computes:

- **Day 1, the safe dial** (`Dial`, dial.dfy). A dial has positions 0 to 99
  and starts at 50. Each input line `L<amount>` or `R<amount>` turns it.
  Part one counts the turns that end at 0. Part two counts every click that
  lands on 0; the source computes this per turn in closed form. The model
  proves the closed form against a click-by-click count.
- **Day 2, the gift-shop product ids** (`ProductIds`, product_ids.dfy).
  The input holds comma-separated inclusive id ranges. The solver lists the
  ids whose decimal text is a repeated block: exactly two halves for part
  one, any block repeated at least twice for part two.
- **Day 3, the battery banks** (`Batteries`, batteries.dfy). Each line is a
  bank of digit batteries. The solver turns on n of them, kept in their
  order, and greedily picks the first maximum of a shrinking window. The
  model proves that no other choice spells a larger number.
- **Day 4, the paper-roll grid** (`PaperGrid`, grid.dfy, and `Forklift`,
  forklift.dfy). A grid class holds a flat cell buffer with bounded `at`
  and `set`, and a row-major iterator. The forklift lists the rolls that
  have at most three roll neighbours. It then keeps removing such rolls,
  round by round, until none is left to remove.
- **Day 5, the ingredient inventory** (`IngredientInventory`, inventory.dfy,
  and `Freshness`, freshness.dfy). The input is a list of fresh id ranges,
  a blank line, then the available ids. Part one counts the available ids
  that some range holds. Part two counts every id the ranges hold, using
  sort-then-sweep.
- **Day 6, the cephalopod worksheet** (`Worksheets`, worksheet.dfy, and
  `WorksheetAnswers`, worksheet_answers.dfy). Number lines sit above an
  operator line. Part one reads the numbers row by row. Part two reads the
  digits column by column. In both parts each problem is summed or
  multiplied, and the results are added up.

Three support modules hold what the Rust standard library provides to the
solvers:

- `Text` (text.dfy): `lines`, `split`, `split_once`,
  `split_ascii_whitespace`, `trim` and `parse::<u64>`, with their
  properties.
- `Numbers` (numbers.dfy): arithmetic facts and powers of ten.
- `Wrappers` (wrappers.dfy): `Option` and `Result`.

The model takes the form of the code:

- Code that folds iterators becomes a function. Examples: `parse_input`,
  `find_invalid_ids`, `max_joltage`, `solve_part_two`.
- Code that loops over mutable variables becomes a method with loop
  invariants, proved against a function. Examples: `find_password`,
  `part_two_is_invalid_id`, `find_max_with_index`,
  `find_max_jolts_of_battery_bank`, `count_neighbors`, the accessible-roll
  scan, both `try_from`s that loop, the day-5 sweep, `solve_part_one`.
- The day-4 `Grid` and `GridIterator` are classes whose methods update
  their fields.
- The recursive roll removal is a recursive method that modifies the grid.

Where the code panics (`expect`, `unwrap`, `unreachable!`, an index out of
bounds, an unsigned underflow), the model's method or function requires the
condition that keeps the code from panicking. Where the code returns an
error, the model returns the same error value.

One name in the code promises more than the code checks:

- **Day 4 rectangular check.** The construction error is called
  `ValueIsNotOfRectangularShape` (`2025/day-04/src/grid.rs:63`), and the
  callers read grids with `expect("input should be rectangular")`
  (`2025/day-04/src/main.rs:7`, `2025/day-04/src/grid.rs:140`). The check
  itself (`2025/day-04/src/grid.rs:91-99`) only asks that the total number
  of cells divides evenly by the number of lines. A line of 3 cells and a
  line of 5 cells therefore make a 4 by 2 grid. The model follows the code:
  `PaperGrid.UnevenLinesAccepted` proves this case.

## Model

| member | source | states |
|---|---|---|
| Dial.ParseRotation | 2025/day-01/src/main.rs:20-30 | a line is read exactly when its first character is 'L' or 'R' and the rest is a decimal amount; every other line is one the source aborts on |
| Dial.ParseFormatRotation | 2025/day-01/src/main.rs:20-30 | every rotation, written as a line, is read back as itself |
| Dial.Turn | 2025/day-01/src/main.rs:40-43 | after `rem_euclid` the dial is always at a position in 0..99 |
| Dial.ZeroHits | 2025/day-01/src/main.rs:32-38 | a turn lands on 0 at most once per click |
| Dial.RightTurnHits | 2025/day-01/src/main.rs:32-33 | for a right turn, the closed form `(position + amount) / 100` equals the number of clicks that land on 0 |
| Dial.LeftTurnHits | 2025/day-01/src/main.rs:34-38 | for a left turn, the closed form `(amount - position) / 100`, plus one unless the dial already shows 0, equals the number of clicks that land on 0; it is 0 when the amount is less than the position |
| Dial.Rotations | 2025/day-01/src/main.rs:19-30 | one rotation per input line, each the one its line reads as |
| Dial.CountStep | 2025/day-01/src/main.rs:32-47 | one more turn keeps the loop invariant: its stop at 0 is added to part one, its zero clicks to part two, and the dial moves to the turn's end |
| Dial.Rotate | 2025/day-01/src/main.rs:32-41 | the new position is the turn's end, and the clicks added to part two are exactly the clicks of that turn that land on 0 |
| Dial.ReadRotation | 2025/day-01/src/main.rs:20-30 | the multiplier is -1 for 'L' and 1 for 'R', and the amount is the amount the line reads as |
| Dial.FindPassword | 2025/day-01/src/main.rs:13-51 | starting at 50, part one is the number of turns that end at 0, and part two is the number of clicks, over all turns, that land on 0 |
| ProductIds.ParseInput | 2025/day-02/src/main.rs:21-40 | one range per comma-separated piece, each made of the piece's first two '-' parts, trimmed and read as numbers |
| ProductIds.FormatRangeRead | 2025/day-02/src/main.rs:24-38 | a range written as `start-end` has no comma and is read back as itself |
| ProductIds.ParseFormatRanges | 2025/day-02/src/main.rs:21-40 | reading a comma-joined list of written ranges gives the ranges back, in order |
| ProductIds.InvalidIdsIn | 2025/day-02/src/main.rs:45-46 | the ids of one range that the predicate accepts, each exactly once and in ascending order; none when start > end |
| ProductIds.FindInvalidIds | 2025/day-02/src/main.rs:42-48 | an id is listed exactly when some range holds it and the predicate accepts its decimal text |
| ProductIds.FindInvalidIdsAppend | 2025/day-02/src/main.rs:42-48 | the list goes range by range: the ids of two lists of ranges are those of the first list, then those of the second |
| ProductIds.PartOneIsInvalidId | 2025/day-02/src/main.rs:50-53 | an id is invalid for part one exactly when its length is even and it is its first half written twice |
| ProductIds.MismatchRefutes | 2025/day-02/src/main.rs:61-67 | one character of a chunk that differs from the prefix rules out that block length |
| ProductIds.RestMatches | 2025/day-02/src/main.rs:58-71 | when every chunk after the prefix matches it, the id is that prefix repeated |
| ProductIds.PartTwoIsInvalidId | 2025/day-02/src/main.rs:55-75 | the result is true exactly when, for some block length l with 1 <= l <= len/2 that divides the length, the id is its length-l prefix repeated |
| ProductIds.PartOneImpliesPartTwo | 2025/day-02/src/main.rs:50-75 | every non-empty id invalid for part one is invalid for part two |
| ProductIds.SingleDigitIsValid | 2025/day-02/src/main.rs:50-75 | a one-digit id is valid for both parts |
| Batteries.Digits | 2025/day-03/src/main.rs:17-20 | at most one battery per character, each below 10; a line made only of digits gives one battery per character, in order, with that character's value |
| Batteries.ParseInput | 2025/day-03/src/main.rs:13-23 | one bank per line, bank i being the digits of line i, every battery below 10 |
| Batteries.FirstMaxInIsFirstMax | 2025/day-03/src/main.rs:45-57 | the chosen position holds the largest digit of the window, and every earlier position in the window holds a smaller one |
| Batteries.FirstMaxUnique | 2025/day-03/src/main.rs:45-57 | only one position has both of those properties |
| Batteries.FindMaxWithIndex | 2025/day-03/src/main.rs:45-57 | returns the first index of the maximum and the maximum itself |
| Batteries.WindowFirstMax | 2025/day-03/src/main.rs:37 | the first maximum of the slice `bank[start..=len-n]`, shifted by `start`, is the first maximum of the bank in that window |
| Batteries.GreedyPicks | 2025/day-03/src/main.rs:36-38 | the greedy picks are n strictly increasing positions of the bank, at or after the start index |
| Batteries.GreedyValueStep | 2025/day-03/src/main.rs:36-39 | each round adds the window's maximum times 10^(n-1), and the next window starts after the pick |
| Batteries.GreedyRound | 2025/day-03/src/main.rs:36-40 | one round of the loop keeps the running sum plus the value of the remaining rounds equal to the final joltage, and keeps the next window inside the bank |
| Batteries.GreedyValueSpelled | 2025/day-03/src/main.rs:36-40 | the sum of weighted maxima is the number spelled by the picked batteries, in order |
| Batteries.ValueBound | 2025/day-03/src/main.rs:39 | n digits spell a number below 10^n |
| Batteries.GreedyIsLargest | 2025/day-03/src/main.rs:32-43 | no choice of n in-order batteries at or after the start spells a larger number than the greedy one |
| Batteries.MaxJoltsIsLargest | 2025/day-03/src/main.rs:32-43 | a bank's joltage is spelled by n in-order batteries, is below 10^n, and is at least the number spelled by every other choice of n |
| Batteries.FindMaxJoltsOfBatteryBank | 2025/day-03/src/main.rs:32-43 | the loop computes the greedy joltage of the bank |
| Batteries.MaxJoltage | 2025/day-03/src/main.rs:25-30 | the total is 0 for no banks, and every bank's largest joltage is part of it |
| Batteries.BankBound | 2025/day-03/src/main.rs:32-50 | one bank's largest joltage is at most 10^n - 1 |
| Batteries.MaxJoltageBound | 2025/day-03/src/main.rs:25-30 | every bank adds at most 10^n - 1 to the total |
| Batteries.MaxJoltageAppend | 2025/day-03/src/main.rs:25-30 | the total over two lists of banks is the sum of their totals |
| PaperGrid.CellsOf | 2025/day-04/src/grid.rs:74-85 | one cell per character of the lines, row after row; a roll exactly where the character is '@' |
| PaperGrid.ParseLayout | 2025/day-04/src/grid.rs:70-106 | no lines, or fewer cells than lines, is `DimensionsCannotBeZero`; a cell count that the line count does not divide is `ValueIsNotOfRectangularShape`; otherwise height is the line count, width is the cell count divided by it, and the buffer is exactly width * height cells |
| PaperGrid.LayoutCells | 2025/day-04/src/grid.rs:74-85 | cell i of a parsed grid is a roll exactly when the i-th character of the text, newlines skipped, is '@' |
| PaperGrid.Grid.TryFrom | 2025/day-04/src/grid.rs:67-107 | returns the layout's error, or a fresh valid grid holding exactly the layout's cells and dimensions |
| PaperGrid.Grid.At | 2025/day-04/src/grid.rs:30-42 | on a valid grid, `None` exactly when x >= width or y >= height; otherwise the cell at x + width * y |
| PaperGrid.Grid.Set | 2025/day-04/src/grid.rs:44-58 | succeeds exactly when `at` would find the coordinate, and then replaces only that cell; on failure nothing changes; dimensions never change and validity is kept |
| PaperGrid.Grid.Iter | 2025/day-04/src/grid.rs:23-28 | a fresh iterator over this grid, at position 0 |
| PaperGrid.GridIterator.Next | 2025/day-04/src/grid.rs:117-127 | while cells remain, yields the coordinate `(i % width, i / width)` and the cell of buffer position i, then advances; afterwards yields `None` and stays put |
| PaperGrid.RowOf | 2025/day-04/src/grid.rs:119-120 | `(i - i % width) / width` is the row `i / width` |
| PaperGrid.IteratedCellAt | 2025/day-04/src/grid.rs:117-127 | every coordinate the iterator yields is inside the grid, indexes back to its buffer position, and `at` finds the same cell there |
| PaperGrid.CoordinateOrder | 2025/day-04/src/grid.rs:117-127 | the iterator yields distinct coordinates in increasing row-major order |
| PaperGrid.UnevenLinesAccepted | 2025/day-04/src/grid.rs:91-99 | a 3-cell line and a 5-cell line are accepted as a 4 by 2 grid, because only the total is checked |
| PaperGrid.EmptyTextRefused | 2025/day-04/src/grid.rs:87-89 | an empty text is refused with `DimensionsCannotBeZero` |
| Forklift.BlockIsNeighborCount | 2025/day-04/src/main.rs:54-66 | the 3 by 3 block scanned from `x - 1` and `y - 1` (saturating), without the centre, counts exactly the roll neighbours |
| Forklift.CountNeighbors | 2025/day-04/src/main.rs:51-69 | the result is the number of the eight neighbours inside the grid that hold a roll, so at most 8 |
| Forklift.AccessibleLocations | 2025/day-04/src/main.rs:37-49 | the loop over the iterator lists exactly the reachable rolls, in buffer order |
| Forklift.ReachableUpToSound | 2025/day-04/src/main.rs:40-45 | every listed coordinate is that of a roll with at most 3 roll neighbours |
| Forklift.ReachableUpToOrdered | 2025/day-04/src/main.rs:40-45 | the list is in strictly increasing row-major order |
| Forklift.ReachableUpToComplete | 2025/day-04/src/main.rs:40-45 | every such roll is listed |
| Forklift.ReachableUpToIsFilter | 2025/day-04/src/main.rs:37-49 | buffer position i is listed exactly when its cell is a roll with at most 3 roll neighbours |
| Forklift.ReachableListed | 2025/day-04/src/main.rs:37-49 | a coordinate is listed exactly when it is inside the grid, `at` finds a roll there, and the roll has at most 3 roll neighbours |
| Forklift.RollCount | 2025/day-04/src/main.rs:20-35 | a grid holds at most as many rolls as it has cells |
| Forklift.RollCountClear | 2025/day-04/src/main.rs:27-30 | emptying one cell removes one roll if it held one, and none otherwise |
| Forklift.Cleared | 2025/day-04/src/main.rs:27-30 | clearing keeps the buffer length |
| Forklift.ClearedRolls | 2025/day-04/src/main.rs:27-30 | emptying k distinct roll positions removes exactly k rolls; the listed cells become empty and every other cell keeps its value |
| Forklift.ClearingPlan | 2025/day-04/src/main.rs:21-30 | the accessible list names distinct buffer positions that all hold rolls, so no `set` in the loop fails |
| Forklift.ClearLocations | 2025/day-04/src/main.rs:27-30 | after the loop of `set` calls, the grid is the old grid with exactly the listed cells emptied, still valid and with the same dimensions |
| Forklift.ProbeAgrees | 2025/day-04/src/main.rs:54-66 | probing a position of a valid grid through `at` reads the same cell as indexing its buffer at `x + width * y` |
| Forklift.ReachableAgrees | 2025/day-04/src/main.rs:37-49 | a position of a valid grid is accessible exactly when it is accessible in the grid's buffer read on its own |
| Forklift.ReachableIndices | 2025/day-04/src/main.rs:37-49 | one snapshot's accessible buffer positions, each a roll with at most 3 roll neighbours, in strictly increasing order |
| Forklift.ReachableIndicesComplete | 2025/day-04/src/main.rs:40-45 | every accessible position of the snapshot is taken |
| Forklift.ListedIndices | 2025/day-04/src/main.rs:37-49 | the buffer positions of the listed coordinates are exactly the snapshot's accessible positions, in the same order |
| Forklift.NoneReachable | 2025/day-04/src/main.rs:23-24 | a round that finds nothing leaves a buffer with no accessible roll |
| Forklift.Removal | 2025/day-04/src/main.rs:20-35 | the removal, round by round, on the buffer alone: the result has the same length and no more rolls |
| Forklift.RoundClears | 2025/day-04/src/main.rs:26-29 | one round empties exactly the positions it takes, all of which held rolls, so the roll count drops by their number |
| Forklift.RemovalRound | 2025/day-04/src/main.rs:23-33 | a round that takes nothing ends the removal; otherwise the removal goes on from the cleared buffer |
| Forklift.RemovalIsFinal | 2025/day-04/src/main.rs:23-24 | after the removal no roll is accessible |
| Forklift.RemovalOnlyEmpties | 2025/day-04/src/main.rs:27-28 | the removal only empties cells: every roll left was a roll before |
| Forklift.RemovalTakesReachable | 2025/day-04/src/main.rs:26-29 | a roll accessible in the first snapshot is gone after the removal |
| Forklift.RemoveAccessibleRolls | 2025/day-04/src/main.rs:20-35 | the new buffer is the round-by-round removal of the old one, and the total is the number of rolls it removed; afterwards no roll is accessible, no roll has appeared, and the dimensions are unchanged |
| IngredientInventory.ParseRange | 2025/day-05/src/inventory.rs:31-41 | a line is read only if its trimmed text holds a '-', and then exactly when both sides of the first '-' are decimal numbers |
| IngredientInventory.BlankIdRefused | 2025/day-05/src/inventory.rs:43-44 | an empty id line is refused |
| IngredientInventory.SplitOnceAt | 2025/day-05/src/inventory.rs:31 | `split_once` cuts at the first separator |
| IngredientInventory.RangeRoundTrip | 2025/day-05/src/inventory.rs:31-36 | a range written as `start-end` is a non-empty line and is read back as itself |
| IngredientInventory.IdRoundTrip | 2025/day-05/src/inventory.rs:43-45 | a written id is read back as itself |
| IngredientInventory.FirstBlank | 2025/day-05/src/inventory.rs:23-28 | the first empty line, or the line count when there is none; every line before it is non-empty |
| IngredientInventory.RangeLineFails | 2025/day-05/src/inventory.rs:31-41 | a line before the first blank that is not a range refuses the text with `InvalidIngredientIdRange` |
| IngredientInventory.IdLineFails | 2025/day-05/src/inventory.rs:42-46 | when every range line reads, a line after the first blank that is not an id refuses the text with `InvalidIngredientId` |
| IngredientInventory.ReadLines | 2025/day-05/src/inventory.rs:19-54 | the loop with its `parsing_ranges` flag computes exactly the section reading: ranges before the first blank line, ids after it, the first failing line's error otherwise |
| IngredientInventory.InventoryFrom | 2025/day-05/src/inventory.rs:16-55 | `try_from` on the text is the section reading of its lines |
| IngredientInventory.NoBlankLineNoIds | 2025/day-05/src/inventory.rs:23-48 | without a blank line the inventory has no available ids, and the only possible error is an invalid range |
| IngredientInventory.SecondBlankLineRefused | 2025/day-05/src/inventory.rs:25-46 | a second blank line is read as an id and refused with `InvalidIngredientId` |
| IngredientInventory.FirstBlankAfter | 2025/day-05/src/inventory.rs:25-28 | the first blank line after non-empty lines is the one that follows them |
| IngredientInventory.RangeLinesRead | 2025/day-05/src/inventory.rs:31-36 | written ranges are non-empty lines that are read back as the ranges, in order |
| IngredientInventory.IdLinesRead | 2025/day-05/src/inventory.rs:43-45 | written ids are non-empty lines that are read back as the ids, in order |
| IngredientInventory.SectionsRoundTrip | 2025/day-05/src/inventory.rs:19-54 | range lines, a blank line and id lines, each section read by its reader, give the inventory back |
| IngredientInventory.InventoryRoundTrip | 2025/day-05/src/inventory.rs:19-54 | every inventory, written as ranges, a blank line and ids, is read back as itself |
| Freshness.AnyContains | 2025/day-05/src/main.rs:21-26 | true exactly when some range holds the id |
| Freshness.FreshCount | 2025/day-05/src/main.rs:17-28 | the count is at most the number of available ids |
| Freshness.NumOfFreshAndAvailableIngredients | 2025/day-05/src/main.rs:17-28 | at most one per available id; every available id is counted exactly when each lies in some fresh range, and none exactly when none does |
| Freshness.FreshCountAppend | 2025/day-05/src/main.rs:17-28 | the count over two lists of ids is the sum of their counts |
| Freshness.FreshCountAll | 2025/day-05/src/main.rs:17-28 | every id is counted exactly when some range holds each of them |
| Freshness.FreshCountNone | 2025/day-05/src/main.rs:17-28 | the count is 0 exactly when no range holds any of the ids |
| Freshness.FreshCountSameRanges | 2025/day-05/src/main.rs:21-26 | the count depends only on which ranges there are, not on their order or repetition |
| Freshness.InsertByStart | 2025/day-05/src/main.rs:35-36 | inserting into a list sorted by start keeps it sorted and adds one range |
| Freshness.SortByStart | 2025/day-05/src/main.rs:35-36 | the result is sorted by start and is a permutation of the ranges |
| Freshness.MaxEnd | 2025/day-05/src/main.rs:38-52 | no range ends after it |
| Freshness.PossibleFreshPermutation | 2025/day-05/src/main.rs:35-36 | reordering the ranges does not change the ids they hold, so sorting first is sound |
| Freshness.SweepAbove | 2025/day-05/src/main.rs:45-47 | a range that starts after the highest id so far adds `end - start + 1` new ids |
| Freshness.SweepAcross | 2025/day-05/src/main.rs:48-50 | a range that starts at or before the highest id so far, and ends after it, adds `end - latest` new ids |
| Freshness.SweepWithin | 2025/day-05/src/main.rs:45-51 | a range that ends at or before the highest id so far adds no new id |
| Freshness.AnchorCovers | 2025/day-05/src/main.rs:41-51 | with the ranges sorted by start, every id between a later range's start and the highest id so far is already held by an earlier range |
| Freshness.SweepStart | 2025/day-05/src/main.rs:38-39 | before the first range the sweep invariant holds, with no id counted and highest id 0 |
| Freshness.SweepStep | 2025/day-05/src/main.rs:41-52 | each of the three branches keeps the sweep invariant: the count is the number of ids 1..latest held by the ranges so far, and no range so far ends after latest |
| Freshness.SweepEnd | 2025/day-05/src/main.rs:41-54 | at the end, the ids 1..latest that the sorted ranges hold are exactly the ids the original ranges hold |
| Freshness.NumOfPossibleFreshIngredients | 2025/day-05/src/main.rs:30-55 | the sweep returns the number of distinct positive ids that some range holds |
| Freshness.ExampleFresh | 2025/day-05/src/main.rs:61 | the worked example's ranges hold exactly the ids 3-5 and 10-20 |
| Freshness.ExampleFreshCount | 2025/day-05/src/main.rs:63-69 | for the worked example's inventory, the part-one answer is 3 |
| Freshness.ExampleMaxEnd | 2025/day-05/src/main.rs:61 | the worked example's ranges reach up to id 20 |
| Freshness.CoveredLowHigh | 2025/day-05/src/main.rs:71-77 | ranges that hold exactly 3-5 and 10-20 and reach up to 20 cover those two intervals |
| Freshness.ExamplePossibleFresh | 2025/day-05/src/main.rs:71-77 | the worked example's ranges hold 14 ids |
| Worksheets.OperatorOf | 2025/day-06/src/worksheet.rs:40-50 | only '+' and '*' are operators |
| Worksheets.ColumnStarts | 2025/day-06/src/worksheet.rs:39-52 | every recorded start is a position of the operator line that holds an operator |
| Worksheets.OperatorsAtStarts | 2025/day-06/src/worksheet.rs:39-52 | there is one operator per column start, and it is the one written at that start |
| Worksheets.ColumnStartsIncreasing | 2025/day-06/src/worksheet.rs:39-52 | the column starts are strictly increasing |
| Worksheets.ColumnStartsExact | 2025/day-06/src/worksheet.rs:39-52 | a position is a column start exactly when it holds an operator |
| Worksheets.ScanOperators | 2025/day-06/src/worksheet.rs:39-52 | refuses the line exactly when it holds a character other than '+', '*' and ' '; otherwise returns the column starts and the operators |
| Worksheets.NumbersOf | 2025/day-06/src/worksheet.rs:57-59 | at most one number per token |
| Worksheets.NumbersOfAppend | 2025/day-06/src/worksheet.rs:57-59 | the tokens are read one after the other |
| Worksheets.NumbersOfNumeric | 2025/day-06/src/worksheet.rs:58 | when every token is a number, each is kept, in order |
| Worksheets.PartOneRows | 2025/day-06/src/worksheet.rs:54-61 | one row of numbers per number line |
| Worksheets.NumberRowSpaced | 2025/day-06/src/worksheet.rs:54-61 | numbers written with spaces between them are read back as themselves |
| Worksheets.BoundsIncreasing | 2025/day-06/src/worksheet.rs:69 | the column starts, closed by the fake start `line_length + 1`, are strictly increasing |
| Worksheets.InSomeColumn | 2025/day-06/src/worksheet.rs:70-72 | a position lies in some column `start ..= next - 2` exactly when it is at or after the first start and the position after it is not a start |
| Worksheets.ColumnsCover | 2025/day-06/src/worksheet.rs:69-77 | a position of the operator line lies in some column exactly when it is at or after the first operator and is not a separator before the next one |
| Worksheets.ColumnText | 2025/day-06/src/worksheet.rs:78-82 | one character per number line |
| Worksheets.ColumnNumbers | 2025/day-06/src/worksheet.rs:77-90 | one number per position from the column's first to its last, each the number its characters spell |
| Worksheets.ColumnNumbersRead | 2025/day-06/src/worksheet.rs:77-90 | each number of a column is the one its position's characters read as |
| Worksheets.PartTwoColumns | 2025/day-06/src/worksheet.rs:65-93 | one column per operator |
| Worksheets.PartTwoColumnAt | 2025/day-06/src/worksheet.rs:70-93 | column k spans positions `bounds[k] ..= bounds[k+1] - 2`, and each entry is the number read from that position |
| Worksheets.ColumnEntries | 2025/day-06/src/worksheet.rs:69-93 | column k starts at operator k and ends two before the next start, or at the end of the line for the last one; each entry is the number its position reads as |
| Worksheets.ParseWorksheet | 2025/day-06/src/worksheet.rs:21-100 | fails exactly when there is no line or the last line holds a character other than '+', '*' and ' '; otherwise there is one part-one row per number line and one part-two column per operator |
| Worksheets.TryFrom | 2025/day-06/src/worksheet.rs:21-100 | the loops compute exactly the worksheet reading of the text |
| Worksheets.ReadColumns | 2025/day-06/src/worksheet.rs:74-93 | the loop over the column windows builds exactly the part-two columns |
| Worksheets.ReadColumn | 2025/day-06/src/worksheet.rs:77-90 | the loop over one column's positions reads exactly that column's numbers |
| Worksheets.ReadPosition | 2025/day-06/src/worksheet.rs:78-82 | the loop over the number lines gathers position i of each line, top to bottom |
| WorksheetAnswers.ApplyAppend | 2025/day-06/src/main.rs:28-31 | a problem's value is a fold: no numbers give 0 for '+' and 1 for '*', one number gives itself, and two lists of numbers combine their values |
| WorksheetAnswers.Problems | 2025/day-06/src/main.rs:38 | `zip` pairs as many columns with operators as the shorter of the two lists has entries |
| WorksheetAnswers.ZipStopsAtShorter | 2025/day-06/src/main.rs:38 | columns or operators beyond the shorter list take no part |
| WorksheetAnswers.GrandTotalAppend | 2025/day-06/src/main.rs:37-44 | every problem adds its own value to the total |
| WorksheetAnswers.SolvePartTwo | 2025/day-06/src/main.rs:37-44 | the answer is 0 without columns or without operators, and every column paired with an operator adds its whole value |
| WorksheetAnswers.GrandTotalCovers | 2025/day-06/src/main.rs:37-44 | every problem's value is part of the grand total |
| WorksheetAnswers.PartTwoAdditive | 2025/day-06/src/main.rs:37-44 | part two of a worksheet split into two sets of problems is the sum of their part-two answers |
| WorksheetAnswers.RowEntries | 2025/day-06/src/main.rs:23-26 | one entry per number row |
| WorksheetAnswers.RowColumns | 2025/day-06/src/main.rs:22-26 | one problem per operator position |
| WorksheetAnswers.PartOneStep | 2025/day-06/src/main.rs:22-32 | each operator adds the problem made of its position's row entries |
| WorksheetAnswers.SolvePartOne | 2025/day-06/src/main.rs:19-35 | the loop returns the total of the problems made of each operator position's row entries |
| WorksheetAnswers.ThreeNumbers | 2025/day-06/src/main.rs:28-31 | a three-number problem folds left to right |
| WorksheetAnswers.FourProblems | 2025/day-06/src/main.rs:37-44 | a four-problem total is the sum of the four values |
| WorksheetAnswers.ExampleAnswers | 2025/day-06/src/main.rs:52-66 | for the worked example's rows, part one is 4277556; for its worksheet, `solve_part_two` is 3263827 |
| Text.Lines | 2025/day-04/src/grid.rs:71 | `lines()`: no line holds a newline, the lines joined are the text without its newlines, and only the empty text has no lines |
| Text.LinesJoin | 2025/day-05/src/inventory.rs:24 | lines joined by newlines are read back as those lines; a trailing empty line is dropped |
| Text.Tokens | 2025/day-06/src/worksheet.rs:57 | `split_ascii_whitespace()`: non-empty tokens without whitespace that, joined, are the text without its whitespace |
| Text.Trim | 2025/day-05/src/inventory.rs:31 | `trim()`: the result is a slice of the text with only whitespace before and after it, it neither starts nor ends with whitespace, and it is empty exactly when the text is all whitespace |
| Text.TrimmedSlice | 2025/day-05/src/inventory.rs:31 | cutting leading and then trailing whitespace leaves such a slice |
| Text.SplitOnce | 2025/day-05/src/inventory.rs:31 | `split_once`: `None` exactly when the separator is missing; otherwise the text is the part before the first separator, the separator, and the rest |
| Text.ParseNat | 2025/day-02/src/main.rs:29 | `parse::<u64>()` accepts exactly the non-empty strings of decimal digits |
| Text.ParseTrimmed | 2025/day-05/src/inventory.rs:43-46 | an id line, and a column's text at `2025/day-06/src/worksheet.rs:84-89`, is read exactly when its trimmed text is a non-empty string of digits |
| Text.ParseNatToString | 2025/day-02/src/main.rs:45 | an id's `to_string()` is read back as the id |
| Text.JoinSplit | 2025/day-02/src/main.rs:23 | pieces without the separator, joined by it, split back into those pieces |
| Text.SplitJoin | 2025/day-02/src/main.rs:23 | the pieces of `split`, joined by the separator, give the text back |

## Left out

- The `main` functions, `include_str!` of the puzzle input, and `println!` are I/O and are not modelled. This includes the sums of the listed invalid ids in `main` at 2025/day-02/src/main.rs:10-11; the model stops at the lists.
- Machine integers are not modelled. The model uses unbounded naturals for `u64`, `i64`, `u32` and `usize`, so overflow of the sums, products, `10_u64.pow`, the day-1 counters, and the day-4 `u32` counts is not captured. The model assumes that the inputs keep these values within range.
- Dial.ParseRotation: `parse::<i64>` also accepts a leading '+' or '-' and refuses values beyond the i64 range. The model reads only unsigned decimal amounts; a signed amount is treated like any other unreadable line.
- Text.ParseNat: `parse::<u64>` also accepts a leading '+' and refuses values beyond 2^64 - 1. The model accepts exactly the non-empty digit strings, with no upper bound.
- Text.Trim: `trim` removes Unicode whitespace. The model removes the ASCII whitespace and vertical tab only.
- Text.Lines: the model splits at '\n' and does not strip a '\r' before it. Strings are sequences of characters; the byte offsets of `split_at`, `len` and `chars().nth` coincide with character positions only for ASCII input, which is what the puzzles use.
- The unit tests' literal expectations are not all restated as lemmas. Left out are: the day-2 invalid-id lists, the day-3 joltages, the day-4 parsed 10 by 10 cell vector with its 13 accessible rolls and 43 removed rolls, and the day-5 and day-6 parsed inventories and worksheets. Proved: the day-5 answers 3 and 14 from the example's ranges and ids, and the day-6 answers 4277556 and 3263827 from the example's rows and columns.
- Freshness.SortByStart: `sort_by_key` is modelled as a pure stable insertion sort on a value, not as Rust's in-place merge sort. Only its result matters to the sweep, which the contract captures as sorted and a permutation.
- Freshness.NumOfPossibleFreshIngredients: the sweep starts with `latest_highest_id = 0`, so a range starting at 0 never counts id 0. The model states this, counting only the positive ids the ranges hold. Its precondition is stronger than the source needs: it requires start <= end for every range, while `end - start + 1` underflows in `u64` only for a reversed range that starts above the highest id so far.
- Panics become preconditions. The conditions are:
  - every day-1 line is a direction letter and an amount (`unreachable!`, `expect`);
  - every day-2 piece holds two numbers (`expect`);
  - each day-3 bank holds at least the number of batteries to turn on (`bank.len() - n`);
  - every day-6 number row has an entry for each operator (`elements[index]`);
  - no two day-6 operators are adjacent, since `arr[1] - 2` or the capacity computation at 2025/day-06/src/worksheet.rs:72 and :75 would underflow;
  - every day-6 number line reaches each column position (`unwrap`), and every column reads as a number (`expect`).
- Readers as parameters: IngredientInventory.ReadLines and Worksheets.ReadColumns take the line readers as function parameters. The code's readers are these same `trim().parse()` compositions; the parameter only keeps the proofs small, and ReadInventory and ParseWorksheet instantiate them with the source's readers.
- Dial.Rotate: the source adds to `part_two_answer` inside each branch. The model computes the branch's clicks into a local and adds it once; the sum is the same.
- Forklift.RemoveAccessibleRolls: the source's recursion is kept as recursion. Its termination measure is the roll count, which every round with accessible rolls decreases.
- The iterator adaptors (`map`, `filter_map`, `flat_map`, `windows`, `chunks`, `zip`) are modelled by the functions and loops they compute, not as lazy iterator objects.
