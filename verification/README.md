# sortCreepParts in Dafny

A model of `sortCreepParts` from the Screeps bot in XenoAmess/screeps. The routine orders
the body parts of a creep for spawning. It takes a list of parts and a layout (a list of
part kinds). It counts the parts per kind into a `Map` and then cuts six blocks out of
that count table, each stage lowering the counts it uses:

1. one buried part per layout kind, other than MOVE, RANGED_ATTACK and TOUGH, then one MOVE
   and one RANGED_ATTACK;
2. all TOUGH parts, for the front;
3. half of the MOVE parts, rounded up;
4. the remaining MOVE parts, but only when there is no RANGED_ATTACK;
5. repeated round-robin sweeps over the layout until a sweep takes nothing; MOVE is skipped
   here unless there is RANGED_ATTACK;
6. whatever is left, grouped by kind in the map's order.

The result is front, first MOVE block, centre, leftovers, second MOVE block, buried.

There are two copies of the routine. `src_ts/utils_creep_part.ts` is the TypeScript
original. `src/utils_creep_part.js` is a JavaScript copy that computes the first MOVE count
differently.

The project has five modules:

- `CreepParts` (`creep_parts.dfy`): the eight part kinds, the map's key order, count
  tables, `Array(n).fill(k)`, the counting of parts and the layout's distinct kinds.
- `PartOrder` (`part_order.dfy`): a reference definition of every stage as a function from
  a count table to what it leaves and emits, the whole pipeline (`Cut`, `SortedParts`), and
  the properties proved about them.
- `CentreOrder` (`centre_order.dfy`): the order of the centre block. It defines the
  round-robin sweeps over the input table (`RoundRobin`) and a closed form
  (`KeepFrom` over the layout repeated once per part), and proves that the centre stage
  emits exactly that sequence.
- `SortTs` (`sort_ts.dfy`): the TypeScript code in its own imperative form. The mutable
  count map is a class `PartCountMap` with a `counts` field that every stage updates
  through `Set`. Each stage is a method with the source's loops, proved to compute the
  matching `PartOrder` function.
- `SortJs` (`sort_js.dfy`): the JavaScript copy. Its burying loop is written as a
  `switch` with `break`, and its first MOVE stage uses floating-point arithmetic. It
  returns a `Result`, because that arithmetic can make `Array(n)` throw. The stages whose
  code is the same as in the TypeScript file reuse the `SortTs` methods.

## Model

| member | source | states |
|---|---|---|
| CreepParts.Rank | src_ts/utils_creep_part.ts:72-83 | each kind has a position in `MapOrder`, the map literal's insertion order, and that position holds the kind |
| CreepParts.Repeat | src_ts/utils_creep_part.ts:132 | `Array(n).fill(k)` has length n, every entry is k, and it holds n parts of kind k and none of any other kind |
| CreepParts.CountParts | src_ts/utils_creep_part.ts:72-86 | the filled map has an entry for every kind, none negative, equal to how often that kind occurs in the parts |
| CreepParts.CountPartsOfPermutation | src_ts/utils_creep_part.ts:84-86 | two part lists with the same parts in any order fill the same map |
| CreepParts.Unique | src_ts/utils_creep_part.ts:88-91 | the layout's kind set has no repeats and holds exactly the kinds of the layout |
| CreepParts.UniqueFirstOccurrence | src_ts/utils_creep_part.ts:88-91 | the set iterates kinds in order of first occurrence: an earlier kind occurs in the layout before every occurrence of a later one |
| CreepParts.TotalDecrement | src_ts/utils_creep_part.ts:176-179 | taking one part of a kind in stock keeps the table valid and lowers the total count by exactly one |
| PartOrder.TakeOne | src_ts/utils_creep_part.ts:108-112 | a kind in stock is pushed and its count lowered by one; otherwise nothing changes; other kinds are untouched and no count goes negative |
| PartOrder.BuryPass | src_ts/utils_creep_part.ts:100-113 | the layout pass of the burying stage emits exactly what it takes from the table, and leaves the counts of the kinds it `continue`s past (`Unburied`: MOVE, RANGED_ATTACK and TOUGH) unchanged |
| PartOrder.Bury | src_ts/utils_creep_part.ts:97-126 | the burying stage emits exactly what it takes; TOUGH is untouched; MOVE and RANGED_ATTACK each lose one part when present |
| PartOrder.LayoutBuried | src_ts/utils_creep_part.ts:100-113 | a kind is in the layout part of the buried block iff it is in the layout, is not MOVE, RANGED_ATTACK or TOUGH, and is in stock; over distinct kinds the block has no repeats |
| PartOrder.BuryPassFilters | src_ts/utils_creep_part.ts:100-113 | over the distinct layout kinds, the burying loop emits exactly LayoutBuried |
| PartOrder.BuryShape | src_ts/utils_creep_part.ts:97-126 | the burying stage emits LayoutBuried, then MOVE if the input has one, then RANGED_ATTACK if it has one |
| PartOrder.LayoutBuriedOrder | src_ts/utils_creep_part.ts:100-113 | the buried layout kinds keep the order of the kind set |
| PartOrder.BuriedInLayoutOrder | src_ts/utils_creep_part.ts:88-113 | the buried layout kinds come in order of first occurrence in the layout |
| PartOrder.Front | src_ts/utils_creep_part.ts:130-136 | the front stage emits every TOUGH part, sets the TOUGH count to 0 and leaves the other counts alone |
| PartOrder.HalfUp | src_ts/utils_creep_part.ts:142 | the first MOVE count h for m MOVE parts satisfies m <= 2h <= m + 1, so it is m / 2 rounded up |
| PartOrder.HalfUpIsCeiling | src_ts/utils_creep_part.ts:142 | HalfUp equals the source's expression: m / 2 for even m, (m + 1) / 2 for odd m |
| PartOrder.FirstMoves | src_ts/utils_creep_part.ts:139-147 | the first MOVE block is HalfUp(m) MOVE parts, and the stage emits exactly what it takes |
| PartOrder.SecondMoves | src_ts/utils_creep_part.ts:150-162 | without RANGED_ATTACK it emits all remaining MOVE parts and leaves MOVE at 0; with RANGED_ATTACK it emits nothing and leaves the table as it was |
| PartOrder.ScanLayout | src_ts/utils_creep_part.ts:170-181 | one sweep emits exactly what it takes, lowers the total by the number it emits, and sets the loop flag iff it emitted something; a sweep that emits nothing finds every considered layout kind at 0 (`Considered`: any kind but MOVE, and MOVE too when there is RANGED_ATTACK); a kind the sweep does not consider keeps its count. Which entries it emits, in order, is `CentreOrder.ScanKeeps` |
| PartOrder.CentreLoop | src_ts/utils_creep_part.ts:168-182 | the sweeps terminate, because each sweep that emits lowers the total; they emit exactly what they take; on exit every considered layout kind is at 0, and every kind not considered keeps its count. The order of what they emit is `CentreOrder.CentreLoopKeeps` |
| PartOrder.Centre | src_ts/utils_creep_part.ts:165-185 | the centre stage emits exactly what it takes, leaves every considered layout kind at 0 and every other kind at its count, and its block holds only considered layout kinds. Its order is `CentreOrder.CentreRoundRobin` |
| CentreOrder.CentreRoundRobin | src_ts/utils_creep_part.ts:165-185 | the centre block is the round-robin sweeps over the layout, in layout order within each sweep, until a sweep takes nothing; in closed form it is the entries of the layout repeated Total(c) times whose kind is considered and has fewer than c[k] earlier entries, so the block keeps the layout's order |
| CentreOrder.CentreLoopKeeps | src_ts/utils_creep_part.ts:168-182 | the `while (stillLooping)` sweeps, from the table left after any number of earlier sweeps, emit what RoundRobin keeps |
| CentreOrder.RoundRobinFlat | src_ts/utils_creep_part.ts:168-182 | with at least as many rounds as parts left, the sweeps keep what the closed form keeps from the layout repeated that many times |
| CentreOrder.ScanKeeps | src_ts/utils_creep_part.ts:170-181 | one sweep emits, in layout order, exactly the entries whose kind is considered and still in stock, as the closed form selects them |
| CentreOrder.ScanDrains | src_ts/utils_creep_part.ts:170-181 | one sweep leaves the table the closed form gives once its entries are counted as seen |
| CentreOrder.SweepDrains | src_ts/utils_creep_part.ts:172-181 | a sweep that emits something lowers the number of parts left, so the sweeps stop |
| CentreOrder.Drained | src_ts/utils_creep_part.ts:172-179 | the table after some entries have been swept: a considered kind loses one part per entry, down to 0, and every other kind keeps its count |
| CentreOrder.DrainedStep | src_ts/utils_creep_part.ts:176-179 | sweeping one more entry lowers its kind by one when it is considered and in stock, and otherwise leaves the table as it was |
| CentreOrder.KeepFromAppend | src_ts/utils_creep_part.ts:170-181 | selecting over two lists in a row is selecting over the first, then over the second with the first counted as seen |
| CentreOrder.KeepNone | src_ts/utils_creep_part.ts:176 | once every considered kind of a list has been seen as often as it has parts, nothing more is selected |
| CentreOrder.QuietSweepKeepsNone | src_ts/utils_creep_part.ts:168-171 | after a sweep that takes nothing, no later sweep takes anything |
| PartOrder.GroupedFrom | src_ts/utils_creep_part.ts:191-198 | the entries from position n of the map on emit exactly the counts of those kinds |
| PartOrder.GroupedFromSorted | src_ts/utils_creep_part.ts:191-198 | those entries come out in map order, none before position n |
| PartOrder.Grouped | src_ts/utils_creep_part.ts:188-201 | the leftover block holds exactly the parts left in the table |
| PartOrder.GroupedInMapOrder | src_ts/utils_creep_part.ts:191-198 | the leftover block lists kinds in the map's insertion order |
| PartOrder.Finish | src_ts/utils_creep_part.ts:150-201 | the second MOVE, centre and leftover stages, run in source order on the table the first MOVE block leaves; together their three blocks hold exactly the parts of that table |
| PartOrder.HeadConserves | src_ts/utils_creep_part.ts:97-147 | the buried, front and first MOVE blocks plus what is left hold exactly the input counts |
| PartOrder.Cut | src_ts/utils_creep_part.ts:93-201 | the six stages in source order on one count table, each on what the previous one leaves; the six blocks together hold exactly the parts of the table |
| PartOrder.Flatten | src_ts/utils_creep_part.ts:205-214 | the result array: the six blocks pushed in the order front, first MOVE, centre, leftovers, second MOVE, buried; it holds exactly their parts, opens with the front block then the first MOVE block, and closes with the buried block |
| PartOrder.SortedParts | src_ts/utils_creep_part.ts:69-216 | `sortCreepParts` itself: the blocks cut from the count table of the parts, flattened; the output is a permutation of the input parts, of the same length |
| PartOrder.FrontBlock | src_ts/utils_creep_part.ts:130-136 | the front block is all TOUGH parts of the input |
| PartOrder.ToughOnlyInFront | src_ts/utils_creep_part.ts:97-201 | no block other than the front holds a TOUGH part |
| PartOrder.HeadMoves | src_ts/utils_creep_part.ts:114-147 | after the first MOVE block, the MOVE count is the count after burying minus HalfUp of it |
| PartOrder.FinishMoves | src_ts/utils_creep_part.ts:150-201 | without RANGED_ATTACK the second MOVE block takes every remaining MOVE and neither the centre nor the leftovers hold MOVE; with RANGED_ATTACK the second block is empty |
| PartOrder.FirstMoveBlockOfCut | src_ts/utils_creep_part.ts:114-147 | the first MOVE block is HalfUp(m) MOVE parts, where m is the MOVE count after one MOVE is buried |
| PartOrder.SecondMovesTakeAll | src_ts/utils_creep_part.ts:153-158 | without RANGED_ATTACK the second MOVE stage takes every MOVE part in the table |
| PartOrder.SecondMoveBlock | src_ts/utils_creep_part.ts:150-162 | without RANGED_ATTACK the second MOVE block is the m - HalfUp(m) MOVE parts the first did not take |
| PartOrder.NoMoveInCentre | src_ts/utils_creep_part.ts:172-174 | without RANGED_ATTACK neither the centre nor the leftovers hold a MOVE part |
| PartOrder.NoSecondMoveBlock | src_ts/utils_creep_part.ts:153-154 | with RANGED_ATTACK the second MOVE block is empty |
| PartOrder.BuriedBlockShape | src_ts/utils_creep_part.ts:97-126 | the buried block of the pipeline is BuriedBlock |
| PartOrder.LeftoversOutsideLayout | src_ts/utils_creep_part.ts:165-201 | every kind in the leftover block is absent from the layout |
| PartOrder.FinishLeftovers | src_ts/utils_creep_part.ts:165-201 | the same, for the stages after the first MOVE block, from any table |
| PartOrder.BuryPassFrame | src_ts/utils_creep_part.ts:100-113 | the layout pass of the burying stage leaves the count of every kind outside the layout alone |
| PartOrder.HeadLeavesOthers | src_ts/utils_creep_part.ts:97-147 | the burying, front and first MOVE stages leave the count of a kind outside the layout, other than MOVE, RANGED_ATTACK and TOUGH, alone |
| PartOrder.FinishOutsideLayout | src_ts/utils_creep_part.ts:150-201 | after the first MOVE block, a kind outside the layout never reaches the centre, and all its parts other than MOVE go to the leftovers |
| PartOrder.NonLayoutKindsInLeftovers | src_ts/utils_creep_part.ts:165-201 | a kind outside the layout is never in the centre block, and every part of such a kind other than MOVE, RANGED_ATTACK and TOUGH ends up in the leftover block |
| PartOrder.ToughPrefix | src_ts/utils_creep_part.ts:205-208 | the output starts with all n TOUGH parts of the input, and no TOUGH part follows them |
| PartOrder.FirstMoveBlock | src_ts/utils_creep_part.ts:205-209 | right after the TOUGH prefix come HalfUp(m) MOVE parts |
| PartOrder.BuriedSuffix | src_ts/utils_creep_part.ts:205-212 | the output ends with BuriedBlock |
| PartOrder.OrderIndependent | src_ts/utils_creep_part.ts:84-86 | two inputs with the same parts in any order sort to the same output |
| PartOrder.Idempotent | src_ts/utils_creep_part.ts:69-216 | sorting the output again with the same layout returns it unchanged |
| SortTs.PartCountMap.constructor | src_ts/utils_creep_part.ts:72-83 | the new map holds every kind with count 0 |
| SortTs.PartCountMap.Set | src_ts/utils_creep_part.ts:85 | `set` overwrites one entry and leaves the others alone |
| SortTs.ZeroValid | src_ts/utils_creep_part.ts:72-83 | the initial map `Zero` is complete and every entry is 0 |
| SortTs.CountInto | src_ts/utils_creep_part.ts:84-86 | the counting loop leaves CountParts(parts) in the map |
| SortTs.UniqueKinds | src_ts/utils_creep_part.ts:88-91 | the set-filling loop yields Unique(layout) |
| SortTs.TakePart | src_ts/utils_creep_part.ts:109-112 | the push and decrement for a kind in stock do what TakeOne describes and keep the map valid |
| SortTs.BuryParts | src_ts/utils_creep_part.ts:97-126 | the burying code, with its `switch`/`continue`, emits Bury's block and leaves Bury's table |
| SortTs.FrontToughParts | src_ts/utils_creep_part.ts:130-136 | the front code emits Front's block and leaves Front's table |
| SortTs.FirstMoveParts | src_ts/utils_creep_part.ts:139-147 | the first MOVE code, with its even/odd expression, emits FirstMoves' block and leaves its table |
| SortTs.SecondMoveParts | src_ts/utils_creep_part.ts:150-162 | the second MOVE code emits SecondMoves' block and leaves its table |
| SortTs.CentreLayoutParts | src_ts/utils_creep_part.ts:165-185 | the `while (stillLooping)` loop around the `for` sweep emits Centre's block and leaves its table |
| SortTs.GroupedStep | src_ts/utils_creep_part.ts:191-198 | one entry of the leftover loop appends that kind's block, or nothing when its count is 0 |
| SortTs.AdditionalParts | src_ts/utils_creep_part.ts:188-201 | the loop over the map's entries emits Grouped of the table |
| SortTs.Assemble | src_ts/utils_creep_part.ts:205-214 | the six stage results pushed onto an empty array are SortedParts, a permutation of the input |
| SortTs.SortCreepParts | src_ts/utils_creep_part.ts:69-216 | the whole routine returns SortedParts(parts, layout), a permutation of the parts |
| SortJs.ArrayFill | src/utils_creep_part.js:90 | `Array(n).fill(k)` succeeds iff n is a whole, non-negative number, and then holds n copies of k |
| SortJs.FirstMoveCount | src/utils_creep_part.js:85-89 | the floating-point first MOVE count for m MOVE parts is a valid array length iff m is even; then it is HalfUp(m); for odd m it is HalfUp(m) + 0.5 |
| SortJs.FirstMovesJs | src/utils_creep_part.js:82-92 | the JavaScript first MOVE stage succeeds iff the MOVE count is even, and then equals the TypeScript stage |
| SortJs.ParityAfterBurying | src/utils_creep_part.js:65-69 | the MOVE count left after burying is even iff the input MOVE count is not both positive and even |
| SortJs.CutJs | src/utils_creep_part.js:46-134 | the JavaScript stages on a count table throw iff the MOVE count is positive and even, and otherwise cut the TypeScript blocks |
| SortJs.JsAgreesWithTs | src/utils_creep_part.js:27-144 | the JavaScript routine throws a RangeError iff the input has a positive, even number of MOVE parts, and otherwise returns what the TypeScript routine returns |
| SortJs.SortedPartsJs | src/utils_creep_part.js:27-144 | the JavaScript `sortCreepParts` throws iff the input has a positive, even number of MOVE parts; when it returns, the result is a permutation of the parts |
| SortJs.TwoMovesThrow | src/utils_creep_part.js:85-91 | with parts [MOVE, MOVE] the JavaScript routine throws, while the TypeScript routine returns both parts |
| SortJs.BuryParts | src/utils_creep_part.js:47-75 | the `switch` whose MOVE, RANGED_ATTACK and TOUGH labels `break` skips those kinds as `continue` does: it emits Bury's block and leaves Bury's table |
| SortJs.FirstMoveParts | src/utils_creep_part.js:82-92 | the floating-point stage throws and leaves the map alone when the MOVE count is odd; otherwise it emits FirstMoves' block and leaves its table |
| SortJs.Assemble | src/utils_creep_part.js:135-143 | when the first MOVE stage succeeds, the six blocks pushed onto an empty array are the JavaScript routine's result |
| SortJs.SortCreepParts | src/utils_creep_part.js:27-144 | the whole JavaScript routine returns SortedPartsJs: a RangeError iff the input MOVE count is positive and even, otherwise the TypeScript result, a permutation of the parts |

## Left out

- `CreepPartData` (src_ts/utils_creep_part.ts:17-60, src/utils_creep_part.js:10-17) is not modelled. The routine reads only the layout's `parts` field, so the layout is given as that list of kinds.
- The game's part constants (src_ts/utils_creep_part.ts:3-10) are strings in the source. Here they are the eight constructors of `Kind`, and string identity is not modelled.
- Parts or layout entries of an unknown kind are not representable, because `Kind` is closed. In the source such a part would get a `NaN` count, fail every `> 0` test and be dropped without an error. The code has no check for unknown kinds, and the model follows the code.
- The write `entry[1] = 0` (src_ts/utils_creep_part.ts:196, src/utils_creep_part.js:131) changes only the temporary entry array and never the map, so `AdditionalParts` reads the table without changing it.
- The JavaScript array length limit of 2^32 - 1 is not modelled. `SortJs.ArrayFill` accepts any whole, non-negative length, and counts are unbounded integers.
- JavaScript numbers are modelled as exact reals only in the first MOVE stage of the JavaScript copy, the one place where a count can stop being whole. Everywhere else counts stay whole and are modelled as integers.
- `SortTs.TakePart` is a helper for the push and decrement that the source writes out at each place. The TypeScript and JavaScript methods call it inside the source's own `if (partCount > 0)`.
- MOVE routing is stated block by block (`PartOrder.SecondMoveBlock`, `PartOrder.NoMoveInCentre`, `PartOrder.NoSecondMoveBlock`). Output positions are stated only for the TOUGH prefix, the first MOVE block and the buried suffix.

## Findings

| source | as written | input that shows it | evidently intended | confidence | as-written member | corrected member |
|---|---|---|---|---|---|---|
| src/utils_creep_part.js:85-91 | the first MOVE count is `movePartsTotal / 2` in floating point, plus one when the count is odd, and is passed to `Array(...)` | parts [MOVE, MOVE] with any layout: one MOVE is buried, leaving 1; then 1 / 2 + 1 = 1.5, and `Array(1.5)` throws a RangeError | half of the MOVE count rounded up, as src_ts/utils_creep_part.ts:142 computes it | not executed | SortJs.TwoMovesThrow | SortTs.FirstMoveParts |
