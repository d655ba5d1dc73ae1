# Sudoku solver by constraint propagation and search

This project models, in Dafny, the solver core of a small Python Sudoku
repository. There are two copies of that solver:

- `p-sudoku/solution.py` is the complete one. It builds the grid topology
  (box names, the 27 units, the 2 diagonal units, peer tables). It has the
  parser `grid_values`, the three propagation rules `eliminate`,
  `only_choice` and `naked_twins`, the loop `reduce_puzzle`, the backtracking
  `search` and the entry point `solve`.
- `solution.py` at the top level is the other variant. Its `naked_twins`
  prunes a unit as soon as it finds a pair, through
  `eliminate_peer_possibilities_for_naked_twins`. Its `reduce_puzzle` runs
  only `eliminate` and `only_choice`.

A board (`values`) maps each box name such as `"A1"` to a string of candidate
digits. The model keeps it as a `map<Cell, string>` keyed by the 81 boxes.
Candidates stay a string, not a set, because `search` tries them in string
order. The relation "candidates only shrink" is `Boards.Refines`: the same
keys, and every box holds a subsequence of what it held before.

Each rule is a method with loops, following the Python loops. Each method
returns the new board. The Python dictionary is changed in place, but every
caller uses the returned board, so the model passes boards by value. The
unit list and the peer table are explicit parameters of every rule. So the
contracts hold for whichever table the code picks, including the swapped
selection recorded under "## Findings".

Beyond "candidates only shrink", the model states soundness. A full digit
assignment is a solution (`Boards.IsSolution`) when every unit holds every
digit exactly once. The rules keep every solution that agrees with the board
(`Boards.KeepsSolutions`), provided the tables are sound (`Reduce.Sound`):
every listed peer shares a unit with its box, and no unit lists a box twice.
From this:

- when `search` fails, no solution agrees with its input;
- when it succeeds, the board it returns is one where no solved box shares
  its digit with a peer;
- `solve` with matching tables returns a board that keeps its givens and,
  for a grid of digits and `'.'`, is a solution of the puzzle.

Modules, in dependency order:

- `Wrappers`: `Option`.
- `Strings`: `str.replace`, the subsequence relation and Python's string
  order.
- `Topology`: `cross` and the tables.
- `Boards`: boards, narrowing, solutions.
- `Codec`: `grid_values`.
- `Propagation`: `eliminate`, `only_choice`, and the `min` of `search`.
- `Twins`: both forms of `naked_twins`.
- `Reduce`: `reduce_puzzle`.
- `Backtracking`: `search`.
- `Solver`: `solve`, plus the consequences of the table swap.

The flag `withTwins` of `Reduce.ReducePuzzle` and `Backtracking.Search`
selects between the two copies. With `true` it is the p-sudoku loop, which
runs `naked_twins`. With `false` it is the top-level loop, which does not.

The top-level `solution.py` imports its tables from a `utils` module. That
module is not part of this model, so the tables of
`p-sudoku/solution.py:12-26` stand in for it.

Two places where the code and its own comments or its twin differ. The
model follows the code in both:

- The docstring of `reduce_puzzle` (p-sudoku/solution.py:152 and
  solution.py:85) says the loop returns once an iteration leaves the sudoku
  the same. The loop in fact stops as soon as the number of solved boxes
  stops rising. A pass that narrows an unsolved box without solving one,
  for example through `naked_twins`, also ends the loop. The model proves
  what the stall does give: the board is settled (`Reduce.Settled`).
- The two copies of naked twins prune different boxes.
  `p-sudoku/solution.py:104` prunes every other box with more than one
  candidate. The top-level `solution.py:11` prunes only boxes with more
  than two candidates. Each copy is modelled as written.

## Model

| member | source | states |
|---|---|---|
| Topology.Cross | p-sudoku/solution.py:9-10 | `cross(a, b)` has `len(a) * len(b)` names, and a name is in it exactly when it is a character of `a` followed by a character of `b` |
| Topology.CrossSorted | p-sudoku/solution.py:9-10 | for strictly increasing `a` and `b`, the names come out in strictly increasing string order (row-major) |
| Topology.BoxesShape | p-sudoku/solution.py:12 | `boxes` holds 81 distinct names in increasing order, exactly the row letter followed by the column digit |
| Topology.RowUnitShape | p-sudoku/solution.py:14 | each row unit holds 9 distinct boxes of the grid |
| Topology.ColumnUnitShape | p-sudoku/solution.py:15 | each column unit holds 9 distinct boxes of the grid |
| Topology.SquareUnitShape | p-sudoku/solution.py:16-17 | each 3x3 square unit holds 9 distinct boxes of the grid |
| Topology.DiagonalShape | p-sudoku/solution.py:22-23 | each of the two diagonals holds 9 distinct boxes of the grid |
| Topology.UnitsShape | p-sudoku/solution.py:14-24 | `unitlist` has 27 units and `diag_unitlist` 29; every unit of `unitlist` is in `diag_unitlist`; every unit holds 9 distinct boxes of the grid |
| Topology.UnitsContaining | p-sudoku/solution.py:19 | the units listed for `s` are exactly the units of the list that contain `s` |
| Topology.PeerMapExact | p-sudoku/solution.py:19-20 | for any unit list, `p` is a peer of box `s` exactly when `p != s` and some unit holds both |
| Topology.PeersExact | p-sudoku/solution.py:19-20 | `peers[s]` is exactly the other boxes sharing a row, column or square with `s`, and holds only boxes |
| Topology.DiagPeersExact | p-sudoku/solution.py:25-26 | `diag_peers[s]` is exactly the other boxes sharing a unit of `diag_unitlist` with `s` |
| Topology.PeersSymmetric | p-sudoku/solution.py:19-26 | no box is its own peer in either table, and both peer relations are symmetric |
| Topology.TablesKeys | p-sudoku/solution.py:19-26 | `units`, `peers` and both diagonal tables have exactly the 81 boxes as keys |
| Topology.NoCommonUnit | p-sudoku/solution.py:14-18 | two boxes in different rows, different columns and different row bands share no unit of `unitlist` |
| Topology.MainDiagonal | p-sudoku/solution.py:22-24 | the diagonal `zip(rows, cols)` is a unit of `diag_unitlist` and holds A1, D4 and E5 |
| Topology.PeersCount | p-sudoku/solution.py:19-20 | each box has exactly 20 peers: 8 in its row, 8 in its column and 4 more in its square |
| Solver.DiagPeersCoverUnits | p-sudoku/solution.py:19-26 | `diag_peers` lists every box that shares a row, column or square with another |
| Topology.ShareUnitWider | p-sudoku/solution.py:24 | two boxes that share a unit of `unitlist` share one of `diag_unitlist` |
| Strings.RemoveChar | p-sudoku/solution.py:125 | `s.replace(c, '')` drops every `c` and keeps every other character as often as it occurs, in order |
| Strings.Delete | p-sudoku/solution.py:125 | `s.replace(digit, '')` for a digit string of length one or zero: the empty pattern leaves `s` alone, otherwise every occurrence of that character is dropped and every other character kept as often as it occurs, in order |
| Strings.RemoveDigits | p-sudoku/solution.py:105-106 | `for digit in twins_value: s = s.replace(digit, '')` drops every character of `twins_value` and keeps every other character of `s` as often as it occurs, in order |
| Strings.SubseqTrans | p-sudoku/solution.py:158-168 | narrowing a narrowing of a candidate string is a narrowing of it |
| Strings.LexLessTotal | p-sudoku/solution.py:181 | Python's string order relates any two different names |
| Strings.LexLessTransitive | p-sudoku/solution.py:181 | Python's string order is transitive |
| Boards.RefinesTrans | p-sudoku/solution.py:158-168 | candidates that only shrink in each pass only shrink over the whole loop |
| Boards.SolvedCount | p-sudoku/solution.py:159-160 | the number of solved boxes is at most 81, which bounds the `while not stalled` loop |
| Boards.CountSolvedMono | p-sudoku/solution.py:159-165 | when every box solved before is solved after, the solved count does not drop |
| Boards.RefinesTotal | p-sudoku/solution.py:175 | narrowing a board does not raise its total number of candidates |
| Boards.AssignLowersTotal | p-sudoku/solution.py:184-186 | fixing a box with several candidates to one candidate strictly lowers the total, the measure on which `search` recurses |
| Boards.SolutionPeersDiffer | p-sudoku/solution.py:19-20 | a solution gives two different boxes of one unit different digits |
| Boards.KeepsSolutionsTrans | p-sudoku/solution.py:161-163 | rules that each keep every agreeing solution keep it when run one after another |
| Codec.Zip | p-sudoku/solution.py:57 | `dict(zip(boxes, ...))` has exactly the boxes as keys, and box `i` gets the value made from character `i` |
| Codec.GridValues | p-sudoku/solution.py:45-57 | a board exactly when the grid has 81 characters, where the source's `assert` fails otherwise; its keys are the 81 boxes and no box is empty; box `k` holds `'123456789'` for `'.'` and the character itself otherwise |
| Codec.GridValuesRoundTrip | p-sudoku/solution.py:56-57 | for an 81-character grid without `'.'`, reading the boxes back in `boxes` order gives the grid |
| Propagation.SolvedBoxes | p-sudoku/solution.py:121 | `solved_values` lists exactly the keys whose box holds one candidate |
| Propagation.ClearPeers | p-sudoku/solution.py:123-125 | after the inner loop, no peer of `box` holds its digit; only peers change; candidates only shrink; every removal is of a solved box's digit from one of its peers |
| Propagation.Eliminate | p-sudoku/solution.py:110-126 | with any peer table: the keys stay, candidates only shrink, every removed candidate is the digit of a box solved at entry that lists the box among its peers, and a box solved at entry that still holds its digit has that digit removed from every peer; the top-level copy (solution.py:43-59) has the same loop and table selection |
| Propagation.JustifiedKeepsSolutions | p-sudoku/solution.py:121-126 | when every listed peer shares a unit with its box, `eliminate` loses no solution that agrees with the board |
| Propagation.Holders | p-sudoku/solution.py:142 | `dplaces` is exactly the boxes of the unit that hold the digit |
| Propagation.OnlyChoiceKeeps | p-sudoku/solution.py:142-144 | fixing the only box of a unit that holds digit `d` to `d` keeps every solution that agrees with the board |
| Propagation.OnlyChoice | p-sudoku/solution.py:129-145 | the keys stay, candidates only shrink, no agreeing solution is lost, and every changed box now holds the single digit that no other box of one of its units holds; the top-level copy (solution.py:62-78) is the same loop |
| Propagation.FewerTotal | p-sudoku/solution.py:181 | the (candidate count, name) order relates any two different boxes |
| Propagation.FewerTransitive | p-sudoku/solution.py:181 | the (candidate count, name) order is transitive |
| Propagation.FewerIrreflexive | p-sudoku/solution.py:181 | no box comes before itself, so the minimum is unique |
| Propagation.Fewest | p-sudoku/solution.py:181 | the chosen box has more than one candidate and comes before every other such box in (candidate count, name) order |
| Twins.PairBoxes | p-sudoku/solution.py:94 | `two_digits_place` is exactly the boxes of the unit with two candidates, without repeats when the unit has none |
| Twins.RepeatedExtend | p-sudoku/solution.py:95-99 | a value repeats in the first `k + 1` positions exactly when it repeats in the first `k` or sits at position `k` and earlier |
| Twins.RepeatedIsTwins | p-sudoku/solution.py:94-99 | over a unit without repeated boxes, a value seen twice among its two-candidate boxes is exactly a naked pair |
| Twins.ScanUnit | p-sudoku/solution.py:93-99 | the loop over one unit appends `(unit, value)` exactly for the values that repeat among its two-candidate boxes, and keeps what was recorded before |
| Twins.FindTwins | p-sudoku/solution.py:91-99 | the recorded list holds exactly the (unit, value) pairs of a unit of the list whose value repeats among its two-candidate boxes |
| Twins.FoundIsPair | p-sudoku/solution.py:94-99 | every recorded value has two candidates |
| Twins.TwinsLocked | p-sudoku/solution.py:94-99 | a naked pair gives two boxes of the unit whose candidates lie within the pair's two digits |
| Twins.PruneKeeps | p-sudoku/solution.py:104-106 | removing the pair's digits from another box of the unit keeps every agreeing solution |
| Twins.PruneUnit | p-sudoku/solution.py:102-106 | boxes outside the unit, boxes with at most one candidate and boxes equal to the pair are unchanged; every other box of the unit loses exactly the pair's digits, all of their copies, and keeps the rest as often as it occurs; afterwards every box of the unit holds at most one candidate, the pair itself, or neither digit; no solution is lost when the pair is a naked pair |
| Twins.NakedTwins | p-sudoku/solution.py:77-107 | the keys stay, candidates only shrink, solved boxes are unchanged, each removed candidate is a digit of a pair recorded in a unit holding the box, every recorded pair's unit ends pruned of it, and no solution is lost when units have no repeated boxes |
| Twins.EliminateForTwins | solution.py:6-14 | boxes outside the unit and boxes with at most two candidates are unchanged; boxes of the unit with more than two lose exactly the pair's digits; no solution is lost when the pair is a naked pair |
| Twins.ScanAndPrune | solution.py:31-39 | for one unit: boxes outside it and boxes with at most two candidates are unchanged; a removed digit belongs to a pair found in the unit; every box with more than two candidates ends without the digits of every such pair; no solution is lost when the unit has no repeated boxes |
| Twins.TwinsPersist | solution.py:31-39 | a naked pair at entry is still one after pruning, because boxes with two candidates are never touched |
| Twins.NakedTwinsAsFound | solution.py:17-40 | the keys stay, candidates only shrink, boxes with at most two candidates are unchanged, a candidate leaves a box only when another box of a unit holding it ends with exactly two candidates, that digit among them, every unit holding a naked pair at entry ends with its other boxes of more than two candidates free of the pair's digits, and no solution is lost |
| Reduce.EmptyNoSolution | p-sudoku/solution.py:167-168 | a board with an empty box agrees with no solution, so returning `False` loses none |
| Reduce.PassRaisesCount | p-sudoku/solution.py:159-166 | a pass that empties no box does not lower the solved count, so a pass that is not the last raises it |
| Reduce.StalledIsSettled | p-sudoku/solution.py:159-166 | when a pass leaves the solved count where it was, no solved box shares its digit with a peer |
| Reduce.ReducePuzzle | p-sudoku/solution.py:148-169 | `None` (`False`) means, when the tables are sound, that no solution agrees with the input; otherwise a board of the same keys that narrows the input, has no empty box, is settled and keeps every agreeing solution; with `withTwins` false it is the top-level loop (solution.py:81-101), which runs without `naked_twins` |
| Backtracking.AssignRefines | p-sudoku/solution.py:184-185 | the branch copy with box `s` fixed to one of its candidates narrows both the board and the input |
| Backtracking.BranchesCover | p-sudoku/solution.py:183-186 | a solution agreeing with the board agrees with one of the branches |
| Backtracking.UnsolvedHasChoice | p-sudoku/solution.py:178-181 | a board that is not solved and has no empty box has a box to branch on |
| Backtracking.NoBranchNoSolution | p-sudoku/solution.py:183-188 | when every branch fails, no solution agrees with the input |
| Backtracking.Search | p-sudoku/solution.py:172-188 | a result has every box solved, narrows the input and is settled; `None` (`False` or the fall-through) means no solution agrees with the input when the tables are sound; with `withTwins` false it is the top-level `search` (solution.py:104-120) |
| Solver.UnitTables | p-sudoku/solution.py:14-24 | both unit lists consist of 9 distinct boxes of the grid per unit |
| Solver.PeersMatchUnits | p-sudoku/solution.py:18-20 | `peers` lists exactly the boxes that share a unit of `unitlist` |
| Solver.DiagPeersMatchUnits | p-sudoku/solution.py:24-26 | `diag_peers` lists exactly the boxes that share a unit of `diag_unitlist` |
| Solver.MatchedTables | p-sudoku/solution.py:12-26 | each unit list goes with the peer table built from it: the pairing `solve` needs |
| Solver.AsWrittenTablesSwapped | p-sudoku/solution.py:116-119 | the table `eliminate` picks without diagonals lists D4 as a peer of A1, though they share no row, column or square; the one it picks with diagonals misses E5, a diagonal peer of A1 |
| Solver.AsWrittenEmptiesBox | p-sudoku/solution.py:116-125 | with the table as written, `eliminate` on a puzzle with a 1 at A1 and at D4 and no diagonal rule leaves A1 or D4 empty |
| Solver.AsWrittenDiagonalSound | p-sudoku/solution.py:116-117 | with diagonals, the table as written (`peers`) still only removes sound candidates: it misses deductions but loses no solution |
| Solver.PuzzleDigitsOnly | p-sudoku/solution.py:56-57 | a puzzle of digits and `'.'` parses to a board of digits only |
| Solver.SettledIsSolution | p-sudoku/solution.py:178-179 | a solved board whose boxes hold digits and in which no box shares its digit with a peer is a solution for the matching unit list |
| Solver.GivensKept | p-sudoku/solution.py:175-188 | a box solved on the way to a fully solved board keeps its digit |
| Solver.SolveWith | p-sudoku/solution.py:191-202 | an error exactly when the grid is not 81 characters long; an answer is solved, settled and keeps every given, holds only digits for a grid of digits and `'.'`, and with matched tables it is then a solution; failure means no solution when the tables are sound |
| Solver.Solve | p-sudoku/solution.py:191-202 | `solve` with the tables matched to the flag: an error exactly when the grid is not 81 characters long; an answer is solved and keeps its givens, and for a grid of digits and `'.'` (`PuzzleChars`) it is a solution of the puzzle; `False` means the puzzle has no solution |
| Solver.SolveAsWritten | p-sudoku/solution.py:191-202 | `solve` with the tables as `eliminate` picks them: an error exactly when the grid is not 81 characters long; an answer is solved, keeps its givens and is settled under the table `eliminate` used; for a grid of digits and `'.'` it is a solution of plain Sudoku (rows, columns, squares) in either mode, so in diagonal mode it may break a diagonal; failure in diagonal mode still means there is no solution |
| Solver.TwoOnesAsWritten | p-sudoku/solution.py:116-119 | `solve` as written, without diagonals, answers no solution for the grid with a 1 at A1 and at D4 and nothing else given, although the two givens do not conflict |
| Solver.TwoOnesNeverSettled | p-sudoku/solution.py:116-125 | no board keeping the two givens of that grid is settled under `diag_peers`, since D4 is listed as a peer of A1 there |
| Solver.RepeatedGivenUnsolvable | p-sudoku/solution.py:56-57 | a puzzle giving the same digit twice in one unit has no solution |

## Findings

| source | as written | input that shows it | evidently intended | confidence | as-written member | corrected member |
|---|---|---|---|---|---|---|
| p-sudoku/solution.py:116-119 | `eliminate` uses `peers` when `diag` is true and `diag_peers` otherwise | 81 characters with `'1'` at A1 (index 0) and at D4 (index 30), `'.'` elsewhere, no diagonals: D4 counts as a peer of A1 through the diagonal, so A1 or D4 loses its only candidate and `solve` reports no solution, although the two givens do not conflict | `diag_peers` with diagonals, `peers` without | not executed | Solver.TwoOnesAsWritten | Solver.Solve |
| solution.py:49-52 | the same swapped selection in the top-level `eliminate` | the same: `diag_peers` relates boxes that share no unit of `unitlist`, such as A1 and D4 | `diag_peers` with diagonals, `peers` without | not executed | Solver.AsWrittenTablesSwapped | Solver.MatchedTables |

## Left out

- `display` (p-sudoku/solution.py:29-42) is console output.
- `assign_value` and the `assignments` history (p-sudoku/solution.py:3, 60-74; solution.py:3) are left out. The history only feeds the visualiser, and no solver function reads it.
- The `__main__` blocks and the `visualize_assignments` import with its exception handling (p-sudoku/solution.py:205-217; solution.py:134-146) are left out. They are I/O and calls into a library outside the repository.
- `solve` in the top-level solution.py (solution.py:123-132) is left out. Its body is `pass`.
- The `utils` module imported by solution.py is not part of this model. The tables of p-sudoku/solution.py stand in for it.
- Strings.Delete: `str.replace` is modelled only for the patterns the solver passes, a single digit or an empty string.
- Python's in-place update of the `values` dictionary is modelled by returning a new board. Aliasing between the caller's dictionary and the result is not modelled. Every caller only uses the result.
- `False` and `None` results are both `None` of `Option`. Merging them is harmless: `reduce_puzzle` never returns `None`, and `search` tests its result with `values is False` (p-sudoku/solution.py:176).
- Backtracking.Search: the contract does not say which answer is returned when several branches succeed. The body tries the candidates in string order and returns the first success, as the source does. The contract only says that an answer is a solved narrowing of the input.
- Reduce.ReducePuzzle: the contract does not say that `None` comes only after a box became empty. It says instead what `None` means for the puzzle's solutions.
- Reduce.ReducePuzzle: the result is not claimed to be a fixed point of a further pass. The loop stops when the solved count stalls, and a further pass may still narrow unsolved boxes.
- Solver.SolveAsWritten: without diagonals, failure is not claimed to mean "no solution". The table as written lets `eliminate` remove candidates no Sudoku rule removes (see "## Findings").
