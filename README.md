# Sudoku engine of warp-sudoku-solver, modelled in Dafny

The engine (`src/sudoku.rs`) is Peter Norvig's constraint-propagation
solver. A puzzle string is read into 81 cells. A candidate map starts with
every digit possible in every square, and each given digit is assigned into
it. `assign` and `eliminate` call each other and work in place on the map:

- Rule 1: a square left with one digit removes that digit from its peers.
- Rule 2: a digit left with one place in a unit is assigned there.

`search` then branches, depth first, on the undecided square with the
fewest candidates. It tries each candidate on a copy of the map. `solve`
checks the result unit by unit and returns the 81 digits. `display` lays a
puzzle out as eleven lines of text.

The model keeps this structure:

- `Topology` holds the board. There are 81 squares, numbered 0..80 in
  row-major order, so A1 is 0 and I9 is 80. Topology also holds `cross`,
  the 27 units and the peers.
- `Candidates` holds candidate maps (`seq<set<Digit>>`, indexed by square)
  and `Propagated`. That predicate describes what a successful propagation
  guarantees between the map before and after.
- `Solutions` holds completed grids and when a grid still *fits* a map.
- `Verdict` holds the unit check of `solved`.
- `Grid` holds the error kinds, reading a puzzle string, and the text
  layout of `display`.
- `Solver` holds the class `Sudoku`. Its constant tables are built by the
  constructor's loops. `Assign` and `Eliminate` work in place on an
  `array<set<Digit>>`. `Search` takes the map by value and clones it into a
  fresh array per branch. `ParseGrid`, `Solve` and `Display` are also here.
- `Scenarios` states the cases that the web service's tests in
  `src/main.rs` exercise, as facts about the model.

The main results:

- Propagation only removes candidates.
- Every success is a `Propagated` step.
- Every failure empties a square that had candidates, or leaves a digit
  without any place in a unit where it had one.
- No solution of the puzzle is ever lost: a solution that fits the map
  before still fits after, and propagation cannot fail while one fits.
- `Search` fails only when no solution fits its input.
- `Solve` returns a grid that solves the puzzle and keeps its clues. It
  reports a contradiction only when no such grid exists.
- `Solve` never returns `Unsolved`. Propagation from the full map keeps
  rule 1 at every square, and a fully decided map with rule 1 everywhere
  passes the unit check (`Verdict.Rule1Solved`).
- The solve test's puzzle has exactly one solution, its expected answer.
  So solving it returns exactly the text the test compares against. The display test's puzzle is laid out as
  the eleven expected lines.

## Model

| member | source | states |
|---|---|---|
| Topology.Cross | src/sudoku.rs:5-13 | `cross(rows, cols)` has one square for every pair of a row label and a column label: \|rows\|·\|cols\| squares |
| Topology.CrossAt | src/sudoku.rs:5-13 | entry i·\|cols\|+j of `cross(rows, cols)` is the square at row rows[i], column cols[j]: rows vary slowest |
| Topology.SquaresCross | src/sudoku.rs:49-51 | `cross("ABCDEFGHI", "123456789")` is the 81 squares in row-major order |
| Topology.ColumnCross | src/sudoku.rs:55-57 | the unit pushed for column c is unit c, column c from top to bottom |
| Topology.RowCross | src/sudoku.rs:59-61 | the unit pushed for row r is unit 9 + r, row r from left to right |
| Topology.BoxCross | src/sudoku.rs:63-67 | the unit pushed for box (br, bc) is unit 18 + 3·br + bc, the box read row by row |
| Topology.UnitShape | src/sudoku.rs:53-67 | each of the 27 units has 9 distinct squares in ascending order; it holds exactly the squares of its column, row or box |
| Topology.MemberOfUnit | src/sudoku.rs:69-73 | a square lies in exactly three units: its column, its row and its box |
| Topology.Containing | src/sudoku.rs:71 | the filter over the unit list keeps only units that contain s, taken from the list, and no more units than it scanned |
| Topology.UnitsContaining | src/sudoku.rs:70-72 | filtering the unit list for the units that contain s gives those three units, in unit-list order |
| Topology.SortedWithoutFacts | src/sudoku.rs:77-79 | filtering out s, sorting and de-duplicating gives exactly the pool's members other than s, strictly ascending |
| Topology.PeersShape | src/sudoku.rs:76-80 | the peers of s number 20 and are strictly ascending, so sorted and without duplicates; they exclude s and are exactly the squares that share a unit with s |
| Topology.SameUnitPeers | src/sudoku.rs:74-80 | two different squares of one unit are peers |
| Topology.PeerUnit | src/sudoku.rs:74-80 | a peer of s shares one of the three units of s |
| Topology.SquareNameOrder | src/sudoku.rs:166 | comparing square names ("A1" < "A2" < … < "I9") is comparing square numbers |
| Solver.Sudoku.constructor | src/sudoku.rs:48-91 | the tables `cols`, `rows`, `squares`, `unitlist`, `units` and `peers` hold the topology above |
| Solver.Sudoku.Positions | src/sudoku.rs:49-50 | the nine labels of a row or a column, by position |
| Solver.Sudoku.UnitList | src/sudoku.rs:53-67 | the loops push the nine columns, then the nine rows, then the nine boxes |
| Solver.Sudoku.UnitsTable | src/sudoku.rs:69-73 | units[s] is the list of units that contain s |
| Solver.Sudoku.PeersTable | src/sudoku.rs:75-81 | peers[s] is the concatenation of units[s], without s, sorted and de-duplicated |
| Grid.Recognized | src/sudoku.rs:95-98 | keeps only the characters 1-9, 0 and `.`, in order |
| Grid.RecognizedIgnores | src/sudoku.rs:95-98 | inserting any other character anywhere changes nothing |
| Grid.RecognizedAll | src/sudoku.rs:95-98 | a text of grid characters only is kept unchanged |
| Grid.RecognizedTwice | src/sudoku.rs:95-98 | filtering twice is filtering once |
| Grid.GridValues | src/sudoku.rs:93-107 | gives 81 grid characters, or the error InvalidGrid and no other error |
| Grid.GridValuesExact | src/sudoku.rs:99-106 | succeeds exactly when 81 grid characters survive; the cells are those characters |
| Grid.GridValuesIgnores | src/sudoku.rs:95-106 | inserting a non-grid character does not change the outcome, error or cells |
| Grid.ClueDigit | src/sudoku.rs:118 | a clue character '1'..'9' stands for the digit 1..9 |
| Grid.DigitChar | src/sudoku.rs:181 | a digit is written as its character; reading it back gives the digit |
| Grid.Digits | src/sudoku.rs:181 | the digits of an answer string; writing them gives the string back |
| Grid.SpelledDigits | src/sudoku.rs:181 | writing back the digits of a digit string, one character per digit as the answer is collected, gives the string |
| Grid.SpelledAppend | src/sudoku.rs:181 | the written text of two pieces is the text of the first followed by that of the second |
| Candidates.Full | src/sudoku.rs:111-113 | the starting map: all nine digits in every square |
| Candidates.Remove | src/sudoku.rs:136-137 | removing d from s changes square s only, and removes exactly d |
| Candidates.RemoveKeeps | src/sudoku.rs:136-137 | removing d from s shrinks the map; it disturbs neither rule 1 at other squares nor the places and rule 2 of (unit, digit) pairs that do not involve both s and d |
| Candidates.CountShrinks | src/sudoku.rs:137 | the number of candidates never rises, and falls when a square loses one; this is the termination measure of eliminate, assign and search |
| Candidates.Places | src/sudoku.rs:148 | `dplaces` never has more entries than the unit has squares |
| Candidates.PlacesMembers | src/sudoku.rs:148 | `dplaces` holds exactly the squares of the unit that still allow d |
| Candidates.PlacesShrink | src/sudoku.rs:153 | a single place stays the same place while the map shrinks |
| Candidates.PropagatedTrans | src/sudoku.rs:143-156 | two successful propagations in a row are one |
| Candidates.BrokenTrans | src/sudoku.rs:141-154 | a failure after a shrink is a failure of the whole |
| Candidates.RemovePropagated | src/sudoku.rs:132-158 | removal, then rule 1 at s, then rule 2 for d in each unit of s, add up to a propagation |
| Candidates.Rule1Closed | src/sudoku.rs:143 | once s holds x alone and x is gone from every peer, rule 1 holds at s |
| Candidates.Rule2Settled | src/sudoku.rs:153 | after the only place of d in a unit was given d, rule 2 holds for d there |
| Candidates.NoPlaceBroken | src/sudoku.rs:147-151 | a unit of s left without a place for d counts as a failure |
| Candidates.Least | src/sudoku.rs:143 | the least candidate: the first entry `d2[0]` of an ascending candidate list |
| Candidates.PropagatedFromFull | src/sudoku.rs:111-123 | a map propagated from the full map has no empty square and keeps rule 1 everywhere |
| Candidates.PropagatedNoEmpty | src/sudoku.rs:169-170 | propagating a map without empty squares leaves none |
| Solutions.FitsFull | src/sudoku.rs:111-113 | every solution fits the starting map |
| Solutions.RemoveFits | src/sudoku.rs:136-137 | removing a digit a solution does not hold there keeps it fitting |
| Solutions.SolutionApart | src/sudoku.rs:143 | two different squares in one row, column or box hold different digits in a solution |
| Solutions.RowHas | src/sudoku.rs:147-156 | every digit sits on one of the nine squares of each row of a solution |
| Solutions.ColumnHas | src/sudoku.rs:147-156 | every digit sits on one of the nine squares of each column of a solution |
| Solutions.BoxHas | src/sudoku.rs:147-156 | every digit sits on one of the nine squares of each box of a solution |
| Solutions.SolutionPeers | src/sudoku.rs:143 | peers hold different digits in a solution, so rule 1 loses no solution |
| Solutions.SolutionPlaces | src/sudoku.rs:147-155 | a fitting solution gives d a place in every unit and fills a single place with d, so rule 2 loses no solution |
| Solutions.DistinctPermutation | src/sudoku.rs:188 | nine different digits from 1..9 are a permutation of 1..9 |
| Solutions.CoverPermutation | src/sudoku.rs:188 | nine values among which every digit 1..9 occurs are a permutation of 1..9 |
| Solver.Sudoku.Eliminate | src/sudoku.rs:132-158 | an absent digit is a no-op returning true. Otherwise: only removals; d leaves s; success is a propagation; failure empties a square that had candidates, or leaves a digit without a place it had; no fitting solution without d at s makes it fail or stop fitting |
| Solver.Sudoku.EliminateFromPeers | src/sudoku.rs:143-145 | rule 1: x is removed from every peer, after which rule 1 holds at s; failure is a contradiction, and no solution is lost |
| Solver.Sudoku.PlaceInUnits | src/sudoku.rs:146-156 | rule 2: in each unit of s, d keeps a place and a single place holds d alone; failure is a contradiction or a unit without a place; no solution is lost |
| Solver.Sudoku.Assign | src/sudoku.rs:126-130 | success leaves values[s] = old values[s] ∩ {d}, which is {d} while d is a candidate, and is a propagation; failure is a contradiction; a fitting solution with d at s makes it succeed and still fits |
| Solver.Fewest | src/sudoku.rs:166 | the branching square has more than one candidate and is least by (number of candidates, name) among all such squares; there is none exactly when every square has at most one |
| Solver.Sudoku.Search | src/sudoku.rs:160-176 | Ok only with every square decided, as a propagation of the input; Err is always Contradiction, and only when no solution fits the input |
| Solver.Sudoku.Solved | src/sudoku.rs:187-195 | true exactly when every unit's candidate lists are "1".."9" in some order; then every square is decided and the grid is a solution; a decided map whose grid is a solution passes |
| Verdict.UnitSolved | src/sudoku.rs:189-193 | a unit passes when its candidate lists are "1".."9" in some order; a passing unit has nine squares, each holding exactly one candidate |
| Verdict.SolvedDecided | src/sudoku.rs:187-195 | a map whose units all pass has one candidate in every square |
| Verdict.UnitSolvedIff | src/sudoku.rs:189-193 | for a decided map, a unit passes exactly when its digits are a permutation of 1..9 |
| Verdict.SolvedIff | src/sudoku.rs:187-195 | for a decided map, the unit check passes exactly when the grid is a solution |
| Verdict.Rule1Solved | src/sudoku.rs:143-145 | a decided map with rule 1 at every square passes the unit check |
| Verdict.Decided | src/sudoku.rs:181 | the grid of a map: one candidate per square, the only one when the map is decided |
| Solver.Render | src/sudoku.rs:181 | the answer: 81 digit characters, in square order, that read back as the decided grid |
| Solver.Sudoku.ParseGrid | src/sudoku.rs:109-124 | InvalidGrid exactly when the text does not hold 81 grid characters. On success: a propagation of the full map, every clue square holding its digit alone, and every solution that keeps the clues still fits. Contradiction only when no solution keeps the clues |
| Solver.Sudoku.Solve | src/sudoku.rs:178-185 | InvalidGrid exactly for a bad grid. Ok gives 81 digits that solve the puzzle and keep every clue. Contradiction only when no solution keeps the clues. Never Unsolved |
| Solver.Sudoku.SolvedAnswer | src/sudoku.rs:181 | the answer keeps every clue that parsing placed |
| Solver.Sudoku.Display | src/sudoku.rs:197-219 | Ok with the eleven-line layout of the 81 grid characters, or InvalidGrid when the text does not hold exactly 81 |
| Solver.Sudoku.PushBand | src/sudoku.rs:204-211 | each chunk of nine cells of a band pushes its row line |
| Grid.PushedLayout | src/sudoku.rs:212-214 | popping the separator pushed after the last band leaves the layout |
| Grid.Layout | src/sudoku.rs:203-214 | 11 lines; lines 3 and 7 are separators, and the last line is not one |
| Grid.LayoutRows | src/sudoku.rs:205-211 | every line other than the two separators shows one row, in row order |
| Grid.Sep | src/sudoku.rs:201 | the separator is `------+------+------` |
| Grid.Centered | src/sudoku.rs:207 | a cell in a field of width 2 is its character followed by one space |
| Grid.RowLine | src/sudoku.rs:205-209 | a row line has 20 characters, with '\|' at columns 6 and 13 |
| Grid.RowLineCells | src/sudoku.rs:205-209 | cell j of the row is shown at column 2j + j/3 |
| Grid.RowLineRecognized | src/sudoku.rs:204-209 | reading a row line back gives the nine cells of that row |
| Grid.LayoutRecognized | src/sudoku.rs:197-217 | reading the whole display back gives the 81 cells |
| Scenarios.AnswerSolves | src/main.rs:120-122 | the answer the solve test expects is a solution: every unit holds each digit once |
| Scenarios.AnswerKeepsClues | src/main.rs:115-122 | the expected answer keeps every clue of the solve test's puzzle |
| Scenarios.SolveUnique | src/main.rs:115-122 | every solution that keeps the clues of the solve test's puzzle is the expected answer: the puzzle has exactly one solution |
| Scenarios.AnswerText | src/main.rs:121-122 | the expected answer, written back as text, is the string the test compares against |
| Scenarios.SolveExample | src/main.rs:109-124 | solving the solve test's puzzle returns Ok with exactly the expected answer string, 81 digits that solve the puzzle and keep its clues |
| Scenarios.InvalidExample | src/main.rs:148-163 | the solve test's puzzle with an 'X' in place of its first clue is an invalid grid |
| Scenarios.DisplayLayout | src/main.rs:127-145 | the display test's puzzle is laid out as the eleven lines the test expects |
| Scenarios.DisplayExample | src/main.rs:127-145 | displaying the display test's puzzle returns Ok with those eleven lines |

## Left out

- The web service in `src/main.rs` is not part of this model: routing, JSON, the body-size limit, the runtime and HTTP status mapping. Only what its tests expect of the engine is stated, in `Scenarios`. The test with a malformed JSON request (src/main.rs:166-176) concerns the service alone. Neither are the Python clients `src/apiwebsudoku.py` and `src/intense.py`.
- The text of the `PuzzleError` messages (src/sudoku.rs:22-32) is left out; only the three variants are kept.
- Squares are numbers 0..80 rather than names such as "A1". Labels are positions 0..8. Name order equals number order (`Topology.SquareNameOrder`), so ordering by name is ordering by number.
- The hash maps keyed by square name are sequences indexed by square, and candidate lists are sets of digits. A candidate list starts as "123456789" and only loses entries, so it is always ascending. Iterating it is therefore iterating the set in ascending order, and its first entry is `Least`.
- Solver.Sudoku.ParseGrid: assigns the clues in row-major square order, whereas the source visits them in the iteration order of a randomly seeded hash map (src/sudoku.rs:116). The loop invariant does not depend on which clue is assigned next, so the same argument covers the hash order. Only row-major order is verified. The exact intermediate map is not modelled.
- Solver.Sudoku.Search: requires a map with no empty square. The source would panic in `min().unwrap()` (src/sudoku.rs:166) on a map whose squares are all decided or empty. Both callers pass maps with no empty square. `Solve` passes the propagated map from `ParseGrid` (src/sudoku.rs:179). The recursive call (src/sudoku.rs:170) passes the clone after a successful `assign`, and a successful propagation leaves no empty square (`Candidates.PropagatedNoEmpty`).
- Solver.Sudoku.Search: does not state which solution is returned when several fit. Ascending digit order and the copy per branch appear in its loop, not in its contract. For an arbitrary input, it does not promise that the returned map's grid is a solution, only that every square is decided. `Solve` derives that it is a solution through `Verdict.Rule1Solved`.
- The `solved` unit check sorts the candidate strings of a unit and compares them with "1".."9". This is modelled as equality of multisets of candidate sets, which is what sorting and comparing decide.
- `eliminate` and `assign` are split into `Eliminate`, `EliminateFromPeers` (the `all` over peers at line 143) and `PlaceInUnits` (the loop at lines 147-156). The `all` over other digits in `assign` is a loop in `Assign`. Each loop stops at the first failure, as `all` and the early returns do.
- Integer widths play no part: all counts stay below 100.
