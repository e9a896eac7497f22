# Sudoku solver — a verified Dafny model

This project models the core of a small Sudoku service: the `SudokuSolver`
class of `controllers/sudoku-solver.js` and the decisions taken by the
`/api/check` and `/api/solve` handlers of `routes/api.js`. A puzzle is a
string of 81 characters, read row by row, where '1' .. '9' are givens and
'.' marks an empty cell.

- `grid.dfy` (modules `Options`, `Grid`): the board, its rows, columns and
  3x3 boxes, and what a valid Sudoku is. These definitions are the
  reference that everything else is proved against.
- `sudoku_solver.dfy` (module `SudokuSolver`):
  - `validate`, as a pure function.
  - The three placement scans and `isValidPlacement`, as loops proved
    against predicates. Lemmas show each scan reads exactly the cells of one
    row, column or box.
  - `solvePuzzle`, as a recursive method that changes an `array<char>` in
    place. It is proved equal to the pure search `Search`. Lemmas prove the
    search sound, complete and idempotent.
  - `solve` and a corrected `solve` (see Findings).
- `api.dfy` (module `Api`): the two handlers, as functions from the
  (possibly missing) request fields to a response value.
- `fixtures.dfy` (module `Fixtures`): the boards of the two test files and
  what the model answers for them. It includes a proof that the expected
  solution is a valid Sudoku, so the search succeeds on the test puzzle.

Modelling choices:

- A request field or a puzzle argument is an `Option<string>`. `None` stands
  for `undefined`/`null`. A field counts as present when it is truthy in
  JavaScript, so present means `Some` and not `""`.
- `puzzleString[index] === value` is `Holds`. An index outside the string
  reads `undefined` in JavaScript, so `Holds` is false there.
- Placement values are characters. The source converts with
  `value.toString()`, and `Digit` models that conversion for the numbers
  1 .. 9.
- `Math.floor(x / 3)` is Dafny's `/`. Both floor when the divisor is
  positive, and the numbers are never negative here.
- The regular expressions are character predicates. `/^[1-9.]+$/` is the
  recursive matcher `MatchesPuzzlePattern`, and a lemma proves it equal to
  the quantified alphabet test.
- The `/api/check` handler builds its conflict list from the scan
  predicates (`RowAllows` and the others). The scan methods are proved to
  return exactly these predicates.

## Model

| member | source | states |
|---|---|---|
| Grid.Digit | controllers/sudoku-solver.js:93 | `num.toString()` of a candidate 1 .. 9 is the digit character whose value is `num` |
| Grid.IndexParts | controllers/sudoku-solver.js:85-88 | the flat index `r*9+c` of a cell in range lies in 0 .. 80, and row `floor(i/9)` and column `i%9` give back `r` and `c` |
| Grid.IndexOfCell | controllers/sudoku-solver.js:85-88 | every index 0 .. 80 is the flat index of its own row `floor(i/9)` and column `i%9` |
| Grid.EmptyCountZero | controllers/sudoku-solver.js:85-111 | a board has no '.' exactly when its count of empty cells is zero, the case where `solvePuzzle` returns true at once |
| Grid.EmptyCountFill | controllers/sudoku-solver.js:93 | writing a digit over a '.' lowers the count of empty cells by exactly one, so each recursive call has one fewer empty cell |
| SudokuSolver.MatchesPuzzlePatternIff | controllers/sudoku-solver.js:10-11 | `/^[1-9.]+$/` accepts a string exactly when it is non-empty and every character is a digit 1-9 or '.' |
| SudokuSolver.Validate | controllers/sudoku-solver.js:3-16 | the length error iff the puzzle is missing or its length is not 81, whatever its characters; for length 81 the character error iff some character is outside 1-9 and '.'; valid iff neither; no other outcome |
| SudokuSolver.CheckRowPlacement | controllers/sudoku-solver.js:18-30 | true iff none of the cells `(row-1)*9+k`, k in 0 .. 8, holds the value; the column argument plays no part |
| SudokuSolver.CheckColPlacement | controllers/sudoku-solver.js:32-44 | true iff none of the cells `k*9+(column-1)`, k in 0 .. 8, holds the value; the row argument plays no part |
| SudokuSolver.CheckRegionPlacement | controllers/sudoku-solver.js:46-65 | true iff none of the 9 cells whose row lies in `[3*floor((row-1)/3), +3)` and whose column lies in `[3*floor((column-1)/3), +3)` holds the value |
| SudokuSolver.IsValidPlacement | controllers/sudoku-solver.js:114-118 | true iff the row, column and region scans all pass; the scans cannot change the puzzle string |
| SudokuSolver.ScannedCellsInRange | controllers/sudoku-solver.js:18-65 | for a row and column in 1 .. 9, every index any of the three scans reads lies in 0 .. 80 |
| SudokuSolver.BlockBands | controllers/sudoku-solver.js:52-53 | two rows (or columns) 1 .. 9 share a region exactly when both lie in 1-3, in 4-6 or in 7-9, so 3 and 4, and 6 and 7, are in different regions |
| SudokuSolver.BlockSpan | controllers/sudoku-solver.js:52-57 | the lines a region scan visits for line `x` are exactly the 0-based lines in the same third as `x - 1` |
| SudokuSolver.RowAllowsIff | controllers/sudoku-solver.js:20-28 | at a board cell, the row scan passes iff no cell of the same row holds the value (both directions) |
| SudokuSolver.ColumnAllowsIff | controllers/sudoku-solver.js:34-42 | at a board cell, the column scan passes iff no cell of the same column holds the value (both directions) |
| SudokuSolver.RegionAllowsIff | controllers/sudoku-solver.js:48-63 | at a board cell, the region scan passes iff no cell of the same 3x3 box holds the value (both directions) |
| SudokuSolver.PlacementAllowedIff | controllers/sudoku-solver.js:114-118 | a placement is allowed iff no cell sharing a row, column or box with the target holds the value |
| SudokuSolver.PlacementKeepsConsistent | controllers/sudoku-solver.js:92-93 | writing an allowed digit into an empty cell of a board with no repeats leaves a board with no repeats |
| SudokuSolver.FirstEmpty | controllers/sudoku-solver.js:85-86 | the loop's first hit is the lowest index at or after the start holding '.', or 81 when every later cell is filled |
| SudokuSolver.Search | controllers/sudoku-solver.js:83-112 | a successful search returns a board that keeps every given, has a digit in every formerly empty cell, and has no '.' |
| SudokuSolver.TryFrom | controllers/sudoku-solver.js:91-106 | trying candidates `num` .. 9 at the first empty cell: any result keeps the givens and has no '.' |
| SudokuSolver.SolvePuzzle | controllers/sudoku-solver.js:83-112 | returns true iff the search succeeds; on success the array holds the search's board, on failure it is exactly as on entry (every tentative digit was reset to '.'); terminates with the number of empty cells as its measure |
| SudokuSolver.SolveOutcome | controllers/sudoku-solver.js:67-81 | false (`None`) without a search whenever validation fails; a returned string has length 81, no '.', and keeps the givens; for a valid puzzle without repeated givens, the result is a complete valid Sudoku, and `false` comes back iff no solution keeps the givens |
| SudokuSolver.Solve | controllers/sudoku-solver.js:67-81 | validation, then `split('')`, `solvePuzzle` on the array and `join('')`: the result is `SolveOutcome` of the input |
| SudokuSolver.SearchFull | controllers/sudoku-solver.js:108-111 | a board with no '.' is returned unchanged |
| SudokuSolver.SearchIdempotent | controllers/sudoku-solver.js:83-112 | searching a board the search has already filled returns that same board |
| SudokuSolver.SearchSound | controllers/sudoku-solver.js:91-98 | started on a board without repeats, a successful search returns a board without repeats |
| SudokuSolver.TryFromSound | controllers/sudoku-solver.js:91-106 | the candidate loop, started on a board without repeats, only returns boards without repeats |
| SudokuSolver.SolutionDigitAllowed | controllers/sudoku-solver.js:92 | the digit a solution puts in an empty cell always passes `isValidPlacement` on any board whose givens that solution keeps |
| SudokuSolver.SearchComplete | controllers/sudoku-solver.js:83-112 | if some complete valid Sudoku keeps the givens of the board, the search succeeds |
| SudokuSolver.TryFromComplete | controllers/sudoku-solver.js:91-106 | the candidate loop succeeds while the solution's digit for the cell has not yet been passed |
| SudokuSolver.SearchCorrect | controllers/sudoku-solver.js:76-80 | the search fails only when no solution keeps the givens; on a board without repeats, its result is a complete valid Sudoku that keeps them |
| SudokuSolver.SolveAcceptsRepeatedGivens | controllers/sudoku-solver.js:67-81 | a full board of 81 '1's passes validation, breaks every rule, and `solve` returns it unchanged as its solution |
| SudokuSolver.SolveChecked | controllers/sudoku-solver.js:67-81 | corrected `solve`: any string it returns is a complete valid Sudoku keeping the givens; for a valid puzzle it fails iff no such solution exists |
| Api.CoordinateCell | routes/api.js:36-40 | for a coordinate A1 .. I9, `row` and `column` lie in 1 .. 9 and `index` in 0 .. 80, and the solver's row and column of that index are the coordinate's again |
| Api.CoordinateInjective | routes/api.js:36-40 | two coordinates naming the same cell index are the same coordinate |
| Api.Conflicts | routes/api.js:51-63 | "row", "column" and "region" are in the list exactly when their scan fails; each is in it at most once, in that order, and nothing else is; the list is empty iff the placement is allowed |
| Api.Check | routes/api.js:11-69 | error precedence (missing field, then the forwarded validation error, then "Invalid coordinate", then "Invalid value"), each as an iff; a request is accepted iff it passes all four guards; a filled target cell is `valid: true`; at an empty cell the answer is `valid: true` iff no cell sharing a unit holds the value, otherwise the non-empty conflict list |
| Api.SolveRoute | routes/api.js:74-94 | "Required field missing" iff the puzzle is missing or empty; the length and character errors iff validation gives them, as iffs; a valid puzzle reaches `solve`: the answer is a `Solution` iff `solve` returns a string, that string is the solution, and otherwise "Puzzle cannot be solved"; a solution is a full board of digits keeping the givens; for a valid puzzle without repeats it is a valid Sudoku, and "Puzzle cannot be solved" comes back iff none exists |
| Fixtures.ValidPuzzleWellFormed | tests/1_unit-tests.js:7-15 | the test puzzle has 81 characters, each a digit or '.' |
| Fixtures.ValidationFixtures | tests/1_unit-tests.js:12-29 | the test puzzle validates; the one with an 'X' gives the character error; the one of 79 characters gives the length error |
| Fixtures.RowPlacementFixtures | tests/1_unit-tests.js:31-39 | row 1 of the test puzzle allows 3 and rejects 1 |
| Fixtures.ColumnPlacementFixtures | tests/1_unit-tests.js:41-49 | column 2 of the test puzzle allows 3 and rejects 6 |
| Fixtures.RegionPlacementFixtures | tests/1_unit-tests.js:51-59 | the region of (1, 2) allows 3 and rejects 1 |
| Fixtures.PlacementFixtures | tests/1_unit-tests.js:31-59 | the six placement facts of the unit tests together |
| Fixtures.CheckAcceptsFixture | tests/2_functional-tests.js:76-90 | `/api/check` of A2 = 3 is `valid: true` |
| Fixtures.ConflictsA2One | tests/2_functional-tests.js:92-109 | at A2 a 1 conflicts with the row and the region, not the column |
| Fixtures.ConflictsA2Two | tests/2_functional-tests.js:111-128 | at A2 a 2 conflicts with the row, the column and the region |
| Fixtures.ConflictsB1One | tests/2_functional-tests.js:130-149 | at B1 a 1 conflicts with the row, the column and the region |
| Fixtures.CheckSingleRowConflictFixture | tests/2_functional-tests.js:92-109 | `/api/check` of A2 = 1 answers `valid: false` with conflicts `["row", "region"]` |
| Fixtures.CheckMultipleConflictsFixture | tests/2_functional-tests.js:111-128 | `/api/check` of A2 = 2 answers `valid: false` with all three conflicts |
| Fixtures.CheckAllConflictsFixture | tests/2_functional-tests.js:130-149 | `/api/check` of B1 = 1 answers `valid: false` with `["row", "column", "region"]` |
| Fixtures.CheckGuardFixtures | tests/2_functional-tests.js:151-230 | the missing-field, character, length, coordinate (Z1) and value (0) requests each stop at their own guard with the tested message |
| Fixtures.SolveRouteFixtures | tests/2_functional-tests.js:25-61 | `/api/solve` with no puzzle, with an 'X', and with 79 characters answers with the tested errors |
| Fixtures.DuplicatePuzzleFailsChecked | tests/1_unit-tests.js:67-71 | the unsolvable test puzzle is well-formed but repeats a 1 in row A, and the corrected `solve` fails on it |
| Fixtures.SolveRouteAcceptsAllOnes | routes/api.js:88-91 | `/api/solve` on the all-ones board answers with that board as the solution, though it is not a valid Sudoku |
| Fixtures.SolvedRowsFlatten | tests/1_unit-tests.js:8 | the expected solution, written row by row, is the 81-character string of the tests |
| Fixtures.SolvedPuzzleConsistent | tests/1_unit-tests.js:8 | no row, column or box of the expected solution repeats a digit |
| Fixtures.SolvedPuzzleDigits | tests/1_unit-tests.js:8 | every cell of the expected solution is a digit |
| Fixtures.SolvedPuzzleKeepsGivens | tests/1_unit-tests.js:7-8 | the expected solution keeps every given of the test puzzle |
| Fixtures.SolvedPuzzleSolvesValidPuzzle | tests/1_unit-tests.js:73-76 | the expected solution is a complete valid Sudoku that keeps the givens of the test puzzle |
| Fixtures.ValidPuzzleSolves | tests/1_unit-tests.js:61-65 | `solve` succeeds on the test puzzle; `/api/solve` answers with that string, which has 81 characters, is a complete valid Sudoku and keeps the givens |

## Left out

- The HTTP layer is not modelled: route registration, `req.body` destructuring, `res.json` serialisation, the `server` module and the chai test runner.
- Request fields can only be strings or missing. JavaScript truthiness and `.length` of other JSON values (numbers, arrays, objects) are not modelled.
- String length counts Dafny characters. JavaScript counts UTF-16 code units, and the two differ only outside the Basic Multilingual Plane.
- The JavaScript regular-expression engine is not modelled. The three patterns are character predicates.
- `board.join('')` before each candidate and `value.toString()` are not modelled as conversions. The scans read the current board's contents directly (`board[..]`), and values are characters from the start.
- The shared `solver` instance of `routes/api.js` is not modelled, because it holds no state.
- `parseInt(coordinate[1])` is modelled only for the single digits 1-9 that the coordinate guard lets through.
- Api.Check: the conflict list is built from the scan predicates, not by calling the three scan methods. The methods are proved to return exactly those predicates.
- SolvePuzzle: termination is shown by the `decreases` measure, the number of empty cells. The recursion depth is not tracked as a separate counter.
- Fixtures.ValidPuzzleSolves: it proves that `solve` returns some complete valid Sudoku keeping the test puzzle's givens. It does not prove that this is the string of the unit test at tests/1_unit-tests.js:73-76, because that would need uniqueness of the solution or running the search in the verifier.
- Fixtures.DuplicatePuzzleFailsChecked: it covers the corrected `solve` only. Whether the code as written returns false on that puzzle (tests/1_unit-tests.js:67-71, tests/2_functional-tests.js:63-74) depends on the whole backtracking run, and the model does not evaluate that run.
- Api.SolveRoute: it models the route as written, on top of `solve` as written (`SolveOutcome`), not on `SolveChecked`.

## Findings

| source | as written | input that shows it | evidently intended | confidence | as-written member | corrected member |
|---|---|---|---|---|---|---|
| controllers/sudoku-solver.js:67-81 | `solve` validates only length and alphabet, then searches. Givens that already repeat a digit in a row, column or box are never checked, and a full board has no empty cell, so `solvePuzzle` returns true at once | 81 '1's: well-formed, full, a repeated digit in every unit; `solve` returns it as the solution and `/api/solve` sends it back | an input whose givens break the rules is reported unsolvable, as the unsolvable-puzzle tests expect | high; not executed | SudokuSolver.SolveAcceptsRepeatedGivens | SudokuSolver.SolveChecked |
