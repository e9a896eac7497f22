/**
 * The SudokuSolver class of controllers/sudoku-solver.js: validation of a
 * puzzle string, the row / column / region placement scans, and the
 * backtracking search. The class holds no state, so its members are module
 * level here. Each scan is a loop proved against a predicate; the search is a
 * recursive method over an array proved against the pure function `Search`,
 * and the properties of the search are lemmas about `Search`.
 */
module SudokuSolver {
  import opened Options
  import opened Grid

  // ---------------------------------------------------------------------------
  // validate
  // ---------------------------------------------------------------------------

  const LengthError := "Expected puzzle to be 81 characters long"
  const CharacterError := "Invalid characters in puzzle"

  datatype Validation = Valid | Invalid(error: string)

  /** The test of the pattern /^[1-9.]+$/: one or more characters of the class, and nothing else. */
  predicate MatchesPuzzlePattern(s: string)
    decreases |s|
  {
    |s| > 0 && IsPuzzleChar(s[0]) && (|s| == 1 || MatchesPuzzlePattern(s[1..]))
  }

  /** The pattern accepts exactly the non-empty strings over the puzzle alphabet. */
  lemma {:induction false} MatchesPuzzlePatternIff(s: string)
    ensures MatchesPuzzlePattern(s) <==> |s| > 0 && forall i :: 0 <= i < |s| ==> IsPuzzleChar(s[i])
    decreases |s|
  {
    if |s| > 1 {
      MatchesPuzzlePatternIff(s[1..]);
      assert forall i :: 1 <= i < |s| ==> s[i] == s[1..][i - 1];
    }
  }

  /** A puzzle string that passes validation: 81 characters, each a digit or '.'. */
  predicate WellFormed(s: string) {
    |s| == Cells && forall i :: 0 <= i < |s| ==> IsPuzzleChar(s[i])
  }

  /** `None` models a missing (undefined or null) puzzle. */
  function Validate(puzzle: Option<string>): (r: Validation)
    ensures r == Invalid(LengthError) <==> puzzle.None? || |puzzle.value| != Cells
    ensures r == Invalid(CharacterError) <==>
      puzzle.Some? && |puzzle.value| == Cells && exists i :: 0 <= i < Cells && !IsPuzzleChar(puzzle.value[i])
    ensures r == Valid <==> puzzle.Some? && WellFormed(puzzle.value)
    ensures r == Valid || r == Invalid(LengthError) || r == Invalid(CharacterError)
  {
    if puzzle.None? || puzzle.value == "" || |puzzle.value| != Cells then
      Invalid(LengthError)
    else
      MatchesPuzzlePatternIff(puzzle.value);
      if !MatchesPuzzlePattern(puzzle.value) then Invalid(CharacterError) else Valid
  }

  // ---------------------------------------------------------------------------
  // checkRowPlacement, checkColPlacement, checkRegionPlacement, isValidPlacement
  // ---------------------------------------------------------------------------

  /**
   * `puzzle[index] === value`: an index outside the string reads `undefined`,
   * which equals no character.
   */
  predicate Holds(puzzle: string, index: int, value: char) {
    0 <= index < |puzzle| && puzzle[index] == value
  }

  /** The `k`-th cell scanned for 1-based `row`. */
  function RowCell(row: int, k: int): int { Index(row - 1, k) }

  /** The `k`-th cell scanned for 1-based `column`. */
  function ColumnCell(column: int, k: int): int { Index(k, column - 1) }

  /** `Math.floor((x - 1) / 3) * 3`: Dafny's `/` floors for a positive divisor. */
  function BlockStart(x: int): int { (x - 1) / 3 * 3 }

  /** No cell of the row holds `value`. */
  predicate RowAllows(puzzle: string, row: int, value: char) {
    forall k :: 0 <= k < 9 ==> !Holds(puzzle, RowCell(row, k), value)
  }

  /** No cell of the column holds `value`. */
  predicate ColumnAllows(puzzle: string, column: int, value: char) {
    forall k :: 0 <= k < 9 ==> !Holds(puzzle, ColumnCell(column, k), value)
  }

  /** No cell of the 3x3 block containing (row, column) holds `value`. */
  predicate RegionAllows(puzzle: string, row: int, column: int, value: char) {
    forall r, c ::
      BlockStart(row) <= r < BlockStart(row) + 3 && BlockStart(column) <= c < BlockStart(column) + 3 ==>
      !Holds(puzzle, Index(r, c), value)
  }

  predicate PlacementAllowed(puzzle: string, row: int, column: int, value: char) {
    RowAllows(puzzle, row, value) && ColumnAllows(puzzle, column, value) &&
    RegionAllows(puzzle, row, column, value)
  }

  /** The result does not depend on `column`. */
  method CheckRowPlacement(puzzle: string, row: int, column: int, value: char) returns (ok: bool)
    ensures ok <==> RowAllows(puzzle, row, value)
  {
    var rowIndex := row - 1;
    for col := 0 to 9
      invariant forall k :: 0 <= k < col ==> !Holds(puzzle, RowCell(row, k), value)
    {
      var index := rowIndex * 9 + col;
      if Holds(puzzle, index, value) {
        assert index == RowCell(row, col);
        return false;
      }
    }
    return true;
  }

  /** The result does not depend on `row`. */
  method CheckColPlacement(puzzle: string, row: int, column: int, value: char) returns (ok: bool)
    ensures ok <==> ColumnAllows(puzzle, column, value)
  {
    var colIndex := column - 1;
    for r := 0 to 9
      invariant forall k :: 0 <= k < r ==> !Holds(puzzle, ColumnCell(column, k), value)
    {
      var index := r * 9 + colIndex;
      if Holds(puzzle, index, value) {
        assert index == ColumnCell(column, r);
        return false;
      }
    }
    return true;
  }

  method CheckRegionPlacement(puzzle: string, row: int, column: int, value: char) returns (ok: bool)
    ensures ok <==> RegionAllows(puzzle, row, column, value)
  {
    var rowIndex := row - 1;
    var colIndex := column - 1;
    var regionRowStart := rowIndex / 3 * 3;
    var regionColStart := colIndex / 3 * 3;
    assert regionRowStart == BlockStart(row) && regionColStart == BlockStart(column);
    for r := regionRowStart to regionRowStart + 3
      invariant forall r', c ::
        regionRowStart <= r' < r && regionColStart <= c < regionColStart + 3 ==> !Holds(puzzle, Index(r', c), value)
    {
      for c := regionColStart to regionColStart + 3
        invariant forall r', c' ::
          regionRowStart <= r' < r && regionColStart <= c' < regionColStart + 3 ==> !Holds(puzzle, Index(r', c'), value)
        invariant forall c' :: regionColStart <= c' < c ==> !Holds(puzzle, Index(r, c'), value)
      {
        var index := r * 9 + c;
        if Holds(puzzle, index, value) {
          assert index == Index(r, c);
          return false;
        }
      }
    }
    return true;
  }

  /** The three scans, in order, with the short-circuit of `&&`. */
  method IsValidPlacement(puzzle: string, row: int, column: int, value: char) returns (ok: bool)
    ensures ok <==> PlacementAllowed(puzzle, row, column, value)
  {
    ok := CheckRowPlacement(puzzle, row, column, value);
    if !ok {
      return;
    }
    ok := CheckColPlacement(puzzle, row, column, value);
    if !ok {
      return;
    }
    ok := CheckRegionPlacement(puzzle, row, column, value);
  }

  // ---------------------------------------------------------------------------
  // What the scans cover
  // ---------------------------------------------------------------------------

  /** For a row and column in 1 .. 9, every cell any scan reads lies in 0 .. 80. */
  lemma ScannedCellsInRange(row: int, column: int)
    requires 1 <= row <= 9 && 1 <= column <= 9
    ensures forall k :: 0 <= k < 9 ==> 0 <= RowCell(row, k) < Cells && 0 <= ColumnCell(column, k) < Cells
    ensures forall r, c ::
      BlockStart(row) <= r < BlockStart(row) + 3 && BlockStart(column) <= c < BlockStart(column) + 3 ==>
      0 <= Index(r, c) < Cells
  {
  }

  /** Two 1-based rows (or columns) share a block exactly when both lie in 1-3, in 4-6 or in 7-9. */
  lemma BlockBands(x: int, y: int)
    requires 1 <= x <= 9 && 1 <= y <= 9
    ensures BlockStart(x) == BlockStart(y) <==> (x <= 3 && y <= 3) || (4 <= x <= 6 && 4 <= y <= 6) || (7 <= x && 7 <= y)
  {
  }

  /** The row scan for cell `i` reads exactly the cells that share its row. */
  lemma RowAllowsIff(puzzle: string, i: int, value: char)
    requires |puzzle| == Cells && 0 <= i < Cells
    ensures RowAllows(puzzle, RowOf(i) + 1, value) <==>
      forall j :: 0 <= j < Cells && SameRow(i, j) ==> puzzle[j] != value
  {
    var row := RowOf(i) + 1;
    if RowAllows(puzzle, row, value) {
      forall j | 0 <= j < Cells && SameRow(i, j) ensures puzzle[j] != value {
        IndexOfCell(j);
        assert RowCell(row, ColumnOf(j)) == j;
      }
    }
    if forall j :: 0 <= j < Cells && SameRow(i, j) ==> puzzle[j] != value {
      forall k | 0 <= k < 9 ensures !Holds(puzzle, RowCell(row, k), value) {
        IndexParts(row - 1, k);
      }
    }
  }

  /** The column scan for cell `i` reads exactly the cells that share its column. */
  lemma ColumnAllowsIff(puzzle: string, i: int, value: char)
    requires |puzzle| == Cells && 0 <= i < Cells
    ensures ColumnAllows(puzzle, ColumnOf(i) + 1, value) <==>
      forall j :: 0 <= j < Cells && SameColumn(i, j) ==> puzzle[j] != value
  {
    var column := ColumnOf(i) + 1;
    if ColumnAllows(puzzle, column, value) {
      forall j | 0 <= j < Cells && SameColumn(i, j) ensures puzzle[j] != value {
        IndexOfCell(j);
        assert ColumnCell(column, RowOf(j)) == j;
      }
    }
    if forall j :: 0 <= j < Cells && SameColumn(i, j) ==> puzzle[j] != value {
      forall k | 0 <= k < 9 ensures !Holds(puzzle, ColumnCell(column, k), value) {
        IndexParts(k, column - 1);
      }
    }
  }

  /** The block scanned from 1-based `x` spans exactly the 0-based lines that share its third. */
  lemma BlockSpan(x: int, r: int)
    requires 1 <= x <= 9 && 0 <= r < 9
    ensures BlockStart(x) <= r < BlockStart(x) + 3 <==> r / 3 == (x - 1) / 3
  {
  }

  /** The region scan for cell `i` reads exactly the cells of its 3x3 box. */
  lemma RegionAllowsIff(puzzle: string, i: int, value: char)
    requires |puzzle| == Cells && 0 <= i < Cells
    ensures RegionAllows(puzzle, RowOf(i) + 1, ColumnOf(i) + 1, value) <==>
      forall j :: 0 <= j < Cells && SameBox(i, j) ==> puzzle[j] != value
  {
    var row, column := RowOf(i) + 1, ColumnOf(i) + 1;
    IndexOfCell(i);
    if RegionAllows(puzzle, row, column, value) {
      forall j | 0 <= j < Cells && SameBox(i, j) ensures puzzle[j] != value {
        IndexOfCell(j);
        BlockSpan(row, RowOf(j));
        BlockSpan(column, ColumnOf(j));
        assert !Holds(puzzle, Index(RowOf(j), ColumnOf(j)), value);
      }
    }
    if forall j :: 0 <= j < Cells && SameBox(i, j) ==> puzzle[j] != value {
      forall r, c | BlockStart(row) <= r < BlockStart(row) + 3 && BlockStart(column) <= c < BlockStart(column) + 3
        ensures !Holds(puzzle, Index(r, c), value)
      {
        ScannedCellsInRange(row, column);
        assert 0 <= r < 9 && 0 <= c < 9;
        IndexParts(r, c);
        BlockSpan(row, r);
        BlockSpan(column, c);
        assert SameBox(i, Index(r, c));
      }
    }
  }

  /** A placement at cell `i` is allowed exactly when no cell sharing a unit with `i` holds the value. */
  lemma PlacementAllowedIff(puzzle: string, i: int, value: char)
    requires |puzzle| == Cells && 0 <= i < Cells
    ensures PlacementAllowed(puzzle, RowOf(i) + 1, ColumnOf(i) + 1, value) <==>
      forall j :: 0 <= j < Cells && SameUnit(i, j) ==> puzzle[j] != value
  {
    RowAllowsIff(puzzle, i, value);
    ColumnAllowsIff(puzzle, i, value);
    RegionAllowsIff(puzzle, i, value);
  }

  /** Placing an allowed digit into an empty cell keeps the board free of repeats. */
  lemma PlacementKeepsConsistent(b: seq<char>, i: int, value: char)
    requires Consistent(b) && 0 <= i < Cells && b[i] == Empty && value != Empty
    requires PlacementAllowed(b, RowOf(i) + 1, ColumnOf(i) + 1, value)
    ensures Consistent(b[i := value])
  {
    PlacementAllowedIff(b, i, value);
    var b' := b[i := value];
    forall x, y | 0 <= x < Cells && 0 <= y < Cells && x != y && SameUnit(x, y) && b'[x] != Empty
      ensures b'[x] != b'[y]
    {
      if x == i {
        assert SameUnit(i, y);
      } else if y == i {
        assert SameUnit(i, x) by {
          assert SameUnit(y, x);
        }
      }
    }
  }

  // ---------------------------------------------------------------------------
  // solvePuzzle and solve
  // ---------------------------------------------------------------------------

  /** The lowest-index empty cell at or after `from`, or 81 when there is none. */
  function FirstEmpty(b: seq<char>, from: int): (i: int)
    requires |b| == Cells && 0 <= from <= Cells
    ensures from <= i <= Cells
    ensures forall k :: from <= k < i ==> b[k] != Empty
    ensures i < Cells ==> b[i] == Empty
    decreases Cells - from
  {
    if from == Cells then Cells
    else if b[from] == Empty then from
    else FirstEmpty(b, from + 1)
  }

  /**
   * The search that `solvePuzzle` performs, as a function of the board on
   * entry: the board it leaves behind on success, `None` on failure.
   */
  function Search(b: seq<char>): (r: Option<seq<char>>)
    requires |b| == Cells
    ensures r.Some? ==> Fills(b, r.value) && NoEmpty(r.value)
    decreases EmptyCount(b), 10
  {
    var i := FirstEmpty(b, 0);
    if i == Cells then Some(b) else TryFrom(b, i, 1)
  }

  /** Candidates `num` .. 9 for the empty cell `i`, in ascending order. */
  function TryFrom(b: seq<char>, i: int, num: int): (r: Option<seq<char>>)
    requires |b| == Cells && 0 <= i < Cells && b[i] == Empty && 1 <= num <= 10
    ensures r.Some? ==> Fills(b, r.value) && NoEmpty(r.value)
    decreases EmptyCount(b), 10 - num
  {
    if num > 9 then None
    else
      var d := Digit(num);
      if PlacementAllowed(b, i / 9 + 1, i % 9 + 1, d) then
        EmptyCountFill(b, i, d);
        match Search(b[i := d])
        case Some(s) => Some(s)
        case None => TryFrom(b, i, num + 1)
      else
        TryFrom(b, i, num + 1)
  }

  /** One step of the candidate loop: try `num`, and on failure go on with the next one. */
  lemma TryFromStep(b: seq<char>, i: int, num: int)
    requires |b| == Cells && 0 <= i < Cells && b[i] == Empty && 1 <= num <= 9
    ensures EmptyCount(b[i := Digit(num)]) < EmptyCount(b)
    ensures TryFrom(b, i, num) ==
      if PlacementAllowed(b, i / 9 + 1, i % 9 + 1, Digit(num)) && Search(b[i := Digit(num)]).Some? then
        Search(b[i := Digit(num)])
      else
        TryFrom(b, i, num + 1)
  {
    EmptyCountFill(b, i, Digit(num));
  }

  /**
   * Backtracking on the board in place. Each level fills the lowest-index
   * empty cell, so the recursion depth is bounded by the number of empty
   * cells (the `decreases` clause). On failure every tentative placement has
   * been undone.
   */
  method SolvePuzzle(board: array<char>) returns (solved: bool)
    requires board.Length == Cells
    modifies board
    ensures solved <==> Search(old(board[..])).Some?
    ensures solved ==> board[..] == Search(old(board[..])).value
    ensures !solved ==> board[..] == old(board[..])
    decreases EmptyCount(board[..])
  {
    ghost var start := board[..];
    for i := 0 to Cells
      invariant board[..] == start
      invariant forall k :: 0 <= k < i ==> board[k] != Empty
    {
      if board[i] == Empty {
        assert FirstEmpty(start, 0) == i;
        var row := i / 9 + 1;
        var col := i % 9 + 1;
        for num := 1 to 10
          invariant board[..] == start
          invariant TryFrom(start, i, 1) == TryFrom(start, i, num)
        {
          var ok := IsValidPlacement(board[..], row, col, Digit(num));
          ghost var next := start[i := Digit(num)];
          TryFromStep(start, i, num);
          if ok {
            board[i] := Digit(num);
            assert board[..] == next;
            EmptyCountFill(start, i, Digit(num));
            solved := SolvePuzzle(board);
            if solved {
              return;
            }
            board[i] := Empty;
            assert board[..] == next[i := Empty] == start;
          }
        }
        return false;
      }
    }
    assert FirstEmpty(start, 0) == Cells;
    return true;
  }

  /**
   * What `solve` returns, `false` of the source being `None`: a validation
   * failure never reaches the search; otherwise the search's result.
   */
  function SolveOutcome(puzzle: Option<string>): (r: Option<string>)
    ensures Validate(puzzle) != Valid ==> r == None
    ensures r.Some? ==> |r.value| == Cells && NoEmpty(r.value) && Fills(puzzle.value, r.value)
    ensures Validate(puzzle) == Valid && Consistent(puzzle.value) ==>
      (r.Some? ==> IsSolution(r.value)) &&
      (r.None? <==> forall s :: IsSolution(s) ==> !Extends(puzzle.value, s))
  {
    if Validate(puzzle) != Valid then None
    else
      SearchCorrect(puzzle.value);
      Search(puzzle.value)
  }

  method Solve(puzzle: Option<string>) returns (r: Option<string>)
    ensures r == SolveOutcome(puzzle)
  {
    var validation := Validate(puzzle);
    if validation != Valid {
      return None;
    }
    var s := puzzle.value;
    var board := new char[Cells](k requires 0 <= k < Cells => s[k]);
    assert board[..] == s;
    var ok := SolvePuzzle(board);
    if ok {
      r := Some(board[..]);
    } else {
      r := None;
    }
  }

  // ---------------------------------------------------------------------------
  // Properties of the search
  // ---------------------------------------------------------------------------

  /** A board with no empty cell is its own result. */
  lemma SearchFull(b: seq<char>)
    requires |b| == Cells && NoEmpty(b)
    ensures Search(b) == Some(b)
  {
  }

  /** Searching the result of a successful search returns it unchanged. */
  lemma SearchIdempotent(b: seq<char>)
    requires |b| == Cells && Search(b).Some?
    ensures Search(Search(b).value) == Search(b)
  {
    SearchFull(Search(b).value);
  }

  /** Soundness: started on a board without repeats, the search places only digits that keep it so. */
  lemma {:induction false} SearchSound(b: seq<char>)
    requires Consistent(b)
    ensures Search(b).Some? ==> Consistent(Search(b).value)
    decreases EmptyCount(b), 10
  {
    var i := FirstEmpty(b, 0);
    if i < Cells {
      TryFromSound(b, i, 1);
    }
  }

  lemma {:induction false} TryFromSound(b: seq<char>, i: int, num: int)
    requires Consistent(b) && 0 <= i < Cells && b[i] == Empty && 1 <= num <= 10
    ensures TryFrom(b, i, num).Some? ==> Consistent(TryFrom(b, i, num).value)
    decreases EmptyCount(b), 10 - num
  {
    if num <= 9 {
      var d := Digit(num);
      if PlacementAllowed(b, i / 9 + 1, i % 9 + 1, d) {
        EmptyCountFill(b, i, d);
        PlacementKeepsConsistent(b, i, d);
        SearchSound(b[i := d]);
      }
      TryFromSound(b, i, num + 1);
    }
  }

  /** A solution's digit at an empty cell is always an allowed placement on the board. */
  lemma SolutionDigitAllowed(b: seq<char>, s: seq<char>, i: int)
    requires IsSolution(s) && Extends(b, s) && 0 <= i < Cells && b[i] == Empty
    ensures PlacementAllowed(b, RowOf(i) + 1, ColumnOf(i) + 1, s[i])
  {
    PlacementAllowedIff(b, i, s[i]);
    forall j | 0 <= j < Cells && SameUnit(i, j) ensures b[j] != s[i] {
      if j != i && b[j] != Empty {
        assert s[j] == b[j];
      }
    }
  }

  /** Completeness: if some solution keeps the givens of `b`, the search succeeds. */
  lemma {:induction false} SearchComplete(b: seq<char>, s: seq<char>)
    requires |b| == Cells && IsSolution(s) && Extends(b, s)
    ensures Search(b).Some?
    decreases EmptyCount(b), 10
  {
    var i := FirstEmpty(b, 0);
    if i < Cells {
      TryFromComplete(b, i, 1, s);
    }
  }

  lemma {:induction false} TryFromComplete(b: seq<char>, i: int, num: int, s: seq<char>)
    requires |b| == Cells && 0 <= i < Cells && b[i] == Empty && IsSolution(s) && Extends(b, s)
    requires 1 <= num <= DigitValue(s[i])
    ensures TryFrom(b, i, num).Some?
    decreases EmptyCount(b), 10 - num
  {
    var d := Digit(num);
    if num == DigitValue(s[i]) {
      SolutionDigitAllowed(b, s, i);
      EmptyCountFill(b, i, d);
      SearchComplete(b[i := d], s);
    } else if PlacementAllowed(b, i / 9 + 1, i % 9 + 1, d) {
      EmptyCountFill(b, i, d);
      if Search(b[i := d]).None? {
        TryFromComplete(b, i, num + 1, s);
      }
    } else {
      TryFromComplete(b, i, num + 1, s);
    }
  }

  /**
   * The search fails only when no solution keeps the givens of `b`; on a
   * well-formed board without repeats what it returns is such a solution, so
   * there it succeeds exactly when a solution exists.
   */
  lemma SearchCorrect(b: seq<char>)
    requires WellFormed(b)
    ensures Search(b).None? ==> forall s :: IsSolution(s) ==> !Extends(b, s)
    ensures Consistent(b) && Search(b).Some? ==> IsSolution(Search(b).value) && Extends(b, Search(b).value)
  {
    if Consistent(b) {
      SearchSound(b);
    }
    forall s | IsSolution(s) && Extends(b, s) ensures Search(b).Some? {
      SearchComplete(b, s);
    }
  }

  // ---------------------------------------------------------------------------
  // Repeated givens
  // ---------------------------------------------------------------------------

  /** A well-formed board with no empty cell that repeats '1' in every unit. */
  const AllOnes: string := seq(Cells, _ => '1')

  /**
   * `solve` never looks for repeats among the givens: on a full board the
   * search finds no empty cell and hands the board back unchanged, so a board
   * that breaks every rule comes back as its own "solution".
   */
  lemma SolveAcceptsRepeatedGivens()
    ensures WellFormed(AllOnes) && !Consistent(AllOnes) && !IsSolution(AllOnes)
    ensures SolveOutcome(Some(AllOnes)) == Some(AllOnes)
  {
    assert AllOnes[0] == AllOnes[1] == '1' && SameRow(0, 1);
    SearchFull(AllOnes);
  }

  /**
   * `solve` with the check that the unsolvable-puzzle tests
   * (tests/1_unit-tests.js:67-71, tests/2_functional-tests.js:63-74) expect:
   * a well-formed puzzle that already repeats a digit in a row, column or box
   * is unsolvable. What it
   * returns is always a solution that keeps the givens, and for a well-formed
   * puzzle it fails exactly when no such solution exists.
   */
  function SolveChecked(puzzle: Option<string>): (r: Option<string>)
    ensures Validate(puzzle) != Valid ==> r == None
    ensures r.Some? ==> IsSolution(r.value) && Extends(puzzle.value, r.value)
    ensures Validate(puzzle) == Valid ==> (r.None? <==> forall s :: IsSolution(s) ==> !Extends(puzzle.value, s))
  {
    if Validate(puzzle) != Valid then None
    else if !Consistent(puzzle.value) then
      assert forall s :: IsSolution(s) ==> !Extends(puzzle.value, s) by {
        forall s | IsSolution(s) ensures !Extends(puzzle.value, s) {
          if Extends(puzzle.value, s) {
            ExtendedConsistent(puzzle.value, s);
          }
        }
      }
      None
    else
      SearchCorrect(puzzle.value);
      Search(puzzle.value)
  }
}
