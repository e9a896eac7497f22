/**
 * The decisions made by the two request handlers of routes/api.js, as pure
 * functions from the (possibly missing) request fields to a response value.
 * A field is `None` when the request body lacks it.
 */
module Api {
  import opened Options
  import opened Grid
  import opened SudokuSolver

  const MissingFields := "Required field(s) missing"
  const MissingField := "Required field missing"
  const InvalidCoordinate := "Invalid coordinate"
  const InvalidValue := "Invalid value"
  const CannotSolve := "Puzzle cannot be solved"

  const RowConflict := "row"
  const ColumnConflict := "column"
  const RegionConflict := "region"

  datatype CheckResponse = CheckError(error: string) | CheckValid | CheckConflict(conflict: seq<string>)

  datatype SolveResponse = SolveError(error: string) | Solution(solution: string)

  /** A field that JavaScript treats as truthy: present and not the empty string. */
  predicate Present(field: Option<string>) {
    field.Some? && field.value != ""
  }

  predicate AllPresent(puzzle: Option<string>, coordinate: Option<string>, value: Option<string>) {
    Present(puzzle) && Present(coordinate) && Present(value)
  }

  /** The test of /^[A-I][1-9]$/. */
  predicate IsCoordinate(c: string) {
    |c| == 2 && 'A' <= c[0] <= 'I' && IsDigit(c[1])
  }

  /** The test of /^[1-9]$/. */
  predicate IsValue(v: string) {
    |v| == 1 && IsDigit(v[0])
  }

  /** `coordinate.charCodeAt(0) - 64`: 'A' is 65. */
  function RowNumber(c: string): int
    requires IsCoordinate(c)
  {
    c[0] as int - 64
  }

  /** `parseInt(coordinate[1])` of a single digit. */
  function ColumnNumber(c: string): int
    requires IsCoordinate(c)
  {
    c[1] as int - '0' as int
  }

  /** `(row - 1) * 9 + (column - 1)`. */
  function CellIndex(row: int, column: int): int {
    (row - 1) * 9 + (column - 1)
  }

  /**
   * A coordinate in A1 .. I9 names a row and a column in 1 .. 9 and a cell in
   * 0 .. 80, and that cell's row and column, as the solver computes them from
   * an index, are the coordinate's again.
   */
  lemma CoordinateCell(c: string)
    requires IsCoordinate(c)
    ensures 1 <= RowNumber(c) <= 9 && 1 <= ColumnNumber(c) <= 9
    ensures 0 <= CellIndex(RowNumber(c), ColumnNumber(c)) < Cells
    ensures RowOf(CellIndex(RowNumber(c), ColumnNumber(c))) + 1 == RowNumber(c)
    ensures ColumnOf(CellIndex(RowNumber(c), ColumnNumber(c))) + 1 == ColumnNumber(c)
  {
    IndexParts(RowNumber(c) - 1, ColumnNumber(c) - 1);
  }

  /** Distinct coordinates name distinct cells. */
  lemma CoordinateInjective(c: string, d: string)
    requires IsCoordinate(c) && IsCoordinate(d)
    requires CellIndex(RowNumber(c), ColumnNumber(c)) == CellIndex(RowNumber(d), ColumnNumber(d))
    ensures c == d
  {
    CoordinateCell(c);
    CoordinateCell(d);
  }

  /** Rank of a conflict name in the order the handler pushes them. */
  function Rank(name: string): int {
    if name == RowConflict then 0 else if name == ColumnConflict then 1 else 2
  }

  /**
   * The names pushed, in order, onto `conflicts`: the list holds "row",
   * "column" and "region" exactly for the scans that fail, each once, in that
   * order.
   */
  function Conflicts(puzzle: string, row: int, column: int, value: char): (cs: seq<string>)
    ensures RowConflict in cs <==> !RowAllows(puzzle, row, value)
    ensures ColumnConflict in cs <==> !ColumnAllows(puzzle, column, value)
    ensures RegionConflict in cs <==> !RegionAllows(puzzle, row, column, value)
    ensures forall k :: 0 <= k < |cs| ==> cs[k] == RowConflict || cs[k] == ColumnConflict || cs[k] == RegionConflict
    ensures forall a, b :: 0 <= a < b < |cs| ==> Rank(cs[a]) < Rank(cs[b])
    ensures cs == [] <==> PlacementAllowed(puzzle, row, column, value)
  {
    var c0: seq<string> := [];
    var c1 := if !RowAllows(puzzle, row, value) then c0 + [RowConflict] else c0;
    var c2 := if !ColumnAllows(puzzle, column, value) then c1 + [ColumnConflict] else c1;
    var c3 := if !RegionAllows(puzzle, row, column, value) then c2 + [RegionConflict] else c2;
    c3
  }

  /** The `/api/check` handler. */
  function Check(puzzle: Option<string>, coordinate: Option<string>, value: Option<string>): (r: CheckResponse)
    // error precedence: missing fields, then the puzzle, then the coordinate, then the value
    ensures r == CheckError(MissingFields) <==> !AllPresent(puzzle, coordinate, value)
    ensures r == CheckError(LengthError) <==> AllPresent(puzzle, coordinate, value) && |puzzle.value| != Cells
    ensures r == CheckError(CharacterError) <==>
      AllPresent(puzzle, coordinate, value) && |puzzle.value| == Cells &&
      exists i :: 0 <= i < Cells && !IsPuzzleChar(puzzle.value[i])
    ensures r == CheckError(InvalidCoordinate) <==>
      AllPresent(puzzle, coordinate, value) && WellFormed(puzzle.value) && !IsCoordinate(coordinate.value)
    ensures r == CheckError(InvalidValue) <==>
      AllPresent(puzzle, coordinate, value) && WellFormed(puzzle.value) && IsCoordinate(coordinate.value) &&
      !IsValue(value.value)
    ensures !r.CheckError? <==>
      AllPresent(puzzle, coordinate, value) && WellFormed(puzzle.value) && IsCoordinate(coordinate.value) &&
      IsValue(value.value)
    // an accepted request: a filled target is valid; an empty one is valid exactly when no cell
    // sharing its row, column or box holds the value
    ensures !r.CheckError? ==>
      var i := CellIndex(RowNumber(coordinate.value), ColumnNumber(coordinate.value));
      0 <= i < Cells &&
      (puzzle.value[i] != Empty ==> r == CheckValid) &&
      (puzzle.value[i] == Empty ==>
        (r == CheckValid <==> forall j :: 0 <= j < Cells && SameUnit(i, j) ==> puzzle.value[j] != value.value[0]))
    ensures r.CheckConflict? ==>
      var row, column := RowNumber(coordinate.value), ColumnNumber(coordinate.value);
      r.conflict != [] && r.conflict == Conflicts(puzzle.value, row, column, value.value[0])
  {
    if !AllPresent(puzzle, coordinate, value) then
      CheckError(MissingFields)
    else if Validate(puzzle) != Valid then
      CheckError(Validate(puzzle).error)
    else if !IsCoordinate(coordinate.value) then
      CheckError(InvalidCoordinate)
    else if !IsValue(value.value) then
      CheckError(InvalidValue)
    else
      var p, v := puzzle.value, value.value;
      var row, column := RowNumber(coordinate.value), ColumnNumber(coordinate.value);
      var index := CellIndex(row, column);
      CoordinateCell(coordinate.value);
      if p[index] == v[0] then
        CheckValid
      else if p[index] != Empty then
        CheckValid
      else
        var conflicts := Conflicts(p, row, column, v[0]);
        PlacementAllowedIff(p, index, v[0]);
        if |conflicts| == 0 then CheckValid else CheckConflict(conflicts)
  }

  /** The `/api/solve` handler. */
  function SolveRoute(puzzle: Option<string>): (r: SolveResponse)
    ensures r == SolveError(MissingField) <==> !Present(puzzle)
    ensures r == SolveError(LengthError) <==> Present(puzzle) && |puzzle.value| != Cells
    ensures r == SolveError(CharacterError) <==>
      Present(puzzle) && |puzzle.value| == Cells && exists i :: 0 <= i < Cells && !IsPuzzleChar(puzzle.value[i])
    // a valid puzzle reaches `solve`: its string is the solution, its `false` the "cannot be solved" error
    ensures Present(puzzle) && WellFormed(puzzle.value) ==>
      (r.Solution? <==> SolveOutcome(puzzle).Some?) &&
      (r.Solution? ==> r.solution == SolveOutcome(puzzle).value) &&
      (!r.Solution? ==> r == SolveError(CannotSolve))
    ensures r.Solution? ==>
      WellFormed(puzzle.value) && |r.solution| == Cells && NoEmpty(r.solution) && Fills(puzzle.value, r.solution)
    ensures Present(puzzle) && WellFormed(puzzle.value) && Consistent(puzzle.value) ==>
      (r.Solution? ==> IsSolution(r.solution)) &&
      (r == SolveError(CannotSolve) <==> forall s :: IsSolution(s) ==> !Extends(puzzle.value, s))
  {
    if !Present(puzzle) then
      SolveError(MissingField)
    else if Validate(puzzle) != Valid then
      SolveError(Validate(puzzle).error)
    else
      match SolveOutcome(puzzle)
      case Some(solution) => Solution(solution)
      case None => SolveError(CannotSolve)
  }
}
