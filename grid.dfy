/** Optional values: a missing request field, a solver that may fail. */
module Options {
  datatype Option<+T> = None | Some(value: T)
}

/**
 * The rules of 9x9 Sudoku over the flat, row-major, 81-cell board used by the
 * solver: cell `j` sits in row `j / 9` and column `j % 9` (both 0-based), and
 * an empty cell holds '.'. These definitions are the reference the scans of
 * the solver are proved against.
 */
module Grid {

  const Cells := 81
  const Empty := '.'

  /** A filled cell: one of the characters '1' .. '9'. */
  predicate IsDigit(c: char) {
    '1' <= c <= '9'
  }

  /** The alphabet of a puzzle string: a digit or the empty marker. */
  predicate IsPuzzleChar(c: char) {
    IsDigit(c) || c == Empty
  }

  /** The character that `num.toString()` yields for a candidate 1 .. 9. */
  function Digit(num: int): (c: char)
    requires 1 <= num <= 9
    ensures IsDigit(c) && c as int - '0' as int == num
  {
    ('0' as int + num) as char
  }

  /** The candidate number a digit character stands for. */
  function DigitValue(c: char): (num: int)
    requires IsDigit(c)
    ensures 1 <= num <= 9 && Digit(num) == c
  {
    c as int - '0' as int
  }

  /** Flat index of 0-based row `r` and column `c`. */
  function Index(r: int, c: int): int { r * 9 + c }

  function RowOf(j: int): int { j / 9 }
  function ColumnOf(j: int): int { j % 9 }

  lemma IndexParts(r: int, c: int)
    requires 0 <= r < 9 && 0 <= c < 9
    ensures 0 <= Index(r, c) < Cells && RowOf(Index(r, c)) == r && ColumnOf(Index(r, c)) == c
  {
  }

  lemma IndexOfCell(j: int)
    requires 0 <= j < Cells
    ensures 0 <= RowOf(j) < 9 && 0 <= ColumnOf(j) < 9 && Index(RowOf(j), ColumnOf(j)) == j
  {
  }

  predicate SameRow(i: int, j: int) { RowOf(i) == RowOf(j) }
  predicate SameColumn(i: int, j: int) { ColumnOf(i) == ColumnOf(j) }
  predicate SameBox(i: int, j: int) {
    RowOf(i) / 3 == RowOf(j) / 3 && ColumnOf(i) / 3 == ColumnOf(j) / 3
  }

  /** Two cells constrain each other when they share a row, a column or a 3x3 box. */
  predicate SameUnit(i: int, j: int) {
    SameRow(i, j) || SameColumn(i, j) || SameBox(i, j)
  }

  /** No digit is repeated in any row, column or box (empty cells are ignored). */
  predicate Consistent(b: seq<char>) {
    |b| == Cells &&
    forall i, j :: 0 <= i < Cells && 0 <= j < Cells && i != j && SameUnit(i, j) && b[i] != Empty ==> b[i] != b[j]
  }

  /**
   * The `k`-th cell (0 .. 8) of unit `u` (0 .. 26): rows 0 .. 8, then
   * columns, then the boxes in row-major order.
   */
  function UnitCell(u: int, k: int): int {
    Index(UnitRow(u, k), UnitColumn(u, k))
  }

  /** Row of the `k`-th cell of unit `u`. */
  function UnitRow(u: int, k: int): int {
    if u < 9 then u else if u < 18 then k else 3 * Third(u - 18) + Third(k)
  }

  /** `x / 3` for `x` in 0 .. 8, without division. */
  function Third(x: int): int {
    if x < 3 then 0 else if x < 6 then 1 else 2
  }

  /** Column of the `k`-th cell of unit `u`. */
  function UnitColumn(u: int, k: int): int {
    if u < 9 then k else if u < 18 then u - 9 else 3 * (u - 18 - 3 * Third(u - 18)) + (k - 3 * Third(k))
  }

  /** The nine cells of unit `u` hold nine different characters. */
  predicate UnitDistinct(b: seq<char>, u: int)
    requires |b| == Cells && 0 <= u < 27
  {
    forall a, c :: 0 <= a < c < 9 ==> b[UnitCell(u, a)] != b[UnitCell(u, c)]
  }

  /** Cell (x, y) of box (br, bc), all coordinates in 0 .. 2, is cell 3x + y of unit 18 + 3br + bc. */
  lemma BoxCell(br: int, bc: int, x: int, y: int)
    requires 0 <= br < 3 && 0 <= bc < 3 && 0 <= x < 3 && 0 <= y < 3
    ensures UnitRow(18 + 3 * br + bc, 3 * x + y) == 3 * br + x
    ensures UnitColumn(18 + 3 * br + bc, 3 * x + y) == 3 * bc + y
  {
  }

  /** Every pair of cells sharing a unit is a pair of positions of one of the 27 units. */
  lemma SameUnitInUnit(i: int, j: int) returns (u: int, a: int, c: int)
    requires 0 <= i < Cells && 0 <= j < Cells && SameUnit(i, j)
    ensures 0 <= u < 27 && 0 <= a < 9 && 0 <= c < 9
    ensures UnitCell(u, a) == i && UnitCell(u, c) == j
  {
    IndexOfCell(i);
    IndexOfCell(j);
    var ri, ci, rj, cj := RowOf(i), ColumnOf(i), RowOf(j), ColumnOf(j);
    if SameRow(i, j) {
      u, a, c := ri, ci, cj;
    } else if SameColumn(i, j) {
      u, a, c := 9 + ci, ri, rj;
    } else {
      var br, bc := ri / 3, ci / 3;
      assert rj / 3 == br && cj / 3 == bc;
      u := 18 + 3 * br + bc;
      a, c := 3 * (ri % 3) + ci % 3, 3 * (rj % 3) + cj % 3;
      BoxCell(br, bc, ri % 3, ci % 3);
      BoxCell(br, bc, rj % 3, cj % 3);
    }
  }

  /** A board whose 27 units each hold distinct characters repeats no digit in any unit. */
  lemma ConsistentByUnits(b: seq<char>)
    requires |b| == Cells && forall u :: 0 <= u < 27 ==> UnitDistinct(b, u)
    ensures Consistent(b)
  {
    forall i, j | 0 <= i < Cells && 0 <= j < Cells && i != j && SameUnit(i, j) && b[i] != Empty
      ensures b[i] != b[j]
    {
      var u, a, c := SameUnitInUnit(i, j);
      assert UnitDistinct(b, u);
      if a < c {
        assert b[UnitCell(u, a)] != b[UnitCell(u, c)];
      } else {
        assert a != c;
        assert b[UnitCell(u, c)] != b[UnitCell(u, a)];
      }
    }
  }

  /** A board that a repeat-free board extends is itself repeat-free. */
  lemma ExtendedConsistent(b: seq<char>, s: seq<char>)
    requires Consistent(s) && Extends(b, s)
    ensures Consistent(b)
  {
  }

  /** A complete, valid Sudoku: every cell a digit and no unit repeats one. */
  predicate IsSolution(s: seq<char>) {
    Consistent(s) && forall k :: 0 <= k < |s| ==> IsDigit(s[k])
  }

  /** `s` keeps every given (non-empty cell) of `b`. */
  predicate Extends(b: seq<char>, s: seq<char>) {
    |s| == |b| && forall k :: 0 <= k < |b| && b[k] != Empty ==> s[k] == b[k]
  }

  /** `s` keeps every given of `b` and writes a digit into each of its empty cells. */
  predicate Fills(b: seq<char>, s: seq<char>) {
    Extends(b, s) && forall k :: 0 <= k < |b| && b[k] == Empty ==> IsDigit(s[k])
  }

  predicate NoEmpty(b: seq<char>) {
    forall k :: 0 <= k < |b| ==> b[k] != Empty
  }

  /** The number of empty cells of `b`. */
  function EmptyCount(b: seq<char>): nat {
    if b == [] then 0 else (if b[0] == Empty then 1 else 0) + EmptyCount(b[1..])
  }

  /** The count is zero exactly on boards without an empty cell. */
  lemma {:induction false} EmptyCountZero(b: seq<char>)
    ensures EmptyCount(b) == 0 <==> NoEmpty(b)
  {
    if b != [] {
      EmptyCountZero(b[1..]);
      assert forall k :: 1 <= k < |b| ==> b[k] == b[1..][k - 1];
    }
  }

  /** Writing a non-empty character into an empty cell lowers the count by one. */
  lemma {:induction false} EmptyCountFill(b: seq<char>, i: int, c: char)
    requires 0 <= i < |b| && b[i] == Empty && c != Empty
    ensures EmptyCount(b[i := c]) == EmptyCount(b) - 1
  {
    if i == 0 {
      assert b[i := c][1..] == b[1..];
    } else {
      EmptyCountFill(b[1..], i - 1, c);
      assert b[i := c][1..] == b[1..][i - 1 := c];
    }
  }
}
