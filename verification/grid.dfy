/** The 3x3 board of TacTacTao: marks, the fixed table of winning
    combinations, the win check and the draw check. */
module Grid {

  datatype Option<T> = None | Some(value: T)

  /** A player's mark. X always moves first in a fresh game. */
  datatype Player = X | O

  /** A cell: the source's empty string `''`, or a player's mark. */
  datatype Cell = Empty | Marked(player: Player)

  /** `switchPlayer`'s choice of the next player. */
  function Other(p: Player): (q: Player)
    ensures q != p
  {
    if p == X then O else X
  }

  /** A cell index of the row-major board: 0..2 is the top row. */
  type Index = i: int | 0 <= i < 9

  type Board = board: seq<Cell> | |board| == 9
    witness [Empty, Empty, Empty, Empty, Empty, Empty, Empty, Empty, Empty]

  /** A winning combination: the indices of three cells in a row. */
  datatype Line = Line(a: Index, b: Index, c: Index)

  predicate Covers(line: Line, i: int)
  {
    i == line.a || i == line.b || i == line.c
  }

  /** The eight combinations, in the order the table lists them:
      three rows, three columns, two diagonals. */
  const WinningCombos: seq<Line> := [
    Line(0, 1, 2), Line(3, 4, 5), Line(6, 7, 8),
    Line(0, 3, 6), Line(1, 4, 7), Line(2, 5, 8),
    Line(0, 4, 8), Line(2, 4, 6)
  ]

  /** The win predicate of one combination: its first cell is not empty
      and the other two hold the same mark. */
  predicate Holds(board: Board, line: Line)
  {
    board[line.a] != Empty && board[line.a] == board[line.b] && board[line.a] == board[line.c]
  }

  /** `lines.some(...)` with the win predicate. */
  function AnyHolds(board: Board, lines: seq<Line>): (r: bool)
    ensures r <==> exists k :: 0 <= k < |lines| && Holds(board, lines[k])
  {
    if lines == [] then false
    else Holds(board, lines[0]) || AnyHolds(board, lines[1..])
  }

  /** `checkWinner`: some combination of the table holds. */
  function CheckWinner(board: Board): (r: bool)
    ensures r <==> exists k :: 0 <= k < |WinningCombos| && Holds(board, WinningCombos[k])
  {
    AnyHolds(board, WinningCombos)
  }

  /** The position of the first combination of `lines` that holds, if
      any: the search that `winningCombos.find(...)` performs in
      `handleWin`, which `WinningLine` turns into the combination itself. */
  function FirstHolding(board: Board, lines: seq<Line>): (r: Option<nat>)
    ensures r.Some? ==> r.value < |lines| && Holds(board, lines[r.value])
    ensures r.Some? ==> forall j :: 0 <= j < r.value ==> !Holds(board, lines[j])
    ensures r.None? ==> forall k :: 0 <= k < |lines| ==> !Holds(board, lines[k])
  {
    if lines == [] then None
    else if Holds(board, lines[0]) then Some(0)
    else match FirstHolding(board, lines[1..])
      case None => None
      case Some(k) => Some(k + 1)
  }

  /** The combination `handleWin` reports: the first one of the table
      that holds. */
  function WinningLine(board: Board): (line: Line)
    requires CheckWinner(board)
    ensures Holds(board, line)
    ensures exists k :: 0 <= k < |WinningCombos| && WinningCombos[k] == line &&
                        (forall j :: 0 <= j < k ==> !Holds(board, WinningCombos[j]))
  {
    var k := FirstHolding(board, WinningCombos);
    assert k.Some?;
    WinningCombos[k.value]
  }

  /** `cells.every(cell => cell !== '')`. */
  function AllFilled(cells: seq<Cell>): (r: bool)
    ensures r <==> forall i :: 0 <= i < |cells| ==> cells[i] != Empty
  {
    cells == [] || (cells[0] != Empty && AllFilled(cells[1..]))
  }

  /** `checkDraw`: no cell is empty. */
  function CheckDraw(board: Board): (r: bool)
    ensures r <==> forall i: Index :: board[i] != Empty
  {
    AllFilled(board)
  }

  /** A combination that does not run through cell `i` is not affected by
      what is written there. */
  lemma LineAwayFromWrite(board: Board, i: Index, v: Cell, line: Line)
    ensures !Covers(line, i) ==> (Holds(board[i := v], line) <==> Holds(board, line))
  {
  }

  /** On a board without a win, a combination that holds once `p` marks
      cell `i` runs through `i` and holds `p`'s mark in all three cells. */
  lemma NewWinRunsThrough(board: Board, i: Index, p: Player, k: int)
    requires !CheckWinner(board) && 0 <= k < |WinningCombos|
    requires Holds(board[i := Marked(p)], WinningCombos[k])
    ensures Covers(WinningCombos[k], i)
    ensures forall j :: Covers(WinningCombos[k], j) ==> board[i := Marked(p)][j] == Marked(p)
  {
    var line := WinningCombos[k];
    LineAwayFromWrite(board, i, Marked(p), line);
    assert !Holds(board, line);
  }

  /** The number of cells holding `c`. */
  function CountOf(cells: seq<Cell>, c: Cell): nat
  {
    if cells == [] then 0
    else (if cells[0] == c then 1 else 0) + CountOf(cells[1..], c)
  }

  /** Writing `v` into cell `i` adds one to the count of `v` and takes
      one from the count of what was there. */
  lemma {:induction false} CountAfterPlacing(cells: seq<Cell>, i: int, v: Cell, c: Cell)
    requires 0 <= i < |cells|
    ensures CountOf(cells[i := v], c) + (if cells[i] == c then 1 else 0)
         == CountOf(cells, c) + (if v == c then 1 else 0)
  {
    if i == 0 {
      assert cells[i := v][1..] == cells[1..];
    } else {
      assert cells[i := v][1..] == cells[1..][i - 1 := v];
      CountAfterPlacing(cells[1..], i - 1, v, c);
    }
  }

  /** On a board with no empty cell every cell is an X or an O. */
  lemma {:induction false} FilledCellsAreMarks(cells: seq<Cell>)
    requires AllFilled(cells)
    ensures CountOf(cells, Marked(X)) + CountOf(cells, Marked(O)) == |cells|
  {
    if cells != [] {
      assert cells[0] != Empty;
      FilledCellsAreMarks(cells[1..]);
      if cells[0].player == X {
        assert cells[0] == Marked(X);
      } else {
        assert cells[0] == Marked(O);
      }
    }
  }

  /** The cell in row `row` and column `col` of the row-major board. */
  function At(board: Board, row: int, col: int): Cell
    requires 0 <= row < 3 && 0 <= col < 3
  {
    board[3 * row + col]
  }

  /** Row `row` holds three marks of `p`. */
  ghost predicate RowOf(board: Board, row: int, p: Player)
    requires 0 <= row < 3
  {
    forall col :: 0 <= col < 3 ==> At(board, row, col) == Marked(p)
  }

  /** Column `col` holds three marks of `p`. */
  ghost predicate ColumnOf(board: Board, col: int, p: Player)
    requires 0 <= col < 3
  {
    forall row :: 0 <= row < 3 ==> At(board, row, col) == Marked(p)
  }

  /** A diagonal holds three marks of `p`. */
  ghost predicate DiagonalOf(board: Board, p: Player)
  {
    (forall i :: 0 <= i < 3 ==> At(board, i, i) == Marked(p)) ||
    (forall row, col :: 0 <= row < 3 && 0 <= col < 3 && row + col == 2 ==> At(board, row, col) == Marked(p))
  }

  /** Three marks of one player in a row, a column or a diagonal, stated on
      coordinates and independent of the table. */
  ghost predicate ThreeInARow(board: Board)
  {
    ThreeInARowOf(board, X) || ThreeInARowOf(board, O)
  }

  ghost predicate ThreeInARowOf(board: Board, p: Player)
  {
    (exists row :: 0 <= row < 3 && RowOf(board, row, p)) ||
    (exists col :: 0 <= col < 3 && ColumnOf(board, col, p)) ||
    DiagonalOf(board, p)
  }

  /** All three cells of `line` hold `p`'s mark. */
  lemma HoldsByMarks(board: Board, line: Line, p: Player)
    requires board[line.a] == Marked(p) && board[line.b] == Marked(p) && board[line.c] == Marked(p)
    ensures Holds(board, line)
  {
  }

  /** The table is exactly the rows, the columns and the two diagonals of
      the grid: `checkWinner` holds iff some player has three in a row. */
  lemma CheckWinnerIsThreeInARow(board: Board)
    ensures CheckWinner(board) <==> ThreeInARow(board)
  {
    if CheckWinner(board) {
      WinnerHasThreeInARow(board);
    }
    if ThreeInARow(board) {
      ThreeInARowIsWinner(board);
    }
  }

  /** The table-to-grid direction: each combination that holds is a row,
      a column or a diagonal of one player's marks. */
  lemma WinnerHasThreeInARow(board: Board)
    requires CheckWinner(board)
    ensures ThreeInARow(board)
  {
    var k :| 0 <= k < |WinningCombos| && Holds(board, WinningCombos[k]);
    var line := WinningCombos[k];
    var p := board[line.a].player;
    if k < 3 {
      forall col | 0 <= col < 3 ensures At(board, k, col) == Marked(p) {
        assert 3 * k + col == if col == 0 then line.a else if col == 1 then line.b else line.c;
      }
      assert RowOf(board, k, p);
    } else if k < 6 {
      var col := k - 3;
      forall row | 0 <= row < 3 ensures At(board, row, col) == Marked(p) {
        assert 3 * row + col == if row == 0 then line.a else if row == 1 then line.b else line.c;
      }
      assert ColumnOf(board, col, p);
    } else if k == 6 {
      forall i | 0 <= i < 3 ensures At(board, i, i) == Marked(p) {
        assert 3 * i + i == if i == 0 then line.a else if i == 1 then line.b else line.c;
      }
      assert DiagonalOf(board, p);
    } else {
      forall row, col | 0 <= row < 3 && 0 <= col < 3 && row + col == 2
        ensures At(board, row, col) == Marked(p)
      {
        assert 3 * row + col == if row == 0 then line.a else if row == 1 then line.b else line.c;
      }
      assert DiagonalOf(board, p);
    }
    assert ThreeInARowOf(board, p);
    assert p == X || p == O;
    assert ThreeInARow(board);
  }

  /** The grid-to-table direction: each row, column and diagonal of one
      player's marks is a combination of the table. */
  lemma ThreeInARowIsWinner(board: Board)
    requires ThreeInARow(board)
    ensures CheckWinner(board)
  {
    var p := if ThreeInARowOf(board, X) then X else O;
    var k: int;
    if exists row :: 0 <= row < 3 && RowOf(board, row, p) {
      var row :| 0 <= row < 3 && RowOf(board, row, p);
      assert At(board, row, 0) == Marked(p) && At(board, row, 1) == Marked(p) && At(board, row, 2) == Marked(p);
      k := row;
    } else if exists col :: 0 <= col < 3 && ColumnOf(board, col, p) {
      var col :| 0 <= col < 3 && ColumnOf(board, col, p);
      assert At(board, 0, col) == Marked(p) && At(board, 1, col) == Marked(p) && At(board, 2, col) == Marked(p);
      k := 3 + col;
    } else if forall i :: 0 <= i < 3 ==> At(board, i, i) == Marked(p) {
      assert At(board, 0, 0) == Marked(p) && At(board, 1, 1) == Marked(p) && At(board, 2, 2) == Marked(p);
      k := 6;
    } else {
      assert At(board, 0, 2) == Marked(p) && At(board, 1, 1) == Marked(p) && At(board, 2, 0) == Marked(p);
      k := 7;
    }
    HoldsByMarks(board, WinningCombos[k], p);
    assert CheckWinner(board);
  }
}
