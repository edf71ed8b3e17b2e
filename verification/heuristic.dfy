/** The computer opponent of `getBestMove`: a fixed-priority choice of a
    cell (win, block, centre, corner, side, any cell), specified on the
    board as a value. */
module Heuristic {
  import opened Grid
  import opened Rules

  /** The probe of `getBestMove`: cell `i` is empty and writing `p`'s mark
      there makes `checkWinner` true. */
  predicate WinsAt(board: Board, i: Index, p: Player)
  {
    board[i] == Empty && CheckWinner(board[i := Marked(p)])
  }

  /** The cell a probing loop that starts at `from` returns: the first one
      where `p` wins. */
  function FirstWinningCell(board: Board, p: Player, from: nat): (r: Option<Index>)
    decreases 9 - from
    ensures r.Some? ==> from <= r.value && WinsAt(board, r.value, p)
    ensures r.Some? ==> forall j: Index :: from <= j < r.value ==> !WinsAt(board, j, p)
    ensures r.None? ==> forall j: Index :: from <= j ==> !WinsAt(board, j, p)
  {
    if from >= 9 then None
    else if WinsAt(board, from, p) then Some(from)
    else FirstWinningCell(board, p, from + 1)
  }

  const Corners: seq<Index> := [0, 2, 6, 8]
  const Sides: seq<Index> := [1, 3, 5, 7]
  const AllCells: seq<Index> := [0, 1, 2, 3, 4, 5, 6, 7, 8]

  /** `candidates.filter(i => board[i] === '')`: the empty ones among the
      candidates, in their order. */
  function EmptyAmong(board: Board, candidates: seq<Index>): (r: seq<Index>)
    ensures forall i: Index :: i in r <==> i in candidates && board[i] == Empty
    ensures r == [] <==> forall i: Index :: i in candidates ==> board[i] != Empty
    ensures |r| <= |candidates|
  {
    if candidates == [] then []
    else (if board[candidates[0]] == Empty then [candidates[0]] else []) + EmptyAmong(board, candidates[1..])
  }

  /** `candidates[Math.floor(Math.random() * candidates.length)]` with the
      random draw supplied as `pick`: some element of a non-empty list, and
      `undefined` (here `None`) for an empty one. */
  function PickFrom(candidates: seq<Index>, pick: nat): (r: Option<Index>)
    ensures r.Some? <==> candidates != []
    ensures r.Some? ==> r.value in candidates
    ensures pick < |candidates| ==> r == Some(candidates[pick])
  {
    if candidates == [] then None else Some(candidates[pick % |candidates|])
  }

  /** `getBestMove`: the first cell where O wins, else the first cell where
      X would win, else the centre, else a free corner, else a free side,
      else any free cell; `None` stands for the `undefined` of a full board. */
  function BestMove(board: Board, pick: nat): Option<Index>
  {
    var win := FirstWinningCell(board, O, 0);
    if win.Some? then win
    else
      var block := FirstWinningCell(board, X, 0);
      if block.Some? then block
      else if board[4] == Empty then Some(4)
      else
        var corners := EmptyAmong(board, Corners);
        if |corners| > 0 then PickFrom(corners, pick)
        else
          var sides := EmptyAmong(board, Sides);
          if |sides| > 0 then PickFrom(sides, pick)
          else PickFrom(EmptyAmong(board, AllCells), pick)
  }

  /** Cell `i` completes a line for `p`: some combination runs through `i`
      and its other two cells hold `p`'s mark. */
  ghost predicate Threatens(board: Board, i: Index, p: Player)
  {
    exists k :: 0 <= k < |WinningCombos| && Covers(WinningCombos[k], i) &&
      forall j: Index :: j != i && Covers(WinningCombos[k], j) ==> board[j] == Marked(p)
  }

  /** On a board without a win, the probe succeeds exactly at the empty
      cells that complete a line for the probing player. */
  lemma WinsAtIffThreatens(board: Board, i: Index, p: Player)
    requires !CheckWinner(board)
    ensures WinsAt(board, i, p) <==> board[i] == Empty && Threatens(board, i, p)
  {
    if WinsAt(board, i, p) {
      ProbeWinIsThreat(board, i, p);
    }
    if board[i] == Empty && Threatens(board, i, p) {
      ThreatIsProbeWin(board, i, p);
    }
  }

  lemma ProbeWinIsThreat(board: Board, i: Index, p: Player)
    requires !CheckWinner(board) && WinsAt(board, i, p)
    ensures Threatens(board, i, p)
  {
    var probe := board[i := Marked(p)];
    var k :| 0 <= k < |WinningCombos| && Holds(probe, WinningCombos[k]);
    NewWinRunsThrough(board, i, p, k);
    assert forall j: Index :: j != i && Covers(WinningCombos[k], j) ==> board[j] == probe[j];
  }

  lemma ThreatIsProbeWin(board: Board, i: Index, p: Player)
    requires board[i] == Empty && Threatens(board, i, p)
    ensures WinsAt(board, i, p)
  {
    var probe := board[i := Marked(p)];
    var k :| 0 <= k < |WinningCombos| && Covers(WinningCombos[k], i) &&
      forall j: Index :: j != i && Covers(WinningCombos[k], j) ==> board[j] == Marked(p);
    var line := WinningCombos[k];
    assert Covers(line, line.a) && Covers(line, line.b) && Covers(line, line.c);
    HoldsByMarks(probe, line, p);
  }

  /** The opponent always names an empty cell, and names none exactly when
      the board is full. */
  lemma BestMoveIsEmptyCell(board: Board, pick: nat)
    ensures BestMove(board, pick).None? <==> CheckDraw(board)
    ensures BestMove(board, pick).Some? ==> board[BestMove(board, pick).value] == Empty
  {
    if !CheckDraw(board) {
      var j: Index :| board[j] == Empty;
      assert j in AllCells;
    }
  }

  /** The last rule never runs on a board with a free cell: every cell is
      the centre, a corner or a side. */
  lemma FallbackOnlyOnFullBoard(board: Board)
    requires !CheckDraw(board)
    requires board[4] != Empty && EmptyAmong(board, Corners) == []
    ensures EmptyAmong(board, Sides) != []
  {
    var j: Index :| board[j] == Empty;
    assert j in Sides;
  }

  /** Rule 1: when O can complete a line, the opponent takes the lowest
      such cell. */
  lemma TakesWin(board: Board, pick: nat)
    requires !CheckWinner(board)
    requires exists i: Index :: board[i] == Empty && Threatens(board, i, O)
    ensures BestMove(board, pick).Some?
    ensures var m := BestMove(board, pick).value;
      board[m] == Empty && Threatens(board, m, O) &&
      forall j: Index :: j < m ==> !(board[j] == Empty && Threatens(board, j, O))
  {
    var i: Index :| board[i] == Empty && Threatens(board, i, O);
    WinsAtIffThreatens(board, i, O);
    var m := BestMove(board, pick).value;
    WinsAtIffThreatens(board, m, O);
    forall j: Index | j < m ensures !(board[j] == Empty && Threatens(board, j, O)) {
      WinsAtIffThreatens(board, j, O);
    }
  }

  /** Rule 2: when O cannot complete a line but X can, the opponent blocks
      the lowest such cell. */
  lemma BlocksThreat(board: Board, pick: nat)
    requires !CheckWinner(board)
    requires forall i: Index :: !(board[i] == Empty && Threatens(board, i, O))
    requires exists i: Index :: board[i] == Empty && Threatens(board, i, X)
    ensures BestMove(board, pick).Some?
    ensures var m := BestMove(board, pick).value;
      board[m] == Empty && Threatens(board, m, X) &&
      forall j: Index :: j < m ==> !(board[j] == Empty && Threatens(board, j, X))
  {
    forall j: Index ensures !WinsAt(board, j, O) {
      WinsAtIffThreatens(board, j, O);
    }
    var i: Index :| board[i] == Empty && Threatens(board, i, X);
    WinsAtIffThreatens(board, i, X);
    var m := BestMove(board, pick).value;
    WinsAtIffThreatens(board, m, X);
    forall j: Index | j < m ensures !(board[j] == Empty && Threatens(board, j, X)) {
      WinsAtIffThreatens(board, j, X);
    }
  }

  /** No cell completes a line for either player. */
  ghost predicate Quiet(board: Board)
  {
    forall i: Index :: !(board[i] == Empty && (Threatens(board, i, O) || Threatens(board, i, X)))
  }

  lemma QuietMeansNoProbeWins(board: Board)
    requires !CheckWinner(board) && Quiet(board)
    ensures FirstWinningCell(board, O, 0).None? && FirstWinningCell(board, X, 0).None?
  {
    forall j: Index ensures !WinsAt(board, j, O) && !WinsAt(board, j, X) {
      WinsAtIffThreatens(board, j, O);
      WinsAtIffThreatens(board, j, X);
    }
  }

  /** Rule 3: with nothing to win or block, a free centre is taken. */
  lemma TakesCentre(board: Board, pick: nat)
    requires !CheckWinner(board) && Quiet(board)
    requires board[4] == Empty
    ensures BestMove(board, pick) == Some(4)
  {
    QuietMeansNoProbeWins(board);
  }

  /** Rule 4: with nothing to win or block and the centre taken, some free
      corner is taken. */
  lemma TakesCorner(board: Board, pick: nat)
    requires !CheckWinner(board) && Quiet(board)
    requires board[4] != Empty
    requires exists c: Index :: c in Corners && board[c] == Empty
    ensures BestMove(board, pick).Some?
    ensures BestMove(board, pick).value in Corners && board[BestMove(board, pick).value] == Empty
  {
    QuietMeansNoProbeWins(board);
    var c: Index :| c in Corners && board[c] == Empty;
    assert c in EmptyAmong(board, Corners);
  }

  /** Rule 5: with nothing to win or block and the centre and every corner
      taken, some free side is taken. */
  lemma TakesSide(board: Board, pick: nat)
    requires !CheckWinner(board) && Quiet(board) && !CheckDraw(board)
    requires board[4] != Empty
    requires forall c: Index :: c in Corners ==> board[c] != Empty
    ensures BestMove(board, pick).Some?
    ensures BestMove(board, pick).value in Sides && board[BestMove(board, pick).value] == Empty
  {
    QuietMeansNoProbeWins(board);
    FallbackOnlyOnFullBoard(board);
  }

  /** With X threatening the top row and O threatening the middle row, O
      to move completes its own row at cell 5 rather than block at cell 2:
      winning comes before blocking. */
  lemma WinComesBeforeBlock(pick: nat)
    ensures BestMove([Marked(X), Marked(X), Empty, Marked(O), Marked(O), Empty, Empty, Empty, Empty], pick) == Some(5)
  {
    var board: Board := [Marked(X), Marked(X), Empty, Marked(O), Marked(O), Empty, Empty, Empty, Empty];
    assert Holds(board[5 := Marked(O)], WinningCombos[1]);
    assert WinsAt(board, 5, O);
    assert !WinsAt(board, 2, O) by {
      var probe := board[2 := Marked(O)];
      forall k | 0 <= k < |WinningCombos| ensures !Holds(probe, WinningCombos[k]) {
      }
    }
    assert FirstWinningCell(board, O, 2) == Some(5);
  }

  /** After X opens in a corner, the reply is the centre. */
  lemma CentreAnswersCorner(pick: nat)
    ensures BestMove([Marked(X), Empty, Empty, Empty, Empty, Empty, Empty, Empty, Empty], pick) == Some(4)
  {
    var board: Board := [Marked(X), Empty, Empty, Empty, Empty, Empty, Empty, Empty, Empty];
    forall i: Index, p: Player ensures !WinsAt(board, i, p) {
      var probe := board[i := Marked(p)];
      forall k | 0 <= k < |WinningCombos| ensures !Holds(probe, WinningCombos[k]) {
        var line := WinningCombos[k];
        assert line.a != line.b && line.b != line.c && line.a != line.c;
        assert probe[line.a] == Empty || probe[line.b] == Empty || probe[line.c] == Empty;
      }
    }
  }

  /** In a running game of a consistent position the opponent's cell is an
      accepted click: the board has a free cell, and the cell chosen is
      one of them. */
  lemma ComputerMoveIsClick(s: GameState, pick: nat)
    requires Consistent(s) && s.active
    ensures BestMove(s.board, pick).Some?
    ensures Accepts(s, BestMove(s.board, pick).value)
  {
    BestMoveIsEmptyCell(s.board, pick);
  }
}
