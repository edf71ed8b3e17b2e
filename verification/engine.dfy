/** The `TacTacTao` class: the game's state held in fields and updated in
    place by its methods. */
module Engine {
  import opened Grid
  import opened Rules
  import opened Heuristic

  /** `gameMode`: two humans, or a human (X) against the computer (O). */
  datatype Mode = Human | Computer

  class TacTacTao {
    var board: array<Cell>
    var currentPlayer: Player
    var gameActive: bool
    var scores: Scores
    var gameMode: Mode

    ghost predicate WellFormed()
      reads this
    {
      board.Length == 9
    }

    /** The fields as a state of the rules. */
    ghost function State(): GameState
      reads this, board
      requires WellFormed()
    {
      GameState(board[..], currentPlayer, gameActive, scores)
    }

    /** The object invariant: nine cells in a consistent position. */
    ghost predicate Valid()
      reads this, board
    {
      WellFormed() && Consistent(State())
    }

    /** The constructor's state: an empty board, X to move, the game
        active, no points, two human players. */
    constructor ()
      ensures Valid() && fresh(board)
      ensures State() == Rules.ResetGame(ZeroScores)
      ensures forall i :: 0 <= i < 9 ==> board[i] == Empty
      ensures currentPlayer == X && gameActive && scores == ZeroScores && gameMode == Human
    {
      board := new Cell[9](_ => Empty);
      currentPlayer := X;
      gameActive := true;
      scores := ZeroScores;
      gameMode := Human;
      new;
      ResetIsConsistent(ZeroScores);
      assert State() == Rules.ResetGame(ZeroScores) by {
        assert forall i :: 0 <= i < 9 ==> board[i] == Rules.ResetGame(ZeroScores).board[i];
      }
    }

    /** `selectMode`: record the mode and start a fresh game. */
    method SelectMode(mode: Mode)
      modifies this
      ensures Valid() && fresh(board)
      ensures State() == Rules.ResetGame(old(scores))
      ensures forall i :: 0 <= i < 9 ==> board[i] == Empty
      ensures currentPlayer == X && gameActive && scores == old(scores) && gameMode == mode
    {
      gameMode := mode;
      ResetGame();
    }

    /** `changeMode`: back to the mode choice, with the scores cleared and a
        fresh game; the mode itself changes on the next `SelectMode`. */
    method ChangeMode()
      modifies this
      ensures Valid() && fresh(board)
      ensures State() == Rules.ResetGame(ZeroScores)
      ensures forall i :: 0 <= i < 9 ==> board[i] == Empty
      ensures currentPlayer == X && gameActive && scores == ZeroScores && gameMode == old(gameMode)
    {
      ResetScore();
    }

    /** `handleCellClick`: a click on a cell that is not empty, or during a
        finished game, changes nothing; any other click is a move. After a
        move, the computer is to reply when it plays and it is O's turn in a
        game still going. */
    method HandleCellClick(index: int) returns (outcome: Option<Outcome>, computerReplies: bool)
      requires Valid()
      modifies this, board
      ensures Valid() && board == old(board) && gameMode == old(gameMode)
      ensures (State(), outcome) == Click(old(State()), index)
      ensures computerReplies <==> outcome.Some? && gameMode == Computer && gameActive && currentPlayer == O
    {
      if index < 0 || 9 <= index || board[index] != Empty || !gameActive {
        return None, false;
      }
      var moved := MakeMove(index);
      outcome := Some(moved);
      computerReplies := gameMode == Computer && gameActive && currentPlayer == O;
    }

    /** `makeMove`: the current player's mark goes into the cell; a win is
        checked first, a draw second, and otherwise the turn passes. */
    method MakeMove(index: Index) returns (outcome: Outcome)
      requires Valid() && Accepts(State(), index)
      modifies this, board
      ensures Valid() && board == old(board) && gameMode == old(gameMode)
      ensures (State(), outcome) == Move(old(State()), index)
    {
      board[index] := Marked(currentPlayer);
      if CheckWinner(board[..]) {
        var combo := HandleWin();
        outcome := Won(currentPlayer, combo);
      } else if CheckDraw(board[..]) {
        HandleDraw();
        outcome := Drawn;
      } else {
        SwitchPlayer();
        outcome := TurnPassed(currentPlayer);
      }
      MoveKeepsConsistent(old(State()), index);
    }

    /** `makeComputerMove` with its delayed step run at once: nothing
        happens in a finished game; otherwise the opponent's cell is
        played as a move. */
    method MakeComputerMove(pick: nat) returns (outcome: Option<Outcome>)
      requires Valid()
      modifies this, board
      ensures Valid() && board == old(board) && gameMode == old(gameMode)
      ensures !old(gameActive) ==> outcome.None? && State() == old(State())
      ensures old(gameActive) ==>
        && BestMove(old(board[..]), pick).Some?
        && Accepts(old(State()), BestMove(old(board[..]), pick).value)
        && outcome.Some?
        && (State(), outcome.value) == Move(old(State()), BestMove(old(board[..]), pick).value)
    {
      if !gameActive {
        return None;
      }
      ghost var before := State();
      var bestMove := GetBestMove(pick);
      assert State() == before;
      BestMoveIsEmptyCell(board[..], pick);
      var moved := MakeMove(bestMove.value);
      outcome := Some(moved);
    }

    /** `getBestMove`: each empty cell is probed by writing a mark into the
        board and erasing it again, first O's (to win), then X's (to
        block); then the centre, a corner, a side, any cell. The board is
        left exactly as it was found. */
    method GetBestMove(pick: nat) returns (move: Option<Index>)
      requires WellFormed()
      modifies board
      ensures board[..] == old(board[..])
      ensures move == BestMove(old(board[..]), pick)
    {
      ghost var start: Board := board[..];
      for i := 0 to 9
        invariant board[..] == start
        invariant FirstWinningCell(start, O, i) == FirstWinningCell(start, O, 0)
      {
        if board[i] == Empty {
          board[i] := Marked(O);
          assert board[..] == start[i := Marked(O)];
          if CheckWinner(board[..]) {
            board[i] := Empty;
            assert board[..] == start;
            return Some(i);
          }
          board[i] := Empty;
          assert board[..] == start;
        }
      }
      var opponent := X;
      for i := 0 to 9
        invariant board[..] == start
        invariant FirstWinningCell(start, X, i) == FirstWinningCell(start, X, 0)
      {
        if board[i] == Empty {
          board[i] := Marked(opponent);
          assert board[..] == start[i := Marked(X)];
          if CheckWinner(board[..]) {
            board[i] := Empty;
            assert board[..] == start;
            return Some(i);
          }
          board[i] := Empty;
          assert board[..] == start;
        }
      }
      if board[4] == Empty {
        return Some(4);
      }
      var availableCorners := EmptyAmong(board[..], Corners);
      if |availableCorners| > 0 {
        return PickFrom(availableCorners, pick);
      }
      var availableSides := EmptyAmong(board[..], Sides);
      if |availableSides| > 0 {
        return PickFrom(availableSides, pick);
      }
      var availableCells := EmptyAmong(board[..], AllCells);
      return PickFrom(availableCells, pick);
    }

    /** `handleWin`: the game ends, the mover scores a point, and the first
        combination of the table that holds is reported. */
    method HandleWin() returns (combo: Line)
      requires WellFormed() && CheckWinner(board[..])
      modifies this`gameActive, this`scores
      ensures !gameActive && scores == old(scores).Increment(currentPlayer)
      ensures combo == WinningLine(board[..])
    {
      gameActive := false;
      scores := scores.Increment(currentPlayer);
      combo := WinningLine(board[..]);
    }

    /** `handleDraw`: the game ends. */
    method HandleDraw()
      modifies this`gameActive
      ensures !gameActive
    {
      gameActive := false;
    }

    /** `switchPlayer`: the other player is to move. */
    method SwitchPlayer()
      modifies this`currentPlayer
      ensures currentPlayer == Other(old(currentPlayer))
    {
      currentPlayer := if currentPlayer == X then O else X;
    }

    /** `resetGame`: a new empty board, X to move, the game active; the
        scores and the mode stay. */
    method ResetGame()
      modifies this
      ensures Valid() && fresh(board)
      ensures State() == Rules.ResetGame(old(scores))
      ensures forall i :: 0 <= i < 9 ==> board[i] == Empty
      ensures currentPlayer == X && gameActive && scores == old(scores) && gameMode == old(gameMode)
    {
      board := new Cell[9](_ => Empty);
      currentPlayer := X;
      gameActive := true;
      ResetIsConsistent(scores);
      assert State() == Rules.ResetGame(scores) by {
        assert forall i :: 0 <= i < 9 ==> board[i] == Rules.ResetGame(scores).board[i];
      }
    }

    /** `resetScore`: both scores back to zero, then `resetGame`. */
    method ResetScore()
      modifies this
      ensures Valid() && fresh(board)
      ensures State() == Rules.ResetGame(ZeroScores)
      ensures forall i :: 0 <= i < 9 ==> board[i] == Empty
      ensures currentPlayer == X && gameActive && scores == ZeroScores && gameMode == old(gameMode)
    {
      scores := ZeroScores;
      ResetGame();
    }
  }
}
