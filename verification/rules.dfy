/** The rules of one game of TacTacTao as values: the move of `makeMove`
    together with `handleWin`, `handleDraw` and `switchPlayer`, the guard of
    `handleCellClick`, and the invariant that every position reached from a
    fresh game keeps. */
module Rules {
  import opened Grid

  /** The `scores` object: the number of games X and O have won. */
  datatype Scores = Scores(x: nat, o: nat) {
    function Of(p: Player): nat
    {
      if p == X then x else o
    }

    /** `scores[p]++`. */
    function Increment(p: Player): (r: Scores)
      ensures r.Of(p) == Of(p) + 1 && r.Of(Other(p)) == Of(Other(p))
    {
      if p == X then Scores(x + 1, o) else Scores(x, o + 1)
    }
  }

  const ZeroScores := Scores(0, 0)

  /** The engine's state: `board`, `currentPlayer`, `gameActive`, `scores`. */
  datatype GameState = GameState(board: Board, turn: Player, active: bool, scores: Scores)

  /** What a move leads to: the events the presentation layer renders. */
  datatype Outcome = Won(winner: Player, combo: Line) | Drawn | TurnPassed(next: Player)

  /** `makeMove(index)`: the mover's mark goes into the cell, then the win
      check comes first, the draw check second, and otherwise the turn
      passes. A win ends the game and scores a point for the mover; a draw
      ends it without one. */
  function Move(s: GameState, index: Index): (GameState, Outcome)
  {
    var board := s.board[index := Marked(s.turn)];
    if CheckWinner(board) then
      (GameState(board, s.turn, false, s.scores.Increment(s.turn)), Won(s.turn, WinningLine(board)))
    else if CheckDraw(board) then
      (GameState(board, s.turn, false, s.scores), Drawn)
    else
      (GameState(board, Other(s.turn), true, s.scores), TurnPassed(Other(s.turn)))
  }

  /** The guard of `handleCellClick`: the cell must hold `''` and the game
      must be active. An index off the board reads `undefined`, which is not
      `''`, so it is refused as well. */
  predicate Accepts(s: GameState, index: int)
  {
    0 <= index < 9 && s.board[index] == Empty && s.active
  }

  /** `handleCellClick(index)` up to the computer's reply: a refused click
      changes nothing, an accepted one is a `Move`. */
  function Click(s: GameState, index: int): (GameState, Option<Outcome>)
  {
    if Accepts(s, index) then (Move(s, index).0, Some(Move(s, index).1)) else (s, None)
  }

  /** The position invariant. The game is active exactly while the board
      shows neither a win nor a full board; every combination that holds is
      the current player's (the one who just won); and X, who moves first,
      is one mark ahead of O exactly when it is O's turn in an active game
      or X's in a finished one. */
  predicate Consistent(s: GameState)
  {
    && (s.active <==> !CheckWinner(s.board) && !CheckDraw(s.board))
    && (forall k :: 0 <= k < |WinningCombos| && Holds(s.board, WinningCombos[k]) ==>
          s.board[WinningCombos[k].a] == Marked(s.turn))
    && CountOf(s.board, Marked(X)) == CountOf(s.board, Marked(O)) + (if s.active <==> s.turn == O then 1 else 0)
  }

  lemma {:induction false} NoMarksCounted(cells: seq<Cell>)
    requires forall i :: 0 <= i < |cells| ==> cells[i] == Empty
    ensures CountOf(cells, Marked(X)) == 0 && CountOf(cells, Marked(O)) == 0
  {
    if cells != [] {
      NoMarksCounted(cells[1..]);
    }
  }

  /** A board of empty cells with X to move satisfies the invariant,
      whatever the scores. */
  lemma EmptyBoardIsConsistent(board: Board, scores: Scores)
    requires forall i: Index :: board[i] == Empty
    ensures Consistent(GameState(board, X, true, scores))
  {
    NoMarksCounted(board);
    assert !CheckDraw(board) by { assert board[0] == Empty; }
    forall k | 0 <= k < |WinningCombos| ensures !Holds(board, WinningCombos[k]) {
      assert board[WinningCombos[k].a] == Empty;
    }
  }

  /** An accepted move writes the mover's mark into exactly the chosen cell
      and leaves the other eight alone. */
  lemma MoveWritesOneCell(s: GameState, index: Index)
    requires Accepts(s, index)
    ensures Move(s, index).0.board[index] == Marked(s.turn)
    ensures forall j: Index :: j != index ==> Move(s, index).0.board[j] == s.board[j]
  {
  }

  /** The outcome of a move, stated against the geometric meaning of a win
      and of a full board: a win whenever the new board has three in a row
      (even when it is also full), a draw when it is full without one, and
      otherwise the turn passes. */
  lemma MoveOutcomeOrder(s: GameState, index: Index)
    requires Accepts(s, index)
    ensures var (t, outcome) := Move(s, index);
      && (outcome.Won? <==> ThreeInARow(t.board))
      && (outcome.Drawn? <==> !ThreeInARow(t.board) && forall j: Index :: t.board[j] != Empty)
      && (outcome.TurnPassed? <==> !ThreeInARow(t.board) && exists j: Index :: t.board[j] == Empty)
  {
    var t := Move(s, index).0;
    CheckWinnerIsThreeInARow(t.board);
  }

  /** A move that neither wins nor draws hands the turn to the other player
      and leaves the game active and the scores alone. */
  lemma MovePassesTurn(s: GameState, index: Index)
    requires Accepts(s, index)
    requires Move(s, index).1.TurnPassed?
    ensures var (t, outcome) := Move(s, index);
      t.active && t.turn == Other(s.turn) && outcome.next == t.turn && t.scores == s.scores &&
      CountOf(t.board, Marked(s.turn)) == CountOf(s.board, Marked(s.turn)) + 1
  {
    CountAfterPlacing(s.board, index, Marked(s.turn), Marked(s.turn));
  }

  /** A winning move ends the game, credits exactly one point to the mover
      and none to the other player, and reports the first combination of
      the table that holds; all three of its cells carry the winner's mark. */
  lemma WinScoresOnePoint(s: GameState, index: Index)
    requires Consistent(s) && Accepts(s, index)
    requires Move(s, index).1.Won?
    ensures var (t, outcome) := Move(s, index);
      && !t.active && t.turn == s.turn && outcome.winner == s.turn
      && t.scores.Of(s.turn) == s.scores.Of(s.turn) + 1
      && t.scores.Of(Other(s.turn)) == s.scores.Of(Other(s.turn))
      && (exists k :: 0 <= k < |WinningCombos| && WinningCombos[k] == outcome.combo &&
            Holds(t.board, WinningCombos[k]) && (forall j :: 0 <= j < k ==> !Holds(t.board, WinningCombos[j])))
      && t.board[outcome.combo.a] == Marked(s.turn)
      && t.board[outcome.combo.b] == Marked(s.turn)
      && t.board[outcome.combo.c] == Marked(s.turn)
  {
    var (t, outcome) := Move(s, index);
    var k :| 0 <= k < |WinningCombos| && WinningCombos[k] == outcome.combo &&
             (forall j :: 0 <= j < k ==> !Holds(t.board, WinningCombos[j]));
    NewWinRunsThrough(s.board, index, s.turn, k);
  }

  /** A drawing move ends the game and leaves the scores and the player
      alone. */
  lemma DrawKeepsScores(s: GameState, index: Index)
    requires Accepts(s, index)
    requires Move(s, index).1.Drawn?
    ensures var t := Move(s, index).0;
      !t.active && t.turn == s.turn && t.scores == s.scores &&
      forall j: Index :: t.board[j] != Empty
  {
  }

  /** Every accepted move keeps the position invariant. */
  lemma MoveKeepsConsistent(s: GameState, index: Index)
    requires Consistent(s) && Accepts(s, index)
    ensures Consistent(Move(s, index).0)
  {
    var (t, outcome) := Move(s, index);
    CountAfterPlacing(s.board, index, Marked(s.turn), Marked(X));
    CountAfterPlacing(s.board, index, Marked(s.turn), Marked(O));
    forall k | 0 <= k < |WinningCombos| && Holds(t.board, WinningCombos[k])
      ensures t.board[WinningCombos[k].a] == Marked(t.turn)
    {
      NewWinRunsThrough(s.board, index, s.turn, k);
    }
  }

  /** A drawn game always ends on X's move: X has five marks and O four. */
  lemma DrawEndsOnX(s: GameState)
    requires Consistent(s)
    requires CheckDraw(s.board) && !CheckWinner(s.board)
    ensures !s.active && s.turn == X
    ensures CountOf(s.board, Marked(X)) == 5 && CountOf(s.board, Marked(O)) == 4
  {
    FilledCellsAreMarks(s.board);
  }

  /** What the player does between games and during them: a click on a
      cell (a human's move, or the computer's, which
      `Heuristic.ComputerMoveIsClick` shows to be an accepted click),
      `resetGame`, `resetScore`. */
  datatype Action = Clicked(index: int) | GameReset | ScoreReset

  /** The state `resetGame` installs: nine empty cells, X to move, the
      game active, and the given scores (kept by `resetGame`, zero after
      `resetScore`). The constructor installs it with zero scores. */
  function ResetGame(scores: Scores): GameState
  {
    GameState(seq(9, _ => Empty), X, true, scores)
  }

  /** The position `resetGame` installs satisfies the invariant. */
  lemma ResetIsConsistent(scores: Scores)
    ensures Consistent(ResetGame(scores))
  {
    EmptyBoardIsConsistent(ResetGame(scores).board, scores);
  }

  /** One action and what it reports (only a click on a cell reports). */
  function Step(s: GameState, action: Action): (GameState, Option<Outcome>)
  {
    match action
    case Clicked(index) => Click(s, index)
    case GameReset => (ResetGame(s.scores), None)
    case ScoreReset => (ResetGame(ZeroScores), None)
  }

  /** Actions run one after another, with everything they report. */
  function Replay(s: GameState, actions: seq<Action>): (GameState, seq<Option<Outcome>>)
    decreases |actions|
  {
    if actions == [] then (s, [])
    else
      var (t, reported) := Step(s, actions[0]);
      var (u, rest) := Replay(t, actions[1..]);
      (u, [reported] + rest)
  }

  /** The number of reported wins of `p`. */
  function WinsOf(reports: seq<Option<Outcome>>, p: Player): nat
  {
    if reports == [] then 0
    else (if reports[0].Some? && reports[0].value.Won? && reports[0].value.winner == p then 1 else 0)
         + WinsOf(reports[1..], p)
  }

  /** Scores only ever move by reported wins: without a score reset, each
      player's score grows by exactly the number of wins reported for that
      player. */
  lemma {:induction false} ScoresCountWins(s: GameState, actions: seq<Action>, p: Player)
    requires forall i :: 0 <= i < |actions| ==> actions[i] != ScoreReset
    ensures Replay(s, actions).0.scores.Of(p) == s.scores.Of(p) + WinsOf(Replay(s, actions).1, p)
    decreases |actions|
  {
    if actions != [] {
      var (t, reported) := Step(s, actions[0]);
      ScoresCountWins(t, actions[1..], p);
      var (u, rest) := Replay(t, actions[1..]);
      assert ([reported] + rest)[1..] == rest;
    }
  }

  /** A score reset clears both scores and starts a fresh game. */
  lemma ScoreResetClears(s: GameState)
    ensures var t := Step(s, ScoreReset).0;
      t.scores.Of(X) == 0 && t.scores.Of(O) == 0 && t.turn == X && t.active &&
      forall i: Index :: t.board[i] == Empty
  {
  }

  /** Every action keeps the position invariant. */
  lemma StepKeepsConsistent(s: GameState, action: Action)
    requires Consistent(s)
    ensures Consistent(Step(s, action).0)
  {
    match action
    case Clicked(index) =>
      if Accepts(s, index) {
        MoveKeepsConsistent(s, index);
      }
    case GameReset =>
      var t := ResetGame(s.scores);
      EmptyBoardIsConsistent(t.board, t.scores);
    case ScoreReset =>
      var t := ResetGame(ZeroScores);
      EmptyBoardIsConsistent(t.board, t.scores);
  }

  /** Every position reached by any sequence of actions from a consistent
      one, in particular from a fresh game, is consistent. */
  lemma {:induction false} ReplayKeepsConsistent(s: GameState, actions: seq<Action>)
    requires Consistent(s)
    ensures Consistent(Replay(s, actions).0)
    decreases |actions|
  {
    if actions != [] {
      StepKeepsConsistent(s, actions[0]);
      ReplayKeepsConsistent(Step(s, actions[0]).0, actions[1..]);
    }
  }
}
