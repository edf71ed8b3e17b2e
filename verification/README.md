# TacTacTao in Dafny

A model of the rules engine of TacTacTao, the browser tic-tac-toe game
in `TacTac.js`. Two players take turns. X always opens, and O is either
a second human or the computer. The engine keeps four pieces of state:

- a nine-cell board in row-major order;
- the player to move;
- a flag saying whether the game is still going;
- a running score per player.

A move is accepted only on an empty cell of a running game. Once the
mark is written, the engine tests for a win first and for a full board
second; if neither holds, the turn passes. A win ends the game and
scores a point for the mover. A draw ends the game and scores nothing.

The computer opponent picks its cell by a fixed priority:

1. a cell that wins for O;
2. a cell that blocks X;
3. the centre;
4. a free corner;
5. a free side;
6. any free cell.

It finds the win and block cells by writing trial marks into the real
board and erasing them again.

The project has four modules.

- `grid.dfy` (`Grid`) covers the cells, the board and the table of the
  eight winning combinations. It holds the win check (`checkWinner`)
  and the draw check (`checkDraw`). It also gives an independent
  row/column/diagonal definition of "three in a row", which the table
  is proved to match.
- `rules.dfy` (`Rules`) holds the game as a value:
  - `Move` is `makeMove` together with `handleWin`, `handleDraw` and
    `switchPlayer`.
  - `Click` is the guard of `handleCellClick`.
  - `ResetGame` is the state that `resetGame`, `resetScore` and the
    constructor install.
  - `Step` and `Replay` run sequences of clicks and resets. The class's
    reset methods are proved to install the same `ResetGame` state that
    `Step` uses, so the lemmas about `Replay` describe the class's
    resets too.
  - `Consistent` is the position invariant that every reachable state
    keeps.
- `heuristic.dfy` (`Heuristic`) specifies `getBestMove` as the function
  `BestMove` on the board value.
  - Rules 1 to 5 are proved against the statement "some combination of
    the table runs through this cell and has its other two cells
    marked". `Grid` proves the table to be the grid's rows, columns and
    diagonals.
  - Rule 6 is shown to be reached only on a full board.
- `engine.dfy` (`Engine`) is the class `TacTacTao`:
  - an `array` board and the other fields, updated in place;
  - each method proved against the functions of `Rules` and
    `Heuristic`;
  - `GetBestMove` probing the real array and restoring it, with loop
    invariants that the board is unchanged between probes.

On `X X _ / O O _ / _ _ _` with O to move, both players threaten a row.
`getBestMove` tries O's own wins before blocking (`TacTac.js:103-124`),
so it answers 5, not 2. `Heuristic.WinComesBeforeBlock` proves this.

The random picks of `getBestMove` are a parameter `pick: nat`. The cell
taken is `candidates[pick % |candidates|]`. Every element of the
candidate list is reachable this way, since `pick` below the length
takes element `pick`. That is all that `Math.floor(Math.random() * n)`
promises.

## Model

| member | source | states |
|---|---|---|
| Grid.WinningCombos | TacTac.js:8-12 | the eight winning combinations in the order of the table: three rows, three columns, two diagonals |
| Grid.Holds | TacTac.js:165-166 | the win predicate of one combination: its first cell is not empty and equals the other two |
| Grid.CheckWinner | TacTac.js:163-168 | `checkWinner` is true iff some combination of the table holds |
| Grid.CheckDraw | TacTac.js:170-172 | `checkDraw` is true iff none of the nine cells is empty |
| Grid.Other | TacTac.js:202-203 | the next player is never the current one |
| Grid.AnyHolds | TacTac.js:163-168 | the `some` over the table is true iff some combination has a non-empty first cell equal to the other two |
| Grid.CheckWinnerIsThreeInARow | TacTac.js:8-12 | the table's eight combinations are exactly the three rows, three columns and two diagonals of the grid: `checkWinner` holds iff one player has three marks in a row, column or diagonal |
| Grid.FirstHolding | TacTac.js:179-182 | the search of the `find` over the table gives the position of the first combination that holds, and nothing exactly when none holds; `WinningLine` turns that position into the combination |
| Grid.WinningLine | TacTac.js:179-182 | on a won board, the reported combination holds and is the first of the table to hold |
| Grid.AllFilled | TacTac.js:170-172 | `checkDraw` is true iff no cell is empty |
| Grid.CountAfterPlacing | TacTac.js:73-74 | writing a mark into a cell raises that mark's count by one and lowers the count of what the cell held by one |
| Grid.NewWinRunsThrough | TacTac.js:73-78 | on a board without a win, any combination that holds after a mark is placed runs through the placed cell and carries the mover's mark in all three cells |
| Rules.Move | TacTac.js:73-85 | `makeMove` with the state parts of `handleWin`, `handleDraw` and `switchPlayer`: the mover's mark is written, then a win (game over, one point, first holding combination), else a draw (game over), else the other player's turn; its properties are the `Move…`, `Win…` and `Draw…` lemmas below |
| Rules.Accepts | TacTac.js:60-63 | the guard of `handleCellClick`: the index is a cell of the board, that cell is empty, and the game is active |
| Rules.Click | TacTac.js:60-65 | a refused click leaves the state as it was and reports nothing; an accepted click is `Move` |
| Rules.ResetGame | TacTac.js:259-262 | nine empty cells, X to move, the game active, with the given scores |
| Rules.Scores.Increment | TacTac.js:176 | the winner's score rises by one and the other player's stays |
| Rules.EmptyBoardIsConsistent | TacTac.js:259-262 | a fresh board with X to move and an active game satisfies the position invariant, whatever the scores |
| Rules.MoveWritesOneCell | TacTac.js:73-74 | an accepted move writes the mover's mark into the chosen cell and changes no other cell |
| Rules.MoveOutcomeOrder | TacTac.js:78-84 | a move is reported as a win iff the new board has three in a row, even on a full board; as a draw iff the board is full without one; otherwise the turn passes |
| Rules.MovePassesTurn | TacTac.js:82-84 | any accepted move with neither a win nor a draw hands the turn to the other player, keeps the game active and the scores, and adds one mark for the mover |
| Rules.WinScoresOnePoint | TacTac.js:174-182 | a winning move ends the game and gives the mover exactly one point, leaving the other score and the player to move alone; it reports the first holding combination of the table, whose three cells carry the mover's mark |
| Rules.DrawKeepsScores | TacTac.js:197-198 | any accepted drawing move ends the game and leaves the scores and the player alone, on a full board |
| Rules.MoveKeepsConsistent | TacTac.js:73-85 | every accepted move keeps the position invariant: active iff neither won nor full, every holding combination is the last mover's, X at most one mark ahead of O as the turn dictates |
| Rules.DrawEndsOnX | TacTac.js:78-81 | a drawn position always comes from X's move, with five X marks and four O marks |
| Rules.ScoresCountWins | TacTac.js:174-176 | without a score reset, each player's score after any sequence of clicks and game resets is the starting score plus the number of wins reported for that player |
| Rules.ResetIsConsistent | TacTac.js:259-262 | the state `resetGame` installs satisfies the position invariant |
| Rules.ScoreResetClears | TacTac.js:272-275 | a score reset zeroes both scores and starts a fresh game with X to move |
| Rules.StepKeepsConsistent | TacTac.js:60-65 | a click (accepted or refused), a game reset and a score reset all keep the position invariant |
| Rules.ReplayKeepsConsistent | TacTac.js:60-85 | every position reachable from a fresh game by clicks (the guard and `makeMove`) and by the resets of `resetGame` and `resetScore` (TacTac.js:259-275) satisfies the position invariant |
| Heuristic.WinsAt | TacTac.js:104-106 | the probe: the cell is empty and writing the player's mark there makes `checkWinner` true |
| Heuristic.BestMove | TacTac.js:98-146 | `getBestMove` on the board value: the first cell where O wins, else the first where X would win, else the centre, else a picked free corner, else a picked free side, else a picked free cell; its properties are the `Takes…`, `BlocksThreat` and `BestMoveIsEmptyCell` lemmas below |
| Heuristic.FirstWinningCell | TacTac.js:103-112 | the probing loop returns the lowest empty cell at or after its start where the probing mark wins, and nothing iff there is none |
| Heuristic.EmptyAmong | TacTac.js:130-131 | the `filter` keeps exactly the empty cells of the candidate list, and is empty iff every candidate is occupied |
| Heuristic.PickFrom | TacTac.js:132-133 | a random pick from a non-empty list is one of its elements, and every element is reached by some pick; an empty list yields nothing |
| Heuristic.WinsAtIffThreatens | TacTac.js:104-106 | on a board without a win, the probe succeeds exactly at the empty cells whose combination's other two cells hold the probing player's mark |
| Heuristic.BestMoveIsEmptyCell | TacTac.js:143-145 | the opponent's cell is always empty, and there is none exactly when the board is full |
| Heuristic.FallbackOnlyOnFullBoard | TacTac.js:136-145 | with the centre and every corner taken on a board with a free cell, a side is free, so the last rule matters only on a full board |
| Heuristic.TakesWin | TacTac.js:102-112 | when O can complete a line, the opponent takes the lowest such cell |
| Heuristic.BlocksThreat | TacTac.js:114-124 | when O cannot complete a line but X can, the opponent takes the lowest cell that completes X's line |
| Heuristic.TakesCentre | TacTac.js:126-127 | with nothing to win or block, a free centre is taken |
| Heuristic.TakesCorner | TacTac.js:129-134 | with nothing to win or block and the centre taken, a free corner is taken when there is one |
| Heuristic.TakesSide | TacTac.js:136-141 | with nothing to win or block and the centre and all corners taken, a free side is taken |
| Heuristic.WinComesBeforeBlock | TacTac.js:102-124 | on `X X _ / O O _ / _ _ _` the opponent completes its own row at 5 instead of blocking at 2 |
| Heuristic.CentreAnswersCorner | TacTac.js:126-127 | after X opens in corner 0 the opponent takes the centre |
| Heuristic.ComputerMoveIsClick | TacTac.js:92-94 | in a running game of a consistent position the opponent's cell exists and is an accepted click, so the computer's move is a `Clicked` step of `Replay` and the lemmas about `Replay` cover it |
| Engine.TacTacTao.constructor | TacTac.js:2-7 | a new game is the `ResetGame` state with zero scores (nine empty cells, X to move, the game active), with two human players, and satisfies the invariant |
| Engine.TacTacTao.SelectMode | TacTac.js:40-51 | the mode is recorded and the `ResetGame` state is installed with the scores kept |
| Engine.TacTacTao.ChangeMode | TacTac.js:54-57 | the `ResetGame` state with zero scores, as after a score reset; the mode is unchanged until the next selection |
| Engine.TacTacTao.HandleCellClick | TacTac.js:60-71 | a click on a non-empty cell, off the board or in a finished game changes nothing; otherwise it is exactly `Move`; the computer is asked to reply iff it plays and O is to move in a running game |
| Engine.TacTacTao.MakeMove | TacTac.js:73-85 | the fields after the call are the state `Move` gives, the outcome is the one it reports, and the invariant is kept |
| Engine.TacTacTao.MakeComputerMove | TacTac.js:87-96 | in a finished game nothing happens; otherwise the opponent's cell exists, passes the guard of a click, and is played as a `Move` |
| Engine.TacTacTao.GetBestMove | TacTac.js:98-146 | the trial writes leave the board exactly as found, and the cell returned is `BestMove` of that board |
| Engine.TacTacTao.HandleWin | TacTac.js:174-182 | the game ends, the current player's score rises by one, and the first holding combination is reported |
| Engine.TacTacTao.HandleDraw | TacTac.js:197-198 | the game ends |
| Engine.TacTacTao.SwitchPlayer | TacTac.js:202-203 | the other player is to move |
| Engine.TacTacTao.ResetGame | TacTac.js:259-262 | the fields become `Rules.ResetGame` of the old scores, the state `Step` gives for a game reset: a new empty board, X to move, the game active; the scores and the mode are kept and the invariant holds |
| Engine.TacTacTao.ResetScore | TacTac.js:272-275 | the fields become `Rules.ResetGame` with zero scores, the state `Step` gives for a score reset |

## Left out

- The browser side is not modelled, because it is presentation with no effect on the game state. This covers DOM lookups and event wiring (`initializeGame`), cell animation, winning-cell highlighting, confetti, random colours, status text, score display and the screen toggles of `selectMode`/`changeMode`.
- `SoundEffects` is not modelled, because it is Web Audio output with floating-point frequencies.
- The keyboard, touch and style-injection code at file scope is not modelled, because it is event wiring.
- The `setTimeout` delays are not modelled. `Engine.TacTacTao.HandleCellClick` only reports that the computer should reply. `Engine.TacTacTao.MakeComputerMove` then runs the delayed step at once. The delayed move does not re-check `gameActive`, and the model does not capture what can happen in that window:
  - A reset at any time between the click that schedules the computer's reply and the delayed move does not stop that move. The guard of `makeComputerMove` sees the new game as active. The delayed `makeMove` then writes `currentPlayer`, which is now X, into the cell that `getBestMove` picks on the empty board (the centre).
  - `handleCellClick` does not check whose turn it is, so a human click in that window plays O's mark. The delayed move then plays for X. If the click won for O, the delayed move lands on a finished game: `getBestMove`'s first probe succeeds at once, `handleWin` runs again, and O scores twice.
- `Math.random` is not modelled as a float. Each random choice is the parameter `pick`, reduced modulo the length of the candidate list.
- Engine.TacTacTao.MakeMove: requires an accepted move (an empty cell of a running game), which both of its callers establish beforehand. What `makeMove` would do on an occupied cell or in a finished game is not modelled.
- Engine.TacTacTao.GetBestMove: returns `None` where the code returns `undefined`, which happens only on a full board. `Engine.TacTacTao.MakeComputerMove` never reaches that case, because a running game never has a full board.
- Engine.TacTacTao.HandleCellClick: requires the object invariant. The constructor establishes it, and every public operation keeps it: `SelectMode`, `ChangeMode`, `HandleCellClick`, `MakeMove`, `MakeComputerMove`, `ResetGame` and `ResetScore`. The helpers `HandleWin`, `HandleDraw` and `SwitchPlayer` run in the middle of a move and say nothing about it. `GetBestMove` keeps it because it leaves the board as it found it. An index that is not an integer is not modelled; the cells pass only 0..8.
