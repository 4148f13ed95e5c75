# Tic-tac-toe game engine

A Dafny model of the game rules of a browser tic-tac-toe game for two players
at one screen (`function.js`). The page code is set aside; what remains is:

- the board: nine cells numbered row-major from 0 (top left) to 8 (bottom right),
  each holding `Empty`, `X` or `O`, and the table of the eight winning triples;
- `checkWin`, which asks whether some winning triple is filled with the mark of
  the player who just moved, and `checkDraw`, which asks whether every cell is
  claimed;
- the state kept in the program's globals, whose turn it is (`circleTurn`) and
  the two win counters (`xWins`, `oWins`), and whether the results panel is
  shown (the `active` class of the results element);
- `processTurn` (a click on a cell), `displayResults` (ending a match and
  counting the win) and `startGame` (clearing the board for the next match).

Three modules:

- `Rules` (rules.dfy): marks, the board, `WIN_STATES`, `CheckWin`, `CheckDraw`, and
  a reference definition of "three in a row" by rows, columns and diagonals.
- `Match` (match.dfy): the game state as a value and the functions `Play`,
  `Record` and `Restart` that say what a click, the end of a match and a restart
  do to it; the match invariant `Consistent`; lemmas about one click, about a
  run of clicks within a match, and about a whole session of clicks and
  restarts.
- `Session` (game.dfy): the class `Game`, which keeps the cells in an array and
  the turn flag, counters and results flag in fields, with the methods
  `StartGame`, `ProcessTurn` and `DisplayResults`. Each is proved to change the
  object exactly as the matching `Match` function changes the state, and the
  class invariant `Valid()` includes the match invariant.

Notes on the code:

- The turn passes after every accepted move, also after the move that wins or
  draws (function.js:49-51), so the loser, or the player who did not make the
  last move of a draw, opens the next match.
- A draw is "every cell claimed" (function.js:69-73) and is tested only after
  the win test fails (function.js:47-48). That neither player has a line at a
  draw is not tested by the code; it is proved here (`Match.DrawHasNoLine`)
  from the invariant that no line exists while a match is in progress.
- The code is for two players at one screen; it has no computer opponent.
- The comment at function.js:3 numbers the cells "from 0 … to 9 (top right)";
  the table at function.js:10-18 uses 0 (top left) to 8 (bottom right), which
  is what the model uses.

## Model

| member | source | states |
|---|---|---|
| `Rules.WIN_STATES` | function.js:11-18 | the eight winning triples, in the order of the source: three rows, three columns, the two diagonals |
| `Rules.CheckWin` | function.js:58-64 | defines the win test: some triple of `WIN_STATES` has every cell holding the given mark (the `some` over `every` of the source) |
| `Rules.CheckDraw` | function.js:69-73 | defines the draw test: every cell holds X or O |
| `Match.INITIAL` | function.js:20-22 | the start of a session: empty board, X to move, both counters 0, no results shown |
| `Match.Play` | function.js:44-52 | defines a click: refused on a claimed cell or a decided match; otherwise the mover's mark is written, `Evaluate` runs, and the turn flag flips in every case |
| `Match.Evaluate` | function.js:47-48 | defines the tests after a mark goes down: the mover's win first, then a draw, each ending the match through `Record` |
| `Match.Record` | function.js:79-84 | defines the end of a match: on a victory the counter of the player whose turn it is rises by one; the results are shown |
| `Match.Restart` | function.js:29-37 | defines a restart: every cell emptied, results hidden, counters and turn kept |
| `Match.Dispatch` | function.js:30-36 | defines one event of a session: a cell click goes to `Play` (whose guard stands for the once-listeners of function.js:36), a restart click restarts only while the results are shown (the restart listener is attached only at function.js:87) |
| `Match.Accepted` | function.js:44-52 | defines the number of clicks in a sequence that are not ignored: those on a free cell while the match is in progress |
| `Rules.CheckWinIsThreeInARow` | function.js:10-18 | a board has some winning triple filled with a mark exactly when one of its three rows, three columns or two diagonals is filled with it: the table lists exactly the lines of the grid |
| `Rules.NoWinWithoutMarks` | function.js:58-64 | the win test is false for a mark that occupies no cell |
| `Rules.EmptyBoardHasNoWinner` | function.js:58-73 | on the empty board neither player has won and the board is not drawn |
| `Rules.PlacingCannotWinForOther` | function.js:58-64 | putting a player's mark into a cell can never complete a line for the other player |
| `Rules.WinNeedsThreeMarks` | function.js:58-64 | a player who has won has at least three marks on the board |
| `Rules.CheckDrawIffNineClaimed` | function.js:69-73 | the draw test holds exactly when the X marks and the O marks together number nine |
| `Match.PlayIgnoresBlockedCell` | function.js:33-37 | a click is refused exactly when its cell is already claimed or the match is decided, and a refused click changes nothing |
| `Match.PlayWritesOnlyChosenCell` | function.js:45-46 | an accepted click was on an empty cell, writes the mark of the player to move into it and leaves the other eight cells as they were |
| `Match.WinTakesPrecedence` | function.js:47-48 | a move that completes a line of the mover is a victory for the mover and ends the match, even when it also fills the board |
| `Match.PlayOutcome` | function.js:47-48 | an accepted click is a victory exactly when the mover has a line, a draw exactly when the mover has no line and the board is full, and it ends the match exactly when it is one of the two |
| `Match.PlayPassesTurn` | function.js:49-51 | every accepted click, including one that wins or draws, hands the turn to the other player; a refused click does not |
| `Match.PlayTally` | function.js:79-84 | on a victory the winner is the player who moved and exactly that player's counter rises by one; otherwise neither counter changes |
| `Match.LoserStartsNextMatch` | function.js:29-32 | after a victory the next match is opened by the loser, after a draw by the player who did not make the last move |
| `Match.RestartKeepsTallyAndTurn` | function.js:29-37 | restarting empties all nine cells and hides the results, and keeps both counters and the player to move |
| `Match.RestartIsConsistent` | function.js:29-37 | whatever the state before, a restarted match satisfies the match invariant |
| `Match.PlayPreservesConsistent` | function.js:44-52 | a click keeps the match invariant: while a match is in progress no line for either player, a free cell, and a player to move who has no more marks than the other and at most one fewer; while the results are shown, some player has a line or every cell is claimed |
| `Match.NoResultsOnEmptyBoard` | function.js:5 | a state showing the results on an empty board violates the match invariant: the results appear only after a win or a draw |
| `Match.OnlyMoverCanWin` | function.js:58-64 | after an accepted click the player who did not move has no line, so testing only the mover's mark misses no win |
| `Match.DrawHasNoLine` | function.js:47-48 | a drawn match ends on a full board on which neither player has a line |
| `Match.InProgressHasFreeCell` | function.js:69-73 | while a match is in progress some click is accepted |
| `Match.EarlyMoveIsPlaced` | function.js:44-52 | a click that puts down at most the mover's second mark never decides the match |
| `Match.ClaimedCellsStay` | function.js:33-46 | within a match a claimed cell keeps its mark through any sequence of clicks |
| `Match.AcceptedClicksAreMarks` | function.js:44-52 | over any sequence of clicks the number of marks on the board grows by exactly the number of accepted clicks: each accepted click puts down one mark, an ignored click none |
| `Match.TurnParity` | function.js:49-51 | after any sequence of clicks the player to move is the starting one exactly when an even number of the clicks were accepted |
| `Match.FirstMatchTurns` | function.js:20-22 | in the first match X is to move after an even number of accepted clicks and O after an odd number |
| `Match.ReplayPreservesConsistent` | function.js:29-52 | every sequence of cell clicks and restart clicks keeps the match invariant |
| `Match.ReachableIsConsistent` | function.js:20-24 | every state a session can reach from its start satisfies the match invariant |
| `Match.ReplayKeepsDecidedByLastMove` | function.js:44-52 | across any sequence of clicks and restarts, whenever the results are shown the player who moved last has a line or every cell is claimed |
| `Match.ReachableIsDecidedByLastMove` | function.js:5 | in every session from the start, the results are visible only after a win by the player who moved last or a draw |
| `Match.TalliesNeverDecrease` | function.js:79-84 | across any sequence of clicks and restarts neither counter goes down, and together they rise by at most one per event |
| `Session.Game.constructor` | function.js:20-24 | a session starts with both counters at 0, X to move, an empty board and no results shown |
| `Session.Game.StartGame` | function.js:29-37 | the clearing loop empties every cell and hides the results, keeping counters and turn, and establishes the invariant |
| `Session.Game.ProcessTurn` | function.js:44-52 | the cells, turn flag, counters and results flag after a click, and the outcome, are exactly those given by `Match.Play`; the invariant is kept |
| `Session.Game.DisplayResults` | function.js:79-88 | called, as at function.js:47-48, only after the mover's win or a draw; on a victory the counter of the player whose turn it still is rises by one, and the results are shown; the class invariant holds afterwards |

## Left out

- The page: reading cells from the document, marks stored as CSS classes, the board's turn indicator, the results panel's text, and the counts written into it (function.js:3-8, 30-32, 50-51, 81, 84, 86). The model keeps the marks in an array and the results panel as the flag `matchOver`.
- Event listeners and their `{once: true}` option (function.js:30, 35-36, 87). The model replaces them with guards. A click on a claimed cell is ignored, because that cell's listener has already fired. A click on any cell while the results are shown is ignored, and so is a restart click while no results are shown. The code itself leaves the listeners of free cells attached after a match is decided. It relies on the results panel being in front of the board, and that panel is drawn by style sheets that are not part of this model.
- `Session.Game.ProcessTurn`: there is no `Event` object. A click is given by the index of its cell, a `Cell` in 0..8, since only the nine cells ever fire this handler.
- A concrete session of several matches run through the class is not included. The order of starting players that such a session would show follows, for all inputs, from `Match.LoserStartsNextMatch` and `Match.PlayPassesTurn`.
