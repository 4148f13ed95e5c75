/**
 * The match state machine of the tic-tac-toe game, as values: the state the
 * program keeps in its globals and on the page, and what a cell click and a
 * restart do to it. The class in game.dfy is proved to follow these functions.
 */
module Match {
  import opened Rules

  /** What one click on a cell did. */
  datatype Outcome =
    | Ignored            // the cell was already claimed, or the match is over
    | Placed             // the mark went down and the match goes on
    | Victory(winner: Player)
    | Drawn

  /**
   * circleTurn is false when X is to move; matchOver stands for the results
   * panel being shown, which happens exactly when a match has been decided
   * (Consistent and DecidedByLastMove state both directions).
   */
  datatype State = State(board: Board, circleTurn: bool, xWins: nat, oWins: nat, matchOver: bool)

  datatype Transition = Transition(next: State, outcome: Outcome)

  /** The first match of a session: X to move, no wins yet, an empty board. */
  const INITIAL: State := State(EMPTY_BOARD, false, 0, 0, false)

  function Mover(s: State): (p: Player) {
    if s.circleTurn then O else X
  }

  /** Starting a new match: clear every cell and hide the results; tally and turn are kept. */
  function Restart(s: State): (t: State) {
    s.(board := EMPTY_BOARD, matchOver := false)
  }

  /** Showing the results: on a victory the player whose turn it is gets a win. */
  function Record(s: State, won: bool): (t: State) {
    var s' := if !won then s
              else if s.circleTurn then s.(oWins := s.oWins + 1)
              else s.(xWins := s.xWins + 1);
    s'.(matchOver := true)
  }

  /**
   * A click on cell i: write the mover's mark, test for a win and then for a
   * draw, and always hand the turn over, also after the match has ended.
   */
  function Play(s: State, i: Cell): (r: Transition) {
    if s.matchOver || s.board[i] != Empty then Transition(s, Ignored)
    else
      var t := Evaluate(s.(board := s.board[i := Mover(s)]));
      Transition(t.next.(circleTurn := !s.circleTurn), t.outcome)
  }

  /** The tests that follow a placed mark, for the player who placed it. */
  function Evaluate(placed: State): (r: Transition) {
    var p := Mover(placed);
    if CheckWin(placed.board, p) then Transition(Record(placed, true), Victory(p))
    else if CheckDraw(placed.board) then Transition(Record(placed, false), Drawn)
    else Transition(placed, Placed)
  }

  // ---------------------------------------------------------------------------
  // One click.

  /** A click is refused exactly when its cell is claimed or the match is decided, and then nothing changes. */
  lemma PlayIgnoresBlockedCell(s: State, i: Cell)
    ensures Play(s, i).outcome == Ignored <==> (s.matchOver || s.board[i] != Empty)
    ensures Play(s, i).outcome == Ignored ==> Play(s, i).next == s
  {
  }

  /** An accepted click writes the mover's mark into the chosen, empty cell and nowhere else. */
  lemma PlayWritesOnlyChosenCell(s: State, i: Cell)
    requires Play(s, i).outcome != Ignored
    ensures s.board[i] == Empty && Play(s, i).next.board[i] == Mover(s)
    ensures forall j :: 0 <= j < 9 && j != i ==> Play(s, i).next.board[j] == s.board[j]
  {
  }

  /** A win is tested first: a move that completes a line wins even if it also fills the board. */
  lemma WinTakesPrecedence(s: State, i: Cell)
    requires !s.matchOver && s.board[i] == Empty
    requires CheckWin(s.board[i := Mover(s)], Mover(s))
    ensures Play(s, i).outcome == Victory(Mover(s))
    ensures Play(s, i).next.matchOver
  {
  }

  /** A match is decided exactly by a win of the mover or, failing that, a full board. */
  lemma PlayOutcome(s: State, i: Cell)
    requires Play(s, i).outcome != Ignored
    ensures var t := Play(s, i);
      && (t.outcome.Victory? <==> CheckWin(t.next.board, Mover(s)))
      && (t.outcome == Drawn <==> !CheckWin(t.next.board, Mover(s)) && CheckDraw(t.next.board))
      && (t.next.matchOver <==> t.outcome != Placed)
  {
  }

  /** The turn passes on every accepted click, whether or not it ended the match. */
  lemma PlayPassesTurn(s: State, i: Cell)
    ensures Play(s, i).outcome != Ignored ==> Mover(Play(s, i).next) == Other(Mover(s))
    ensures Play(s, i).outcome == Ignored ==> Mover(Play(s, i).next) == Mover(s)
  {
  }

  /** Only the winner's tally moves, by one; a draw or an ordinary move leaves both alone. */
  lemma PlayTally(s: State, i: Cell)
    ensures var t := Play(s, i);
      match t.outcome
      case Victory(w) =>
        && w == Mover(s)
        && t.next.xWins == s.xWins + (if w == X then 1 else 0)
        && t.next.oWins == s.oWins + (if w == O then 1 else 0)
      case _ => t.next.xWins == s.xWins && t.next.oWins == s.oWins
  {
  }

  /** The player who lost, or who did not make the last move of a draw, opens the next match. */
  lemma LoserStartsNextMatch(s: State, i: Cell)
    ensures var t := Play(s, i);
      && (t.outcome.Victory? ==> Mover(Restart(t.next)) == Other(t.outcome.winner))
      && (t.outcome == Drawn ==> Mover(Restart(t.next)) == Other(Mover(s)))
  {
  }

  /** Restarting empties every cell and keeps the tally and whose turn it is. */
  lemma RestartKeepsTallyAndTurn(s: State)
    ensures forall j :: 0 <= j < 9 ==> Restart(s).board[j] == Empty
    ensures Restart(s).xWins == s.xWins && Restart(s).oWins == s.oWins
    ensures Mover(Restart(s)) == Mover(s) && !Restart(s).matchOver
  {
  }

  // ---------------------------------------------------------------------------
  // The invariant of a match in progress.

  /** It is the turn of the player with no more marks than the other, and at most one fewer. */
  ghost predicate Balanced(b: Board, p: Player) {
    multiset(b)[p] <= multiset(b)[Other(p)] <= multiset(b)[p] + 1
  }

  /**
   * While a match is in progress nobody has a line, some cell is free, and
   * the turns have alternated; the results are shown only on a board where
   * somebody has a line or every cell is claimed.
   */
  ghost predicate Consistent(s: State) {
    && (!s.matchOver ==>
      && !CheckWin(s.board, X)
      && !CheckWin(s.board, O)
      && !CheckDraw(s.board)
      && Balanced(s.board, Mover(s)))
    && (s.matchOver ==> CheckWin(s.board, X) || CheckWin(s.board, O) || CheckDraw(s.board))
  }

  lemma RestartIsConsistent(s: State)
    ensures Consistent(Restart(s))
  {
    EmptyBoardHasNoWinner(X);
    EmptyBoardHasNoWinner(O);
    assert multiset(EMPTY_BOARD)[X] == 0 && multiset(EMPTY_BOARD)[O] == 0;
  }

  /** Results shown on an empty board break the invariant, so no session reaches them. */
  lemma NoResultsOnEmptyBoard(s: State)
    requires s.board == EMPTY_BOARD && s.matchOver
    ensures !Consistent(s)
  {
    EmptyBoardHasNoWinner(X);
    EmptyBoardHasNoWinner(O);
  }

  lemma PlayPreservesConsistent(s: State, i: Cell)
    requires Consistent(s)
    ensures Consistent(Play(s, i).next)
  {
    var t := Play(s, i);
    if t.outcome == Placed {
      var p := Mover(s);
      var b := s.board[i := p];
      PlacingCannotWinForOther(s.board, i, p);
      assert multiset(b) == multiset(s.board) - multiset{Empty} + multiset{p};
    }
  }

  /** Since the other player has no line, testing only the mover's mark misses no win. */
  lemma OnlyMoverCanWin(s: State, i: Cell)
    requires Consistent(s) && Play(s, i).outcome != Ignored
    ensures !CheckWin(Play(s, i).next.board, Other(Mover(s)))
  {
    PlacingCannotWinForOther(s.board, i, Mover(s));
  }

  /** A drawn match ends on a full board on which neither player has a line. */
  lemma DrawHasNoLine(s: State, i: Cell)
    requires Consistent(s) && Play(s, i).outcome == Drawn
    ensures var b := Play(s, i).next.board;
      CheckDraw(b) && !CheckWin(b, X) && !CheckWin(b, O)
  {
    OnlyMoverCanWin(s, i);
  }

  /** A match in progress always has a free cell, so a move is always possible. */
  lemma InProgressHasFreeCell(s: State)
    requires Consistent(s) && !s.matchOver
    ensures exists j :: 0 <= j < 9 && Play(s, j).outcome != Ignored
  {
    var j :| 0 <= j < 9 && s.board[j] != O && s.board[j] != X;
    assert Play(s, j).outcome != Ignored;
  }

  /** No match is decided before the mover's third mark goes down. */
  lemma EarlyMoveIsPlaced(s: State, i: Cell)
    requires Consistent(s) && !s.matchOver && s.board[i] == Empty
    requires multiset(s.board)[Mover(s)] < 2
    ensures Play(s, i).outcome == Placed
  {
    var p := Mover(s);
    var b := s.board[i := p];
    assert multiset(b) == multiset(s.board) - multiset{Empty} + multiset{p};
    WinNeedsThreeMarks(b, p);
    CheckDrawIffNineClaimed(b);
  }

  // ---------------------------------------------------------------------------
  // Several clicks within one match.

  function PlayAll(s: State, cells: seq<Cell>): (t: State)
    decreases |cells|
  {
    if cells == [] then s else PlayAll(Play(s, cells[0]).next, cells[1..])
  }

  /** The number of clicks in `cells` that are not ignored. */
  function Accepted(s: State, cells: seq<Cell>): (n: nat)
    decreases |cells|
  {
    if cells == [] then 0
    else (if Play(s, cells[0]).outcome == Ignored then 0 else 1) + Accepted(Play(s, cells[0]).next, cells[1..])
  }

  /** Within a match a claimed cell keeps its mark. */
  lemma {:induction false} ClaimedCellsStay(s: State, cells: seq<Cell>, j: Cell)
    requires s.board[j] != Empty
    ensures PlayAll(s, cells).board[j] == s.board[j]
    decreases |cells|
  {
    if cells != [] {
      ClaimedCellsStay(Play(s, cells[0]).next, cells[1..], j);
    }
  }

  /** Each accepted click puts down exactly one mark; an ignored click puts down none. */
  lemma {:induction false} AcceptedClicksAreMarks(s: State, cells: seq<Cell>)
    ensures var b := PlayAll(s, cells).board;
      multiset(b)[X] + multiset(b)[O] == multiset(s.board)[X] + multiset(s.board)[O] + Accepted(s, cells)
    decreases |cells|
  {
    if cells != [] {
      var i := cells[0];
      var t := Play(s, i);
      if t.outcome != Ignored {
        var b := s.board[i := Mover(s)];
        assert t.next.board == b;
        assert multiset(b) == multiset(s.board) - multiset{Empty} + multiset{Mover(s)};
      }
      AcceptedClicksAreMarks(t.next, cells[1..]);
    }
  }

  /** The turn has passed once per accepted click. */
  lemma {:induction false} TurnParity(s: State, cells: seq<Cell>)
    ensures Mover(PlayAll(s, cells)) ==
      if Accepted(s, cells) % 2 == 0 then Mover(s) else Other(Mover(s))
    decreases |cells|
  {
    if cells != [] {
      var t := Play(s, cells[0]);
      TurnParity(t.next, cells[1..]);
      PlayPassesTurn(s, cells[0]);
    }
  }

  /** In the first match X moves after an even number of accepted clicks and O after an odd number. */
  lemma FirstMatchTurns(cells: seq<Cell>)
    ensures Mover(PlayAll(INITIAL, cells)) == if Accepted(INITIAL, cells) % 2 == 0 then X else O
  {
    TurnParity(INITIAL, cells);
  }

  // ---------------------------------------------------------------------------
  // A whole session: cell clicks and restart clicks in any order.

  datatype Event = Click(cell: Cell) | RestartClick

  /**
   * The restart button only listens while the results are shown, and the
   * cells only while a match is in progress (Play ignores the rest).
   */
  function Dispatch(s: State, e: Event): (t: State) {
    match e
    case Click(i) => Play(s, i).next
    case RestartClick => if s.matchOver then Restart(s) else s
  }

  function Replay(s: State, events: seq<Event>): (t: State)
    decreases |events|
  {
    if events == [] then s else Replay(Dispatch(s, events[0]), events[1..])
  }

  /** Every state a session can reach satisfies the match invariant. */
  lemma {:induction false} ReplayPreservesConsistent(s: State, events: seq<Event>)
    requires Consistent(s)
    ensures Consistent(Replay(s, events))
    decreases |events|
  {
    if events != [] {
      match events[0] {
        case Click(i) => PlayPreservesConsistent(s, i);
        case RestartClick => RestartIsConsistent(s);
      }
      ReplayPreservesConsistent(Dispatch(s, events[0]), events[1..]);
    }
  }

  lemma ReachableIsConsistent(events: seq<Event>)
    ensures Consistent(Replay(INITIAL, events))
  {
    RestartIsConsistent(INITIAL);
    assert Restart(INITIAL) == INITIAL;
    ReplayPreservesConsistent(INITIAL, events);
  }

  /**
   * Once the turn has passed, the results stand for a decision by the player
   * who moved last: that player has a line, or every cell is claimed.
   */
  ghost predicate DecidedByLastMove(s: State) {
    s.matchOver ==> CheckWin(s.board, Other(Mover(s))) || CheckDraw(s.board)
  }

  /** The results are shown only after a win or a draw, in every session. */
  lemma {:induction false} ReplayKeepsDecidedByLastMove(s: State, events: seq<Event>)
    requires DecidedByLastMove(s)
    ensures DecidedByLastMove(Replay(s, events))
    decreases |events|
  {
    if events != [] {
      if events[0].Click? {
        var i := events[0].cell;
        var t := Play(s, i);
        if t.outcome != Ignored {
          assert Other(Mover(t.next)) == Mover(s);
        }
      }
      ReplayKeepsDecidedByLastMove(Dispatch(s, events[0]), events[1..]);
    }
  }

  lemma ReachableIsDecidedByLastMove(events: seq<Event>)
    ensures DecidedByLastMove(Replay(INITIAL, events))
  {
    ReplayKeepsDecidedByLastMove(INITIAL, events);
  }

  /** Tallies never go down, and they rise by at most one per event. */
  lemma {:induction false} TalliesNeverDecrease(s: State, events: seq<Event>)
    ensures Replay(s, events).xWins >= s.xWins && Replay(s, events).oWins >= s.oWins
    ensures Replay(s, events).xWins + Replay(s, events).oWins <= s.xWins + s.oWins + |events|
    decreases |events|
  {
    if events != [] {
      if events[0].Click? {
        PlayTally(s, events[0].cell);
      }
      TalliesNeverDecrease(Dispatch(s, events[0]), events[1..]);
    }
  }
}
