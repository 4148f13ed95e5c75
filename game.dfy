/**
 * The game as the program runs it: the cells are updated in place, and the
 * turn flag and the two win counters are variables that the click handlers
 * change. Every method is proved to do what the matching function of module
 * Match does to the state, and to keep that module's match invariant.
 */
module Session {
  import opened Rules
  import Match

  class Game {
    const cells: array<Mark>
    var circleTurn: bool   // false when X is to move
    var xWins: nat
    var oWins: nat
    var matchOver: bool    // the results panel is shown

    /** The state as a value, for the specification. */
    ghost function Snapshot(): (s: Match.State)
      reads this, cells
      requires cells.Length == 9
    {
      Match.State(cells[..], circleTurn, xWins, oWins, matchOver)
    }

    ghost predicate Valid()
      reads this, cells
    {
      cells.Length == 9 && Match.Consistent(Snapshot())
    }

    /** A session starts with both counters at 0, X to move, and a freshly started match. */
    constructor ()
      ensures Valid() && fresh(cells)
      ensures Snapshot() == Match.INITIAL
    {
      cells := new Mark[9];
      xWins, oWins := 0, 0;
      circleTurn := false;
      matchOver := false;
      new;
      StartGame();
    }

    /** Clears every cell and hides the results; the counters and the turn are kept. */
    method StartGame()
      requires cells.Length == 9
      modifies this`matchOver, cells
      ensures Valid()
      ensures Snapshot() == Match.Restart(old(Snapshot()))
    {
      matchOver := false;
      var k := 0;
      while k < cells.Length
        invariant 0 <= k <= cells.Length
        invariant forall j :: 0 <= j < k ==> cells[j] == Empty
        invariant !matchOver
      {
        cells[k] := Empty;
        k := k + 1;
      }
      assert cells[..] == EMPTY_BOARD;
      Match.RestartIsConsistent(old(Snapshot()));
    }

    /**
     * A click on cell i. A claimed cell, or any cell once the match is
     * decided, takes no click; otherwise the mover's mark goes down, a win is
     * tested before a draw, and the turn passes in every case.
     */
    method ProcessTurn(i: Cell) returns (outcome: Match.Outcome)
      requires Valid()
      modifies this, cells
      ensures Valid()
      ensures Match.Play(old(Snapshot()), i) == Match.Transition(Snapshot(), outcome)
    {
      if matchOver || cells[i] != Empty {
        return Match.Ignored;
      }
      ghost var before := Snapshot();
      var mover: Player := if circleTurn then O else X;
      cells[i] := mover;
      if CheckWin(cells[..], mover) {
        DisplayResults(true);
        outcome := Match.Victory(mover);
      } else if CheckDraw(cells[..]) {
        DisplayResults(false);
        outcome := Match.Drawn;
      } else {
        outcome := Match.Placed;
      }
      circleTurn := !circleTurn;
      Match.PlayPreservesConsistent(before, i);
    }

    /** Ends the match: on a victory the player whose turn it still is gets one more win. */
    method DisplayResults(result: bool)
      requires cells.Length == 9
      requires result ==> CheckWin(cells[..], if circleTurn then O else X)
      requires !result ==> CheckDraw(cells[..])
      modifies this`xWins, this`oWins, this`matchOver
      ensures Valid()
      ensures Snapshot() == Match.Record(old(Snapshot()), result)
    {
      if result {
        if circleTurn {
          oWins := oWins + 1;
        } else {
          xWins := xWins + 1;
        }
      }
      matchOver := true;
    }
  }
}
