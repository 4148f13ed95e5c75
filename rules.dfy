/**
 * The board of the tic-tac-toe game and the two end-of-match tests.
 *
 * The original program keeps a cell's mark as a CSS class ('x' or 'o') on the
 * cell's element; here a board is a sequence of nine marks, numbered row-major
 * from 0 (top left) to 8 (bottom right).
 */
module Rules {

  datatype Mark = Empty | X | O

  /** A mark a player puts down: never Empty. */
  type Player = m: Mark | m != Empty witness X

  /** An index of one of the nine cells. */
  type Cell = i: int | 0 <= i < 9

  type Board = b: seq<Mark> | |b| == 9 witness seq(9, _ => Empty)

  const EMPTY_BOARD: Board := [Empty, Empty, Empty, Empty, Empty, Empty, Empty, Empty, Empty]

  function Other(p: Player): (q: Player)
    ensures q != p
  {
    if p == X then O else X
  }

  /** The eight winning triples: three rows, three columns and two diagonals. */
  const WIN_STATES: seq<seq<Cell>> :=
    [[0, 1, 2],
     [3, 4, 5],
     [6, 7, 8],
     [0, 3, 6],
     [1, 4, 7],
     [2, 5, 8],
     [0, 4, 8],
     [2, 4, 6]]

  /** Every cell of `line` holds `m` (the `every` over one combination). */
  predicate LineFilled(b: Board, line: seq<Cell>, m: Mark) {
    forall k :: 0 <= k < |line| ==> b[line[k]] == m
  }

  /** Some winning triple is filled with `m` (the `some` over all combinations). */
  predicate CheckWin(b: Board, m: Mark) {
    exists k :: 0 <= k < |WIN_STATES| && LineFilled(b, WIN_STATES[k], m)
  }

  /** Every cell has been claimed by one of the two players. */
  predicate CheckDraw(b: Board) {
    forall i :: 0 <= i < |b| ==> b[i] == O || b[i] == X
  }

  // ---------------------------------------------------------------------------
  // A reference definition of "three in a row" by coordinates, independent of
  // the table above.

  function At(b: Board, row: int, col: int): (m: Mark)
    requires 0 <= row < 3 && 0 <= col < 3
  {
    b[3 * row + col]
  }

  ghost predicate RowFilled(b: Board, row: int, m: Mark)
    requires 0 <= row < 3
  {
    forall col :: 0 <= col < 3 ==> At(b, row, col) == m
  }

  ghost predicate ColumnFilled(b: Board, col: int, m: Mark)
    requires 0 <= col < 3
  {
    forall row :: 0 <= row < 3 ==> At(b, row, col) == m
  }

  /** Top left to bottom right. */
  ghost predicate DiagonalFilled(b: Board, m: Mark) {
    At(b, 0, 0) == m && At(b, 1, 1) == m && At(b, 2, 2) == m
  }

  /** Top right to bottom left. */
  ghost predicate AntiDiagonalFilled(b: Board, m: Mark) {
    At(b, 0, 2) == m && At(b, 1, 1) == m && At(b, 2, 0) == m
  }

  ghost predicate ThreeInARow(b: Board, m: Mark) {
    || (exists row :: 0 <= row < 3 && RowFilled(b, row, m))
    || (exists col :: 0 <= col < 3 && ColumnFilled(b, col, m))
    || DiagonalFilled(b, m)
    || AntiDiagonalFilled(b, m)
  }

  // ---------------------------------------------------------------------------
  // Properties of the win and draw tests.

  /** The table of winning triples is exactly the rows, columns and diagonals. */
  lemma CheckWinIsThreeInARow(b: Board, m: Mark)
    ensures CheckWin(b, m) <==> ThreeInARow(b, m)
  {
    if CheckWin(b, m) {
      var k :| 0 <= k < |WIN_STATES| && LineFilled(b, WIN_STATES[k], m);
      var line := WIN_STATES[k];
      assert b[line[0]] == m && b[line[1]] == m && b[line[2]] == m;
      if k < 3 {
        assert RowFilled(b, k, m);
      } else if k < 6 {
        assert ColumnFilled(b, k - 3, m);
      } else if k == 6 {
        assert DiagonalFilled(b, m);
      } else {
        assert AntiDiagonalFilled(b, m);
      }
    }
    if ThreeInARow(b, m) {
      var k: int;
      if row :| 0 <= row < 3 && RowFilled(b, row, m) {
        assert At(b, row, 0) == m && At(b, row, 1) == m && At(b, row, 2) == m;
        k := row;
      } else if col :| 0 <= col < 3 && ColumnFilled(b, col, m) {
        assert At(b, 0, col) == m && At(b, 1, col) == m && At(b, 2, col) == m;
        k := 3 + col;
      } else if DiagonalFilled(b, m) {
        k := 6;
      } else {
        k := 7;
      }
      assert LineFilled(b, WIN_STATES[k], m);
    }
  }

  /** A mark that occupies no cell fills no line; in particular nobody has won on an empty board. */
  lemma NoWinWithoutMarks(b: Board, m: Mark)
    requires forall i :: 0 <= i < 9 ==> b[i] != m
    ensures !CheckWin(b, m)
  {
    forall k | 0 <= k < |WIN_STATES|
      ensures !LineFilled(b, WIN_STATES[k], m)
    {
      assert b[WIN_STATES[k][0]] != m;
    }
  }

  lemma EmptyBoardHasNoWinner(p: Player)
    ensures !CheckWin(EMPTY_BOARD, p) && !CheckDraw(EMPTY_BOARD)
  {
    NoWinWithoutMarks(EMPTY_BOARD, p);
    assert EMPTY_BOARD[0] == Empty;
  }

  /** Putting `p` into a cell cannot complete a line of the other player. */
  lemma PlacingCannotWinForOther(b: Board, i: Cell, p: Player)
    ensures CheckWin(b[i := p], Other(p)) ==> CheckWin(b, Other(p))
  {
    if CheckWin(b[i := p], Other(p)) {
      var k :| 0 <= k < |WIN_STATES| && LineFilled(b[i := p], WIN_STATES[k], Other(p));
      assert LineFilled(b, WIN_STATES[k], Other(p));
    }
  }

  /** Cells that all hold `m` are each counted by the multiset of the board. */
  lemma {:induction false} CountCoversCells(s: seq<Mark>, cells: set<int>, m: Mark)
    requires forall i :: i in cells ==> 0 <= i < |s| && s[i] == m
    ensures multiset(s)[m] >= |cells|
    decreases |s|
  {
    if s == [] {
      assert forall i :: i !in cells;
      assert cells == {};
    } else {
      var n := |s| - 1;
      var init := s[..n];
      CountCoversCells(init, cells - {n}, m);
      assert s == init + [s[n]];
      assert multiset(s) == multiset(init) + multiset{s[n]};
    }
  }

  /** Nobody wins before putting down a third mark. */
  lemma WinNeedsThreeMarks(b: Board, m: Mark)
    ensures CheckWin(b, m) ==> multiset(b)[m] >= 3
  {
    if CheckWin(b, m) {
      var k :| 0 <= k < |WIN_STATES| && LineFilled(b, WIN_STATES[k], m);
      var line := WIN_STATES[k];
      assert line[0] < line[1] < line[2];
      assert b[line[0]] == m && b[line[1]] == m && b[line[2]] == m;
      CountCoversCells(b, {line[0], line[1], line[2]}, m);
    }
  }

  /** The three marks together account for every cell. */
  lemma {:induction false} MarkCountsAddUp(s: seq<Mark>)
    ensures multiset(s)[X] + multiset(s)[O] + multiset(s)[Empty] == |s|
  {
    if s != [] {
      var rest := s[1..];
      MarkCountsAddUp(rest);
      assert s == [s[0]] + rest;
      assert multiset(s) == multiset{s[0]} + multiset(rest);
      match s[0]
      case X => assert multiset(s)[X] == multiset(rest)[X] + 1;
      case O => assert multiset(s)[O] == multiset(rest)[O] + 1;
      case Empty => assert multiset(s)[Empty] == multiset(rest)[Empty] + 1;
    }
  }

  /** A draw is a board on which the two players' marks cover all nine cells. */
  lemma CheckDrawIffNineClaimed(b: Board)
    ensures CheckDraw(b) <==> multiset(b)[X] + multiset(b)[O] == 9
  {
    MarkCountsAddUp(b);
    if CheckDraw(b) {
      assert Empty !in b;
    } else {
      var i :| 0 <= i < 9 && b[i] == Empty;
      assert Empty in multiset(b);
    }
  }
}
