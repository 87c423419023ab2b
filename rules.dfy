/**
  The rules of the tic-tac-toe screen, stated on values.

  A board is nine cells in row-major order (index = row * 3 + column). The
  state of a game is the board, whose turn it is and the recorded winner.
  `Press` and `Reset` are the two transitions a player can cause; they are
  the specification the component class in module `Component` is proved
  against, and the lemmas below are the properties the rules guarantee.
 */
module Rules {

  /** A cell holds the mark of X, the mark of O, or nothing (`null`). */
  datatype Cell = Empty | X | O

  /** The eight lines, in the order the win check scans them:
      three rows, three columns, two diagonals. */
  const Lines: seq<(int, int, int)> := [
    (0, 1, 2),
    (3, 4, 5),
    (6, 7, 8),
    (0, 3, 6),
    (1, 4, 7),
    (2, 5, 8),
    (0, 4, 8),
    (2, 4, 6)
  ]

  /** Every cell index that a line names lies on the board. */
  lemma LinesOnBoard(k: int)
    requires 0 <= k < |Lines|
    ensures 0 <= Lines[k].0 < 9 && 0 <= Lines[k].1 < 9 && 0 <= Lines[k].2 < 9
  {
  }

  /** The mark placed by the player whose turn it is. */
  function Mark(isXNext: bool): (m: Cell)
    ensures m != Empty
    ensures m == X <==> isXNext
  {
    if isXNext then X else O
  }

  /** Line `k` is complete: its three cells hold the same mark. */
  predicate Complete(board: seq<Cell>, k: int)
    requires |board| == 9 && 0 <= k < |Lines|
  {
    LinesOnBoard(k);
    var (a, b, c) := Lines[k];
    board[a] != Empty && board[a] == board[b] && board[a] == board[c]
  }

  /** The mark on the first cell of line `k`: when the line is complete,
      a real mark that all three of its cells hold. */
  function Owner(board: seq<Cell>, k: int): (m: Cell)
    requires |board| == 9 && 0 <= k < |Lines|
    ensures Complete(board, k) ==>
      m != Empty && board[Lines[k].0] == m && board[Lines[k].1] == m && board[Lines[k].2] == m
  {
    LinesOnBoard(k);
    board[Lines[k].0]
  }

  /** Line `k` lies on cell `i`. */
  predicate OnLine(k: int, i: int)
    requires 0 <= k < |Lines|
  {
    i == Lines[k].0 || i == Lines[k].1 || i == Lines[k].2
  }

  /** Line `j` is complete and no earlier line is. */
  ghost predicate FirstComplete(board: seq<Cell>, j: int)
    requires |board| == 9
  {
    0 <= j < |Lines| && Complete(board, j) &&
    forall i :: 0 <= i < j ==> !Complete(board, i)
  }

  /** Scans the lines from the `k`-th on and gives the mark of the first
      complete one, or `Empty` when none of them is complete. */
  function WinnerFrom(board: seq<Cell>, k: int): Cell
    requires |board| == 9 && 0 <= k <= |Lines|
    decreases |Lines| - k
  {
    if k == |Lines| then Empty
    else if Complete(board, k) then Owner(board, k)
    else WinnerFrom(board, k + 1)
  }

  /** The winner a board shows. */
  function Winner(board: seq<Cell>): Cell
    requires |board| == 9
  {
    WinnerFrom(board, 0)
  }

  /** The scan from line `k` finds nothing exactly when none of the lines
      from `k` on is complete, and otherwise finds the mark of the first
      complete one. */
  lemma {:induction false} WinnerFromSpec(board: seq<Cell>, k: int)
    requires |board| == 9 && 0 <= k <= |Lines|
    ensures WinnerFrom(board, k) == Empty <==> forall j :: k <= j < |Lines| ==> !Complete(board, j)
    ensures WinnerFrom(board, k) != Empty ==>
      exists j :: k <= j < |Lines| && Complete(board, j) && Owner(board, j) == WinnerFrom(board, k) &&
        forall i :: k <= i < j ==> !Complete(board, i)
    decreases |Lines| - k
  {
    if k < |Lines| && !Complete(board, k) {
      WinnerFromSpec(board, k + 1);
    }
  }

  /** The winner is `Empty` exactly when no line is complete; otherwise it
      is the mark of the first complete line in scan order. */
  lemma WinnerSpec(board: seq<Cell>)
    requires |board| == 9
    ensures Winner(board) == Empty <==> forall j :: 0 <= j < |Lines| ==> !Complete(board, j)
    ensures Winner(board) != Empty ==> exists j :: FirstComplete(board, j) && Owner(board, j) == Winner(board)
  {
    WinnerFromSpec(board, 0);
  }

  /** The first complete line is unique, so the winner is determined by it. */
  lemma WinnerIsFirstLine(board: seq<Cell>, j: int)
    requires |board| == 9 && FirstComplete(board, j)
    ensures Winner(board) == Owner(board, j)
  {
    var w := Winner(board);
    WinnerSpec(board);
    var j' :| FirstComplete(board, j') && Owner(board, j') == w;
    assert !(j' < j) && !(j < j');
  }

  /** The number of cells holding `c`. */
  function Count(board: seq<Cell>, c: Cell): nat
  {
    if board == [] then 0
    else (if board[0] == c then 1 else 0) + Count(board[1..], c)
  }

  /** Writing `m` over cell `i` moves one unit of count from the old
      content of the cell to `m`. */
  lemma {:induction false} CountUpdate(board: seq<Cell>, i: int, m: Cell, c: Cell)
    requires 0 <= i < |board|
    ensures Count(board[i := m], c) ==
      Count(board, c) - (if board[i] == c then 1 else 0) + (if m == c then 1 else 0)
  {
    if i == 0 {
      assert board[i := m][1..] == board[1..];
    } else {
      assert board[i := m][1..] == board[1..][i - 1 := m];
      CountUpdate(board[1..], i - 1, m, c);
    }
  }

  /** The three pieces of component state. */
  datatype GameState = GameState(board: seq<Cell>, isXNext: bool, winner: Cell)

  /** Nine empty cells, X to move, no winner. */
  function Initial(): GameState
  {
    GameState(seq(9, _ => Empty), true, Empty)
  }

  /** A press is ignored when the cell is taken or a winner is recorded. */
  predicate Ignored(s: GameState, index: int)
    requires |s.board| == 9 && 0 <= index < 9
  {
    s.board[index] != Empty || s.winner != Empty
  }

  /** A press on cell `index`: ignored, or the mover's mark is written into
      the cell, the turn passes to the other player, and the win check runs
      on the new board. */
  function Press(s: GameState, index: int): (r: GameState)
    requires |s.board| == 9 && 0 <= index < 9
    ensures |r.board| == 9
  {
    if s.board[index] != Empty || s.winner != Empty then s
    else
      var board := s.board[index := Mark(s.isXNext)];
      var w := Winner(board);
      GameState(board, !s.isXNext, if w != Empty then w else s.winner)
  }

  /** An ignored press changes nothing. An accepted one writes the mover's
      mark into the pressed cell and no other, always passes the turn, and
      records a winner exactly when the new board has a complete line: the
      mark of the first complete line in scan order. */
  lemma PressSpec(s: GameState, index: int)
    requires |s.board| == 9 && 0 <= index < 9
    ensures Ignored(s, index) ==> Press(s, index) == s
    ensures !Ignored(s, index) ==>
      var r := Press(s, index);
      r.board[index] == Mark(s.isXNext) &&
      (forall i :: 0 <= i < 9 && i != index ==> r.board[i] == s.board[i]) &&
      r.isXNext == !s.isXNext &&
      (r.winner != Empty <==> exists j :: 0 <= j < |Lines| && Complete(r.board, j)) &&
      (r.winner != Empty ==> exists j :: FirstComplete(r.board, j) && Owner(r.board, j) == r.winner)
  {
    if !Ignored(s, index) {
      WinnerSpec(Press(s, index).board);
    }
  }

  /** The reset button: back to the initial state, whatever the state was. */
  function Reset(s: GameState): (r: GameState)
    ensures |r.board| == 9 && r.isXNext && r.winner == Empty
    ensures forall i :: 0 <= i < 9 ==> r.board[i] == Empty
  {
    Initial()
  }

  /** What a player can do on the screen: tap a cell or tap Reset. */
  datatype Action = Tap(index: int) | ResetTap

  predicate ValidAction(a: Action)
  {
    a.Tap? ==> 0 <= a.index < 9
  }

  function Step(s: GameState, a: Action): (r: GameState)
    requires |s.board| == 9 && ValidAction(a)
    ensures |r.board| == 9
  {
    match a
    case Tap(i) => Press(s, i)
    case ResetTap => Reset(s)
  }

  /** The state after the actions, one after the other. */
  function Run(s: GameState, actions: seq<Action>): (r: GameState)
    requires |s.board| == 9 && forall k :: 0 <= k < |actions| ==> ValidAction(actions[k])
    ensures |r.board| == 9
    decreases |actions|
  {
    if actions == [] then s else Run(Step(s, actions[0]), actions[1..])
  }

  /** Turn alternation: X has as many marks as O or one more, and it is X's
      turn exactly when the counts are equal. */
  predicate TurnBalanced(s: GameState)
  {
    var nx, no := Count(s.board, X), Count(s.board, O);
    (nx == no || nx == no + 1) && (s.isXNext <==> nx == no)
  }

  /** What holds of every state a game can reach: turn alternation, the
      recorded winner is the one the board shows, and every complete line
      belongs to that winner (so the scan order cannot matter). */
  ghost predicate Inv(s: GameState)
  {
    |s.board| == 9 && TurnBalanced(s) && s.winner == Winner(s.board) &&
    forall j :: 0 <= j < |Lines| && Complete(s.board, j) ==> Owner(s.board, j) == s.winner
  }

  lemma InitialInv()
    ensures Inv(Initial())
  {
    var s := Initial();
    var e := s.board;
    assert e == [Empty] + e[1..];
    assert Count(e, X) == 0 by { EmptyCount(e, X); }
    assert Count(e, O) == 0 by { EmptyCount(e, O); }
  }

  lemma {:induction false} EmptyCount(board: seq<Cell>, c: Cell)
    requires c != Empty && forall i :: 0 <= i < |board| ==> board[i] == Empty
    ensures Count(board, c) == 0
  {
    if board != [] {
      EmptyCount(board[1..], c);
    }
  }

  /** An accepted press keeps the marks balanced between the players. */
  lemma PressKeepsTurnBalanced(s: GameState, index: int)
    requires |s.board| == 9 && 0 <= index < 9 && TurnBalanced(s)
    ensures TurnBalanced(Press(s, index))
  {
    if !Ignored(s, index) {
      var m := Mark(s.isXNext);
      CountUpdate(s.board, index, m, X);
      CountUpdate(s.board, index, m, O);
    }
  }

  /** A line complete after a move either was complete before it or runs
      through the cell just written. */
  lemma NewLineThroughMove(board: seq<Cell>, index: int, m: Cell, j: int)
    requires |board| == 9 && 0 <= index < 9 && 0 <= j < |Lines|
    requires Complete(board[index := m], j) && !Complete(board, j)
    ensures OnLine(j, index) && Owner(board[index := m], j) == m
  {
    LinesOnBoard(j);
  }

  /** Every transition keeps the invariant. */
  lemma PressInv(s: GameState, index: int)
    requires Inv(s) && 0 <= index < 9
    ensures Inv(Press(s, index))
  {
    PressKeepsTurnBalanced(s, index);
    if !Ignored(s, index) {
      var m := Mark(s.isXNext);
      var board := s.board[index := m];
      var r := Press(s, index);
      WinnerSpec(s.board);
      WinnerSpec(board);
      forall j | 0 <= j < |Lines| && Complete(board, j)
        ensures Owner(board, j) == m
      {
        NewLineThroughMove(s.board, index, m, j);
      }
      if r.winner != Empty {
        var j :| FirstComplete(board, j) && Owner(board, j) == r.winner;
      }
    }
  }

  lemma ResetInv(s: GameState)
    ensures Inv(Reset(s))
  {
    InitialInv();
  }

  /** Every state reachable from the initial one satisfies the invariant. */
  lemma {:induction false} RunInv(s: GameState, actions: seq<Action>)
    requires Inv(s) && forall k :: 0 <= k < |actions| ==> ValidAction(actions[k])
    ensures Inv(Run(s, actions))
    decreases |actions|
  {
    if actions != [] {
      var a := actions[0];
      if a.Tap? {
        PressInv(s, a.index);
      } else {
        ResetInv(s);
      }
      RunInv(Step(s, a), actions[1..]);
    }
  }

  /** In a reachable state, whichever complete line the scan met first, the
      winner would be the same: the scan order has no visible effect. */
  lemma ScanOrderIrrelevant(actions: seq<Action>, j: int)
    requires forall k :: 0 <= k < |actions| ==> ValidAction(actions[k])
    requires 0 <= j < |Lines| && Complete(Run(Initial(), actions).board, j)
    ensures Run(Initial(), actions).winner == Owner(Run(Initial(), actions).board, j) != Empty
  {
    InitialInv();
    RunInv(Initial(), actions);
  }

  /** Once a winner is recorded, taps change nothing, however many. */
  lemma {:induction false} WinnerIsFinal(s: GameState, actions: seq<Action>)
    requires |s.board| == 9 && s.winner != Empty
    requires forall k :: 0 <= k < |actions| ==> actions[k].Tap? && ValidAction(actions[k])
    ensures Run(s, actions) == s
    decreases |actions|
  {
    if actions != [] {
      WinnerIsFinal(Step(s, actions[0]), actions[1..]);
    }
  }

  /** There is no draw: on a full board without a complete line the winner
      stays `Empty`, and every tap is ignored only because its cell is taken. */
  lemma FullBoardNoDraw(s: GameState, index: int)
    requires Inv(s) && 0 <= index < 9
    requires forall i :: 0 <= i < 9 ==> s.board[i] != Empty
    requires forall j :: 0 <= j < |Lines| ==> !Complete(s.board, j)
    ensures s.winner == Empty && Ignored(s, index) && Press(s, index) == s
  {
    WinnerSpec(s.board);
  }
}
