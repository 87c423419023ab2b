/**
  The `TicTacToe` component's state and its three handlers.

  Each piece of component state is a field; a state setter is a plain
  assignment that takes effect at once, in program order. The board is an
  array of nine cells that is never written after it becomes the state: a
  move writes into a fresh copy and installs the copy.
 */
module Component {
  import opened Rules

  class TicTacToe {
    var board: array<Cell>
    var isXNext: bool
    var winner: Cell

    /** The state as a value, to compare with the rules. */
    ghost function State(): GameState
      reads this, board
    {
      GameState(board[..], isXNext, winner)
    }

    /** The board has nine cells. */
    ghost predicate Valid()
      reads this
    {
      board.Length == 9
    }

    /** The state the component mounts with. */
    constructor ()
      ensures Valid() && fresh(board) && Inv(State())
      ensures State() == Initial()
    {
      board := new Cell[9](_ => Empty);
      isXNext := true;
      winner := Empty;
      new;
      assert board[..] == Initial().board;
      InitialInv();
    }

    /** A tap on cell `index`. */
    method HandlePress(index: int)
      requires Valid() && 0 <= index < 9
      modifies this
      ensures Valid()
      ensures Inv(old(State())) ==> Inv(State())
      ensures State() == Press(old(State()), index)
      ensures Ignored(old(State()), index) ==> board == old(board)
      ensures !Ignored(old(State()), index) ==> fresh(board)
    {
      if board[index] != Empty || winner != Empty {
        return;
      }
      ghost var s := State();
      var newBoard := new Cell[9];
      forall i | 0 <= i < 9 {
        newBoard[i] := board[i];
      }
      newBoard[index] := Mark(isXNext);
      ghost var r := Press(s, index);
      assert newBoard[..] == r.board;
      board := newBoard;
      isXNext := !isXNext;
      CheckWinner(newBoard);
      assert State() == r;
      if Inv(s) {
        PressInv(s, index);
      }
    }

    /** The win check: scans the lines in order and records the mark of the
        first complete one; leaves `winner` alone when none is complete. */
    method CheckWinner(b: array<Cell>)
      requires b.Length == 9
      modifies this`winner
      ensures winner == if Winner(b[..]) != Empty then Winner(b[..]) else old(winner)
    {
      var i := 0;
      while i < |Lines|
        invariant 0 <= i <= |Lines|
        invariant WinnerFrom(b[..], i) == Winner(b[..])
        invariant winner == old(winner)
      {
        LinesOnBoard(i);
        var (x, y, z) := Lines[i];
        if b[x] != Empty && b[x] == b[y] && b[x] == b[z] {
          winner := b[x];
          return;
        }
        i := i + 1;
      }
    }

    /** The reset button. */
    method HandleReset()
      modifies this
      ensures Valid() && fresh(board) && Inv(State())
      ensures State() == Initial()
    {
      board := new Cell[9](_ => Empty);
      isXNext := true;
      winner := Empty;
      assert board[..] == Initial().board;
      InitialInv();
    }
  }
}
