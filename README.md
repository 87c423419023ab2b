# Tic-tac-toe rules engine of the `TicTacToe` component

The app is a single React Native screen with a 3×3 tic-tac-toe board. Its
logic is the `TicTacToe` component in `App.tsx`. The component holds three
pieces of state:

- `board`: nine cells, each `'X'`, `'O'` or `null`;
- `isXNext`: whose turn it is;
- `winner`: `'X'`, `'O'` or `null`.

Three handlers change that state:

- `handlePress(index)` ignores a tap on a taken cell or after a win. Otherwise
  it copies the board, writes the mover's mark into the copy, installs the
  copy, passes the turn and runs the win check on the new board.
- `checkWinner(board)` scans eight fixed lines in order: three rows, three
  columns, two diagonals. It records the mark of the first line whose three
  cells hold the same mark, and leaves `winner` alone when there is none.
- `handleReset()` puts back the initial state: nine empty cells, X to move,
  no winner.

The project has three modules:

- `Rules` (`rules.dfy`) states the game on values. It has the cell type, the
  line table, the win scan `Winner`, the transitions `Press` and `Reset`, and
  `Run` for a sequence of taps. It proves what the transitions guarantee.
- `Component` (`component.dfy`) is the component as a class. Its fields are
  `board: array<Cell>`, `isXNext` and `winner`. `HandlePress`, `CheckWinner`
  and `HandleReset` are methods. Each state setter is a plain field assignment
  that takes effect at once, in program order. `CheckWinner` is the source's
  loop over the line table, proved against `Winner`. `HandlePress` allocates a
  fresh array for the new board, as `board.slice()` does, so an old board is
  never written.
- `Scenarios` (`scenarios.dfy`) plays concrete games through the rules.

The rules keep an invariant in every reachable state, proved in `RunInv`:

- X has as many marks as O, or one more;
- it is X's turn exactly when the counts are equal;
- the recorded winner is the mark `Winner` finds on the board;
- every complete line belongs to that winner.

The last clause means only one player can ever hold a complete line. So the
scan order of the lines has no visible effect in a real game
(`ScanOrderIrrelevant`). The order still decides on boards no game can reach
(`ScanOrderDecides`, `TwoLinesUnreachable`).

Three behaviours of the code are worth stating on their own:

- The turn passes on every accepted move, including the winning one:
  `App.tsx:18` runs before the win check on line 19. `TopRowWin` shows that O
  is to move after X wins.
- There is no draw outcome. A full board without a line keeps
  `winner == null`, and every further tap is ignored only because its cell
  is taken (`FullBoardNoDraw`, `FullBoardWithoutWinner`).
- A rejected tap is ignored silently: the state is unchanged and no signal is
  returned.

## Model

| member | source | states |
|---|---|---|
| Rules.Lines | App.tsx:23-32 | the eight index triples in the source's order: three rows, three columns, two diagonals (the constant itself; `LinesOnBoard` proves every index is a board cell) |
| Rules.LinesOnBoard | App.tsx:23-32 | every index that a line of the table names is a cell of the nine-cell board |
| Rules.Complete | App.tsx:35 | no contract of its own: the body is the test of line 35, first cell non-null and equal to the other two; `Owner` and `WinnerSpec` state what it means for the winner |
| Rules.Owner | App.tsx:35-36 | the mark recorded for a complete line is a real mark (never null) that all three of its cells hold |
| Rules.WinnerFrom | App.tsx:33-39 | no contract of its own: the body is the loop from line k with its early return; `WinnerFromSpec` specifies it |
| Rules.Winner | App.tsx:22-40 | no contract of its own: the body is the whole scan from line 0; `WinnerSpec` and `WinnerIsFirstLine` specify it |
| Rules.Initial | App.tsx:7-9 | no contract of its own: the body is the three `useState` initial values; `InitialInv` proves the invariant of it, and `Reset`, the constructor and `HandleReset` state its contents |
| Rules.Ignored | App.tsx:12 | no contract of its own: the body is the guard, cell taken or winner recorded; `PressSpec` and `WinnerIsFinal` state what an ignored press does |
| Rules.Mark | App.tsx:16 | the mark written is never empty, and it is X exactly when `isXNext` holds |
| Rules.WinnerFromSpec | App.tsx:33-39 | the scan from line k finds nothing exactly when no line from k on is complete; otherwise it finds the mark of the first complete line from k on |
| Rules.WinnerSpec | App.tsx:22-40 | the winner of a board is empty exactly when none of the eight lines is complete; otherwise it is the mark of the first complete line in table order |
| Rules.WinnerIsFirstLine | App.tsx:33-37 | when line j is the first complete line, the winner is the mark on line j |
| Rules.Press | App.tsx:11-20 | a press keeps the board at nine cells |
| Rules.PressSpec | App.tsx:11-20 | a press on a taken cell or after a win changes nothing; an accepted press writes the mover's mark into that cell only, always passes the turn, and records a winner exactly when the new board has a complete line: the mark of the first complete line |
| Rules.Reset | App.tsx:54-58 | reset gives nine empty cells, X to move and no winner, whatever the state was |
| Rules.InitialInv | App.tsx:7-9 | the initial state satisfies the game invariant |
| Rules.PressKeepsTurnBalanced | App.tsx:15-18 | after any press, X has as many marks as O or one more, and it is X's turn exactly when the counts are equal |
| Rules.PressInv | App.tsx:11-40 | a press keeps the invariant: turn alternation, the recorded winner equals the board's winner, every complete line belongs to the winner |
| Rules.ResetInv | App.tsx:54-58 | reset re-establishes the invariant from any state |
| Rules.RunInv | App.tsx:7-58 | every state reached from an invariant state by any sequence of taps and resets satisfies the invariant |
| Rules.ScanOrderIrrelevant | App.tsx:23-38 | in every state reachable from the initial state, every complete line holds the recorded winner's mark, so the scan order cannot change the winner |
| Rules.WinnerIsFinal | App.tsx:12-14 | once a winner is recorded, any sequence of taps leaves board, turn and winner unchanged |
| Rules.FullBoardNoDraw | App.tsx:11-39 | on a full board with no complete line, the winner stays empty, and each tap is ignored only because its cell is taken |
| Component.TicTacToe.constructor | App.tsx:7-9 | the component mounts with nine empty cells, X to move and no winner, a state that satisfies the invariant |
| Component.TicTacToe.HandlePress | App.tsx:11-20 | the new state is `Press` of the old one; an ignored tap keeps the same board array; an accepted tap installs a fresh array; the invariant is kept |
| Component.TicTacToe.CheckWinner | App.tsx:22-40 | the loop over the line table sets `winner` to `Winner` of the board when a line is complete, and leaves it as it was otherwise |
| Component.TicTacToe.HandleReset | App.tsx:54-58 | the new state equals the initial state, with a fresh board array, and satisfies the invariant |
| Scenarios.TopRowWin | App.tsx:11-40 | taps 0, 4, 1, 3, 2 from the start give X the top row and the win, and the turn passes to O on the winning move |
| Scenarios.FullBoardWithoutWinner | App.tsx:11-40 | taps 0, 1, 2, 4, 3, 5, 7, 6, 8 fill the board with no complete line; no winner is recorded and O is to move |
| Scenarios.FullBoardTapIgnored | App.tsx:12-14 | every tap on that full board is ignored |
| Scenarios.RepeatedTapIgnored | App.tsx:12-14 | a second tap on cell 0 gives the same state as the single tap |
| Scenarios.TwoLinesUnreachable | App.tsx:11-40 | no sequence of taps and resets reaches the board where X holds the top row and O the middle row |
| Scenarios.ScanOrderDecides | App.tsx:23-37 | on a board with both the top row and the middle row complete, the top row decides the winner |

## Left out

- Rendering is not modelled: `renderSquare`, the returned view tree
  (`App.tsx:42-52`, `App.tsx:60-75`), the style sheet (`App.tsx:78-112`) and the
  `App` wrapper (`App.tsx:114-120`). They have no logic.
- React's asynchronous, batched state updates are not modelled, and neither is
  a handler reading a stale `board` through its closure. The setters are
  immediate assignments in program order.
- The touch wiring (`onPress`) is not modelled. Only indices 0 to 8 are ever
  rendered, so `HandlePress` and `Press` require `0 <= index < 9`. JavaScript
  array growth on other indices is out of scope.
