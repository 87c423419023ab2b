/**
  Concrete games played through the rules, from the initial state.
 */
module Scenarios {
  import opened Rules

  /** Running an action and then the rest. */
  lemma RunCons(s: GameState, a: Action, rest: seq<Action>)
    requires |s.board| == 9 && ValidAction(a)
    requires forall k :: 0 <= k < |rest| ==> ValidAction(rest[k])
    ensures Run(s, [a] + rest) == Run(Step(s, a), rest)
  {
    assert ([a] + rest)[1..] == rest;
  }

  const E := Empty

  // X plays 0, 1, 2 and O plays 4, 3: the states after each move.
  const Top1 := GameState([X, E, E, E, E, E, E, E, E], false, E)
  const Top2 := GameState([X, E, E, E, O, E, E, E, E], true, E)
  const Top3 := GameState([X, X, E, E, O, E, E, E, E], false, E)
  const Top4 := GameState([X, X, E, O, O, E, E, E, E], true, E)
  const Top5 := GameState([X, X, X, O, O, E, E, E, E], false, X)

  lemma TopRowMoves()
    ensures Press(Initial(), 0) == Top1 && Press(Top1, 4) == Top2 && Press(Top2, 1) == Top3
    ensures Press(Top3, 3) == Top4 && Press(Top4, 2) == Top5
  {
    assert Initial().board == [E, E, E, E, E, E, E, E, E];
  }

  /** X completes the top row on the fifth move and wins; the turn still
      passes to O on that move. */
  lemma TopRowWin()
    ensures Run(Initial(), [Tap(0), Tap(4), Tap(1), Tap(3), Tap(2)]) == Top5
    ensures Top5.winner == X && !Top5.isXNext
  {
    TopRowMoves();
    var acts := [Tap(0), Tap(4), Tap(1), Tap(3), Tap(2)];
    calc {
      Run(Initial(), acts);
      { RunCons(Initial(), Tap(0), acts[1..]); }
      Run(Top1, acts[1..]);
      { RunCons(Top1, Tap(4), acts[2..]); }
      Run(Top2, acts[2..]);
      { RunCons(Top2, Tap(1), acts[3..]); }
      Run(Top3, acts[3..]);
      { RunCons(Top3, Tap(3), acts[4..]); }
      Run(Top4, acts[4..]);
      { RunCons(Top4, Tap(2), []); }
      Run(Top5, []);
    }
  }

  // Moves 0, 1, 2, 4, 3, 5, 7, 6, 8 fill the board without a line.
  const Full1 := GameState([X, E, E, E, E, E, E, E, E], false, E)
  const Full2 := GameState([X, O, E, E, E, E, E, E, E], true, E)
  const Full3 := GameState([X, O, X, E, E, E, E, E, E], false, E)
  const Full4 := GameState([X, O, X, E, O, E, E, E, E], true, E)
  const Full5 := GameState([X, O, X, X, O, E, E, E, E], false, E)
  const Full6 := GameState([X, O, X, X, O, O, E, E, E], true, E)
  const Full7 := GameState([X, O, X, X, O, O, E, X, E], false, E)
  const Full8 := GameState([X, O, X, X, O, O, O, X, E], true, E)
  const Full9 := GameState([X, O, X, X, O, O, O, X, X], false, E)

  lemma FullBoardOpening()
    ensures Press(Initial(), 0) == Full1 && Press(Full1, 1) == Full2 && Press(Full2, 2) == Full3
    ensures Press(Full3, 4) == Full4 && Press(Full4, 3) == Full5
  {
    assert Initial().board == [E, E, E, E, E, E, E, E, E];
  }

  lemma FullBoardEnding()
    ensures Press(Full5, 5) == Full6 && Press(Full6, 7) == Full7
    ensures Press(Full7, 6) == Full8 && Press(Full8, 8) == Full9
  {
  }

  lemma FullBoardOpeningRun(acts: seq<Action>)
    requires acts == [Tap(0), Tap(1), Tap(2), Tap(4), Tap(3), Tap(5), Tap(7), Tap(6), Tap(8)]
    ensures Run(Initial(), acts) == Run(Full5, acts[5..])
  {
    FullBoardOpening();
    calc {
      Run(Initial(), acts);
      { RunCons(Initial(), Tap(0), acts[1..]); }
      Run(Full1, acts[1..]);
      { RunCons(Full1, Tap(1), acts[2..]); }
      Run(Full2, acts[2..]);
      { RunCons(Full2, Tap(2), acts[3..]); }
      Run(Full3, acts[3..]);
      { RunCons(Full3, Tap(4), acts[4..]); }
      Run(Full4, acts[4..]);
      { RunCons(Full4, Tap(3), acts[5..]); }
      Run(Full5, acts[5..]);
    }
  }

  lemma FullBoardEndingRun()
    ensures Run(Full5, [Tap(5), Tap(7), Tap(6), Tap(8)]) == Full9
  {
    FullBoardEnding();
    var acts := [Tap(5), Tap(7), Tap(6), Tap(8)];
    calc {
      Run(Full5, acts);
      { RunCons(Full5, Tap(5), acts[1..]); }
      Run(Full6, acts[1..]);
      { RunCons(Full6, Tap(7), acts[2..]); }
      Run(Full7, acts[2..]);
      { RunCons(Full7, Tap(6), acts[3..]); }
      Run(Full8, acts[3..]);
      { RunCons(Full8, Tap(8), []); }
      Run(Full9, []);
    }
  }

  /** Nine moves fill the board without a line: no winner is recorded and
      nothing else marks the game as over; the turn has passed nine times,
      so it is O's turn. */
  lemma FullBoardWithoutWinner()
    ensures Run(Initial(), [Tap(0), Tap(1), Tap(2), Tap(4), Tap(3), Tap(5), Tap(7), Tap(6), Tap(8)]) == Full9
    ensures Full9.winner == Empty && !Full9.isXNext
  {
    var acts := [Tap(0), Tap(1), Tap(2), Tap(4), Tap(3), Tap(5), Tap(7), Tap(6), Tap(8)];
    FullBoardOpeningRun(acts);
    assert acts[5..] == [Tap(5), Tap(7), Tap(6), Tap(8)];
    FullBoardEndingRun();
  }

  /** On that full board every further tap is ignored, only because its
      cell is taken. */
  lemma FullBoardTapIgnored(index: int)
    requires 0 <= index < 9
    ensures Full9.board[index] != Empty && Press(Full9, index) == Full9
  {
  }

  /** A second tap on a taken cell is ignored. */
  lemma RepeatedTapIgnored()
    ensures Run(Initial(), [Tap(0), Tap(0)]) == Run(Initial(), [Tap(0)]) == Top1
  {
    TopRowMoves();
    RunCons(Initial(), Tap(0), [Tap(0)]);
    RunCons(Top1, Tap(0), []);
    RunCons(Initial(), Tap(0), []);
  }

  /** On a board where X has the top row and O the middle row, the scan
      meets the top row first, and the other way round. */
  lemma ScanOrderDecides()
    ensures Winner([X, X, X, O, O, O, E, E, E]) == X
    ensures Winner([O, O, O, X, X, X, E, E, E]) == O
  {
  }

  /** No game reaches that first board: it would give both players a
      complete line. */
  lemma TwoLinesUnreachable(actions: seq<Action>)
    requires forall k :: 0 <= k < |actions| ==> ValidAction(actions[k])
    ensures Run(Initial(), actions).board != [X, X, X, O, O, O, E, E, E]
  {
    InitialInv();
    RunInv(Initial(), actions);
    var b := [X, X, X, O, O, O, E, E, E];
    assert Complete(b, 0) && Owner(b, 0) == X;
    assert Complete(b, 1) && Owner(b, 1) == O;
  }
}
