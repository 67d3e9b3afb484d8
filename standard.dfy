/** The run the program makes: the 7 x 7 board with the centre hole empty, the
    seed move that jumps into the centre from below, and the stone count it starts
    the search with. */
module Standard {
  import opened Grid
  import opened Moves
  import opened Solve
  import opened Collect
  import opened LastPlay

  const X := Blocked
  const O := Filled
  const E := Empty

  /** The starting board: 37 playable holes, all with pegs except the centre. */
  const StandardBoard: Board := [
    [X, X, O, O, O, X, X],
    [X, O, O, O, O, O, X],
    [O, O, O, O, O, O, O],
    [O, O, O, E, O, O, O],
    [O, O, O, O, O, O, O],
    [X, O, O, O, O, O, X],
    [X, X, O, O, O, X, X]
  ]

  /** The first move: the peg at (5, 3) jumps up over (4, 3) into the centre. */
  const SeedMove := Move(5, 3, Up)

  /** The stone count the search is started with. */
  const StartCount := 36

  /** The board is 7 x 7. */
  lemma StandardShape()
    ensures Rectangular(StandardBoard)
    ensures |StandardBoard| == 7 && |StandardBoard[0]| == 7
  {
  }

  /** The stone count the search starts with is the number of pegs on the board,
      so a complete play leaves exactly one peg. */
  lemma StartCountIsPegCount()
    ensures CountFilled(StandardBoard) == StartCount
  {
    var b := StandardBoard;
    CountFilledSeven(b);
    RowCountSeven(b[0]);
    RowCountSeven(b[1]);
    RowCountSeven(b[2]);
    RowCountSeven(b[3]);
    RowCountSeven(b[4]);
    RowCountSeven(b[5]);
    RowCountSeven(b[6]);
  }

  /** The seed move is a legal jump of the board, and so one of the moves allMoves
      lists for it. */
  lemma SeedIsLegal()
    ensures Legal(StandardBoard, SeedMove)
    ensures SeedMove in AllMovesOf(StandardBoard)
  {
    StandardShape();
    AllMovesExactlyLegal(StandardBoard);
  }

  /** main's search, as written: it returns one solution exactly when a complete
      play from the starting board exists, and none otherwise. A returned solution
      is 35 moves from the starting board that begin with the seed move, are each a
      legal jump and leave one peg, and it is the last such play in scan order:
      every other complete play comes before it. */
  method RunAsWritten() returns (solutions: seq<MoveSequence>)
    ensures |solutions| <= 1
    ensures |solutions| == 1 <==>
            exists t :: |t| > 0 && t[0] == SeedMove && Completion(StandardBoard, t, StartCount)
    ensures forall s :: s in solutions ==>
              && |s| == StartCount - 1 && s[0] == SeedMove
              && Replay(StandardBoard, s).Some?
              && CountFilled(Replay(StandardBoard, s).value) == 1
    ensures forall s, t ::
              (&& s in solutions && t != s
               && |t| > 0 && t[0] == SeedMove && Completion(StandardBoard, t, StartCount))
              ==> PlayBefore(t, s)
  {
    StandardShape();
    SeedIsLegal();
    StartCountIsPegCount();
    solutions := AppendSolutions([], StandardBoard, SeedMove, [], StartCount);
    InitialSearchAtMostOne(StandardBoard, SeedMove, StartCount);
    forall s | s in solutions
      ensures && |s| == StartCount - 1 && s[0] == SeedMove
              && Replay(StandardBoard, s).Some?
              && CountFilled(Replay(StandardBoard, s).value) == 1
    {
      InitialSearchIntegrity(StandardBoard, SeedMove, StartCount, s);
    }
    forall t | |t| > 0 && t[0] == SeedMove && Completion(StandardBoard, t, StartCount)
      ensures |solutions| == 1
    {
      InitialSearchFinds(StandardBoard, SeedMove, StartCount, t);
    }
    if |solutions| == 1 {
      var s := solutions[0];
      InitialSearchIntegrity(StandardBoard, SeedMove, StartCount, s);
      assert Completion(StandardBoard, s, StartCount);
    }
    forall s, t | s in solutions && t != s &&
                  |t| > 0 && t[0] == SeedMove && Completion(StandardBoard, t, StartCount)
      ensures PlayBefore(t, s)
    {
      InitialSearchKeepsLast(StandardBoard, SeedMove, StartCount, s, t);
    }
  }

  /** main's search with the corrected accumulator: it returns exactly the plays of
      35 legal jumps from the starting board that begin with the seed move. */
  method RunCorrected() returns (solutions: seq<MoveSequence>)
    ensures forall s :: s in solutions <==>
              (|s| > 0 && s[0] == SeedMove && Completion(StandardBoard, s, StartCount))
    ensures forall s :: s in solutions ==>
              Replay(StandardBoard, s).Some? && CountFilled(Replay(StandardBoard, s).value) == 1
  {
    StandardShape();
    SeedIsLegal();
    StartCountIsPegCount();
    solutions := AppendAllSolutions([], StandardBoard, SeedMove, [], StartCount);
    forall s ensures s in solutions <==> (|s| > 0 && s[0] == SeedMove && Completion(StandardBoard, s, StartCount)) {
      CollectExact(StandardBoard, SeedMove, [], StartCount, s);
      if |s| > 0 {
        assert s[..0] == [] && s[0..] == s;
      }
    }
    forall s | s in solutions
      ensures Replay(StandardBoard, s).Some? && CountFilled(Replay(StandardBoard, s).value) == 1
    {
      CollectIntegrity(StandardBoard, SeedMove, StartCount, s);
    }
  }
}
