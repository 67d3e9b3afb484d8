/** The search with the accumulator threaded as evidently intended: the terminal
    branch appends the finished history to the solutions it was given instead of
    replacing them. With that one change the search returns every complete play
    from the starting move, and nothing else. */
module Collect {
  import opened Grid
  import opened Apply
  import opened Moves
  import opened Solve

  /** appendSolutions with the terminal branch returning solutions + [history + [move]]. */
  function CollectSearch(solutions: seq<MoveSequence>, board: Board, move: Move,
                   history: MoveSequence, stoneCount: int): seq<MoveSequence>
    requires SearchPre(board, move, stoneCount)
    decreases stoneCount, 0
  {
    var extended := history + [move];
    var remaining := stoneCount - 1;
    if remaining == 1 then solutions + [extended]
    else
      var newBoard := Jump(board, move).value;
      CollectAll(solutions, newBoard, AllMovesOf(newBoard), extended, remaining)
  }

  /** The accumulator after the corrected loop has run over the moves ms, in order. */
  function CollectAll(solutions: seq<MoveSequence>, board: Board, ms: seq<Move>,
                      history: MoveSequence, stoneCount: int): seq<MoveSequence>
    requires Rectangular(board) && stoneCount >= 2
    requires forall k :: 0 <= k < |ms| ==> Legal(board, ms[k])
    decreases stoneCount, 1, |ms|
  {
    if ms == [] then solutions
    else
      var before := CollectAll(solutions, board, ms[..|ms| - 1], history, stoneCount);
      var last := ms[|ms| - 1];
      assert Legal(board, last);
      CollectSearch(before, board, last, history, stoneCount)
  }

  /** The corrected search only ever appends: what it returns is the incoming
      solutions followed by what it finds from an empty accumulator. */
  lemma {:induction false} CollectAppends(solutions: seq<MoveSequence>, board: Board, move: Move,
                                          history: MoveSequence, stoneCount: int)
    requires SearchPre(board, move, stoneCount)
    ensures CollectSearch(solutions, board, move, history, stoneCount)
         == solutions + CollectSearch([], board, move, history, stoneCount)
    decreases stoneCount, 0
  {
    if stoneCount - 1 != 1 {
      var newBoard := Jump(board, move).value;
      CollectAllAppends(solutions, newBoard, AllMovesOf(newBoard), history + [move], stoneCount - 1);
    }
  }

  lemma {:induction false} CollectAllAppends(solutions: seq<MoveSequence>, board: Board, ms: seq<Move>,
                                             history: MoveSequence, stoneCount: int)
    requires Rectangular(board) && stoneCount >= 2
    requires forall k :: 0 <= k < |ms| ==> Legal(board, ms[k])
    ensures CollectAll(solutions, board, ms, history, stoneCount)
         == solutions + CollectAll([], board, ms, history, stoneCount)
    decreases stoneCount, 1, |ms|
  {
    if ms != [] {
      var init := ms[..|ms| - 1];
      var last := ms[|ms| - 1];
      var fromSolutions := CollectAll(solutions, board, init, history, stoneCount);
      var fromEmpty := CollectAll([], board, init, history, stoneCount);
      var tail := CollectSearch([], board, last, history, stoneCount);
      assert CollectAll(solutions, board, ms, history, stoneCount) == CollectSearch(fromSolutions, board, last, history, stoneCount);
      assert CollectAll([], board, ms, history, stoneCount) == CollectSearch(fromEmpty, board, last, history, stoneCount);
      CollectAllAppends(solutions, board, init, history, stoneCount);
      CollectAppends(fromSolutions, board, last, history, stoneCount);
      CollectAppends(fromEmpty, board, last, history, stoneCount);
      assert (solutions + fromEmpty) + tail == solutions + (fromEmpty + tail);
    }
  }

  /** s is history followed by a play that starts with move and completes the game
      from board with stoneCount stones. */
  predicate CompletesFrom(s: MoveSequence, history: MoveSequence, board: Board, move: Move, stoneCount: int) {
    && |s| > |history| && s[..|history|] == history && s[|history|] == move
    && Completion(board, s[|history|..], stoneCount)
  }

  /** The play h + [move] (one more move with two stones) completes exactly when move is legal. */
  lemma LastMoveCompletes(s: MoveSequence, history: MoveSequence, board: Board, move: Move)
    requires Legal(board, move)
    ensures CompletesFrom(s, history, board, move, 2) <==> s == history + [move]
  {
    var extended := history + [move];
    ReplayFirst(board, move, []);
    assert extended[|history|..] == [move] + [];
    if CompletesFrom(s, history, board, move, 2) {
      assert s == s[..|history|] + s[|history|..];
      assert s[|history|..] == [move];
    }
  }

  /** A play that starts with the legal move completes from board exactly when its
      remainder completes from the board the move produces. */
  lemma CompletesAfterFirst(s: MoveSequence, history: MoveSequence, board: Board, move: Move, stoneCount: int)
    requires Legal(board, move) && stoneCount > 2
    ensures CompletesFrom(s, history, board, move, stoneCount) <==>
            (&& |s| > |history| + 1 && s[..|history| + 1] == history + [move]
             && Completion(Jump(board, move).value, s[|history| + 1..], stoneCount - 1))
  {
    var newBoard := Jump(board, move).value;
    if |s| > |history| + 1 && s[..|history| + 1] == history + [move] {
      SplitExtended(s, history, move);
      ReplayFirst(board, move, s[|history| + 1..]);
    }
    if CompletesFrom(s, history, board, move, stoneCount) {
      assert s[..|history| + 1] == s[..|history|] + [s[|history|]];
      assert s[|history|..] == [move] + s[|history| + 1..];
      ReplayFirst(board, move, s[|history| + 1..]);
    }
  }

  /** The corrected search is exact: from a legal move it returns precisely the
      histories that extend history with move and then with further moves that
      complete the game. */
  lemma {:induction false} CollectExact(board: Board, move: Move, history: MoveSequence,
                                        stoneCount: int, s: MoveSequence)
    requires Rectangular(board) && stoneCount >= 2 && Legal(board, move)
    ensures s in CollectSearch([], board, move, history, stoneCount) <==>
            CompletesFrom(s, history, board, move, stoneCount)
    decreases stoneCount, 0
  {
    if stoneCount == 2 {
      LastMoveCompletes(s, history, board, move);
      assert CollectSearch([], board, move, history, stoneCount) == [history + [move]];
    } else {
      var newBoard := Jump(board, move).value;
      CollectAllExact(newBoard, AllMovesOf(newBoard), history + [move], stoneCount - 1, s);
      CollectExactStep(board, move, history, stoneCount, s);
    }
  }

  /** The step of CollectExact past the move: given the exactness of the loop over
      the moves of the new board, the search from the move is exact. */
  lemma CollectExactStep(board: Board, move: Move, history: MoveSequence,
                         stoneCount: int, s: MoveSequence)
    requires Rectangular(board) && stoneCount > 2 && Legal(board, move)
    requires var newBoard := Jump(board, move).value;
             var ms := AllMovesOf(newBoard);
             s in CollectAll([], newBoard, ms, history + [move], stoneCount - 1) <==>
             (&& |s| > |history + [move]| && s[|history + [move]|] in ms
              && CompletesFrom(s, history + [move], newBoard, s[|history + [move]|], stoneCount - 1))
    ensures s in CollectSearch([], board, move, history, stoneCount) <==>
            CompletesFrom(s, history, board, move, stoneCount)
  {
    var extended := history + [move];
    var newBoard := Jump(board, move).value;
    CompletesAfterFirst(s, history, board, move, stoneCount);
    AllMovesExactlyLegal(newBoard);
    if |s| > |extended| && s[..|extended|] == extended
       && Completion(newBoard, s[|extended|..], stoneCount - 1) {
      assert s[|extended|..] == [s[|extended|]] + s[|extended| + 1..];
      assert Legal(newBoard, s[|extended|]);
    }
  }

  /** The corrected loop over ms is exact: it returns precisely the completing
      histories whose next move is one of ms. */
  lemma {:induction false} CollectAllExact(board: Board, ms: seq<Move>, history: MoveSequence,
                                           stoneCount: int, s: MoveSequence)
    requires Rectangular(board) && stoneCount >= 2
    requires forall k :: 0 <= k < |ms| ==> Legal(board, ms[k])
    ensures s in CollectAll([], board, ms, history, stoneCount) <==>
            (&& |s| > |history| && s[|history|] in ms
             && CompletesFrom(s, history, board, s[|history|], stoneCount))
    decreases stoneCount, 1, |ms|
  {
    if ms != [] {
      var init := ms[..|ms| - 1];
      var last := ms[|ms| - 1];
      var before := CollectAll([], board, init, history, stoneCount);
      assert ms == init + [last];
      CollectAppends(before, board, last, history, stoneCount);
      CollectAllExact(board, init, history, stoneCount, s);
      CollectExact(board, last, history, stoneCount, s);
    }
  }

  /** One more turn of the corrected loop. */
  lemma CollectAllStep(solutions: seq<MoveSequence>, board: Board, ms: seq<Move>, k: int,
                       history: MoveSequence, stoneCount: int)
    requires Rectangular(board) && stoneCount >= 2 && 0 <= k < |ms|
    requires forall i :: 0 <= i < |ms| ==> Legal(board, ms[i])
    ensures CollectAll(solutions, board, ms[..k + 1], history, stoneCount)
         == CollectSearch(CollectAll(solutions, board, ms[..k], history, stoneCount), board, ms[k], history, stoneCount)
  {
    assert ms[..k + 1][..k] == ms[..k] && ms[..k + 1][k] == ms[k];
  }

  /** The corrected appendSolutions: the same recursion and loop as the source,
      with the terminal branch appending to the accumulator. */
  method AppendAllSolutions(solutions: seq<MoveSequence>, board: Board, move: Move,
                            history: MoveSequence, stoneCount: int)
    returns (result: seq<MoveSequence>)
    requires SearchPre(board, move, stoneCount)
    ensures result == CollectSearch(solutions, board, move, history, stoneCount)
    decreases stoneCount
  {
    var extended := history + [move];
    var remaining := stoneCount - 1;
    if remaining == 1 {
      return solutions + [extended];
    }
    var applied := ApplyMove(board, move);
    var newBoard := applied.value;
    var nextMoves := AllMoves(newBoard);
    result := solutions;
    for k := 0 to |nextMoves|
      invariant result == CollectAll(solutions, newBoard, nextMoves[..k], extended, remaining)
    {
      CollectAllStep(solutions, newBoard, nextMoves, k, extended, remaining);
      result := AppendAllSolutions(result, newBoard, nextMoves[k], extended, remaining);
    }
    assert nextMoves[..|nextMoves|] == nextMoves;
  }

  /** Integrity of the corrected search started from an empty history, as main
      starts it: when the stone count is the number of pegs on the board, every
      history returned starts with the seed move, has stoneCount - 1 moves, replays
      legally from the board and leaves a single peg. */
  lemma CollectIntegrity(board: Board, move: Move, stoneCount: int, s: MoveSequence)
    requires Rectangular(board) && stoneCount >= 2 && Legal(board, move)
    requires CountFilled(board) == stoneCount
    requires s in CollectSearch([], board, move, [], stoneCount)
    ensures |s| == stoneCount - 1 && s[0] == move
    ensures Replay(board, s).Some? && CountFilled(Replay(board, s).value) == 1
  {
    CollectExact(board, move, [], stoneCount, s);
    assert s[0..] == s;
    ReplayCount(board, s);
  }

  /** A whole play from board that starts with move is found by the corrected
      search when it completes the game. */
  lemma CollectFinds(board: Board, move: Move, stoneCount: int, s: MoveSequence)
    requires Rectangular(board) && stoneCount >= 2 && Legal(board, move)
    requires |s| > 0 && s[0] == move && Completion(board, s, stoneCount)
    ensures s in CollectSearch([], board, move, [], stoneCount)
  {
    assert s[..0] == [] && s[0..] == s;
    CollectExact(board, move, [], stoneCount, s);
  }

  /** From TwoEndings the corrected search reports both complete plays. */
  lemma BothEndingsCollected()
    ensures [Opening, Move(0, 2, Left)] in CollectSearch([], TwoEndings, Opening, [], 3)
    ensures [Opening, Move(0, 1, Right)] in CollectSearch([], TwoEndings, Opening, [], 3)
  {
    AfterOpening();
    assert Rectangular(TwoEndings) && Legal(TwoEndings, Opening);
    EndingCompletes(Move(0, 2, Left));
    EndingCompletes(Move(0, 1, Right));
    CollectFinds(TwoEndings, Opening, 3, [Opening, Move(0, 2, Left)]);
    CollectFinds(TwoEndings, Opening, 3, [Opening, Move(0, 1, Right)]);
  }
}
