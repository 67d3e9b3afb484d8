/** The depth-first search of appendSolutions, modelled as the code is written:
    the terminal branch returns a one-element list built from the history alone,
    and the loop over the next moves threads the accumulator through the
    sibling calls, so each terminal sibling replaces what came before. */
module Solve {
  import opened Grid
  import opened Apply
  import opened Moves

  /** What appendSolutions needs so that it does not abort: a rectangular board,
      at least two stones, and, unless this move is the terminal one (which is
      never applied), a move that applyMove accepts. */
  predicate SearchPre(board: Board, move: Move, stoneCount: int) {
    Rectangular(board) && stoneCount >= 2 && (stoneCount == 2 || Jumpable(board, move))
  }

  /** The value appendSolutions(solutions, board, move, history, stoneCount) returns. */
  function Search(solutions: seq<MoveSequence>, board: Board, move: Move,
                  history: MoveSequence, stoneCount: int): seq<MoveSequence>
    requires SearchPre(board, move, stoneCount)
    decreases stoneCount, 0
  {
    var extended := history + [move];
    var remaining := stoneCount - 1;
    if remaining == 1 then [extended]
    else
      var newBoard := Jump(board, move).value;
      SearchAll(solutions, newBoard, AllMovesOf(newBoard), extended, remaining)
  }

  /** The accumulator after the loop of appendSolutions has run over the moves ms,
      in order, each sibling call receiving what the previous one returned. */
  function SearchAll(solutions: seq<MoveSequence>, board: Board, ms: seq<Move>,
                     history: MoveSequence, stoneCount: int): seq<MoveSequence>
    requires Rectangular(board) && stoneCount >= 2
    requires forall k :: 0 <= k < |ms| ==> Legal(board, ms[k])
    decreases stoneCount, 1, |ms|
  {
    if ms == [] then solutions
    else
      var before := SearchAll(solutions, board, ms[..|ms| - 1], history, stoneCount);
      var last := ms[|ms| - 1];
      assert Legal(board, last);
      Search(before, board, last, history, stoneCount)
  }

  /** The moves ms played one after the other from board b, each of them a legal
      jump of the board it is played on; None as soon as one is not. */
  function Replay(b: Board, ms: seq<Move>): Option<Board>
    decreases |ms|
  {
    if ms == [] then Some(b)
    else if Legal(b, ms[0]) then Replay(Jump(b, ms[0]).value, ms[1..])
    else None
  }

  datatype Option<T> = None | Some(value: T)

  /** Replaying a legal first move is replaying the rest from the board it produces. */
  lemma ReplayFirst(b: Board, m: Move, rest: seq<Move>)
    requires Legal(b, m)
    ensures Replay(b, [m] + rest) == Replay(Jump(b, m).value, rest)
  {
    assert ([m] + rest)[0] == m && ([m] + rest)[1..] == rest;
  }

  /** A legal replay removes one peg per move. */
  lemma {:induction false} ReplayCount(b: Board, ms: seq<Move>)
    requires Replay(b, ms).Some?
    ensures CountFilled(Replay(b, ms).value) == CountFilled(b) - |ms|
    decreases |ms|
  {
    if ms != [] {
      LegalJumpRemovesOnePeg(b, ms[0]);
      ReplayCount(Jump(b, ms[0]).value, ms[1..]);
    }
  }

  /** The shape of appendSolutions' result: the incoming solutions unchanged, or a
      single history that starts with history + [move] and holds
      |history| + stoneCount - 1 moves. */
  lemma {:induction false} SearchShape(solutions: seq<MoveSequence>, board: Board, move: Move,
                                       history: MoveSequence, stoneCount: int)
    requires SearchPre(board, move, stoneCount)
    ensures var r := Search(solutions, board, move, history, stoneCount);
            || r == solutions
            || (&& |r| == 1
                && |r[0]| == |history| + stoneCount - 1
                && r[0][..|history| + 1] == history + [move])
    decreases stoneCount, 0
  {
    var extended := history + [move];
    if stoneCount - 1 != 1 {
      var newBoard := Jump(board, move).value;
      SearchAllShape(solutions, newBoard, AllMovesOf(newBoard), extended, stoneCount - 1);
      var r := Search(solutions, board, move, history, stoneCount);
      if r != solutions {
        assert r[0][..|history| + 1] == r[0][..|extended|][..|history| + 1];
      }
    }
  }

  lemma {:induction false} SearchAllShape(solutions: seq<MoveSequence>, board: Board, ms: seq<Move>,
                                          history: MoveSequence, stoneCount: int)
    requires Rectangular(board) && stoneCount >= 2
    requires forall k :: 0 <= k < |ms| ==> Legal(board, ms[k])
    ensures var r := SearchAll(solutions, board, ms, history, stoneCount);
            || r == solutions
            || (&& |r| == 1
                && |r[0]| == |history| + stoneCount - 1
                && r[0][..|history|] == history)
    decreases stoneCount, 1, |ms|
  {
    if ms != [] {
      var before := SearchAll(solutions, board, ms[..|ms| - 1], history, stoneCount);
      SearchAllShape(solutions, board, ms[..|ms| - 1], history, stoneCount);
      SearchShape(before, board, ms[|ms| - 1], history, stoneCount);
      var r := Search(before, board, ms[|ms| - 1], history, stoneCount);
      if r != before {
        assert r[0][..|history|] == r[0][..|history| + 1][..|history|];
      }
    }
  }

  lemma SplitExtended(s: seq<Move>, history: seq<Move>, move: Move)
    requires |s| > |history| + 1 && s[..|history| + 1] == history + [move]
    ensures s[..|history|] == history && s[|history|] == move
    ensures s[|history|..] == [move] + s[|history| + 1..]
  {
    assert s[..|history|] == s[..|history| + 1][..|history|];
  }

  /** rest is a complete play from board for a search started with stoneCount
      stones: stoneCount - 1 moves, each a legal jump where it is played. */
  predicate Completion(board: Board, rest: seq<Move>, stoneCount: int) {
    |rest| == stoneCount - 1 && Replay(board, rest).Some?
  }

  /** When the first move is a legal jump, the history appendSolutions reports is
      history followed by move and by further moves that, together, replay legally
      from the board. The terminal move is never applied by the source; it is legal
      all the same, because it comes from allMoves. */
  lemma {:induction false} SearchReplays(solutions: seq<MoveSequence>, board: Board, move: Move,
                                         history: MoveSequence, stoneCount: int)
    requires Rectangular(board) && stoneCount >= 2 && Legal(board, move)
    ensures var r := Search(solutions, board, move, history, stoneCount);
            || r == solutions
            || (&& |r| == 1 && |r[0]| > |history|
                && r[0][..|history|] == history && r[0][|history|] == move
                && Completion(board, r[0][|history|..], stoneCount))
    decreases stoneCount, 0
  {
    var extended := history + [move];
    var newBoard := Jump(board, move).value;
    var r := Search(solutions, board, move, history, stoneCount);
    if stoneCount - 1 == 1 {
      assert r == [extended];
      assert extended[..|history|] == history && extended[|history|..] == [move] + [];
      ReplayFirst(board, move, []);
    } else {
      SearchAllReplays(solutions, newBoard, AllMovesOf(newBoard), extended, stoneCount - 1);
      if r != solutions {
        SplitExtended(r[0], history, move);
        ReplayFirst(board, move, r[0][|extended|..]);
      }
    }
  }

  lemma {:induction false} SearchAllReplays(solutions: seq<MoveSequence>, board: Board, ms: seq<Move>,
                                            history: MoveSequence, stoneCount: int)
    requires Rectangular(board) && stoneCount >= 2
    requires forall k :: 0 <= k < |ms| ==> Legal(board, ms[k])
    ensures var r := SearchAll(solutions, board, ms, history, stoneCount);
            || r == solutions
            || (&& |r| == 1 && |r[0]| > |history|
                && r[0][..|history|] == history
                && Completion(board, r[0][|history|..], stoneCount))
    decreases stoneCount, 1, |ms|
  {
    if ms != [] {
      var before := SearchAll(solutions, board, ms[..|ms| - 1], history, stoneCount);
      SearchAllReplays(solutions, board, ms[..|ms| - 1], history, stoneCount);
      SearchReplays(before, board, ms[|ms| - 1], history, stoneCount);
    }
  }

  /** History integrity: when the stone count is the number of pegs on the board and
      the first move is a legal jump, appendSolutions returns the incoming solutions
      or one history of |history| + stoneCount - 1 moves that begins with history and
      move and whose moves after history replay legally to a board with one peg. */
  lemma SearchIntegrity(solutions: seq<MoveSequence>, board: Board, move: Move,
                        history: MoveSequence, stoneCount: int)
    requires Rectangular(board) && stoneCount >= 2 && Legal(board, move)
    requires CountFilled(board) == stoneCount
    ensures var r := Search(solutions, board, move, history, stoneCount);
            || r == solutions
            || (&& |r| == 1
                && |r[0]| == |history| + stoneCount - 1
                && r[0][..|history|] == history
                && r[0][|history|] == move
                && Replay(board, r[0][|history|..]).Some?
                && CountFilled(Replay(board, r[0][|history|..]).value) == 1)
  {
    SearchReplays(solutions, board, move, history, stoneCount);
    var r := Search(solutions, board, move, history, stoneCount);
    if r != solutions {
      ReplayCount(board, r[0][|history|..]);
    }
  }

  lemma OnlyMember(r: seq<MoveSequence>, s: MoveSequence)
    requires |r| == 1 && s in r
    ensures s == r[0]
  {
  }

  lemma WholeSuffix(s: MoveSequence)
    ensures s[0..] == s
  {
  }

  /** A search started as main starts it, with no solutions and an empty history,
      returns at most one history. */
  lemma InitialSearchAtMostOne(board: Board, move: Move, stoneCount: int)
    requires Rectangular(board) && stoneCount >= 2 && Legal(board, move)
    ensures |Search([], board, move, [], stoneCount)| <= 1
  {
    SearchShape([], board, move, [], stoneCount);
  }

  /** Integrity of a search started as main starts it: when the stone count is the
      number of pegs on the board, a history that comes back is a whole play of
      stoneCount - 1 legal jumps from the board that starts with the seed move and
      leaves one peg. */
  lemma InitialSearchIntegrity(board: Board, move: Move, stoneCount: int, s: MoveSequence)
    requires Rectangular(board) && stoneCount >= 2 && Legal(board, move)
    requires CountFilled(board) == stoneCount
    requires s in Search([], board, move, [], stoneCount)
    ensures |s| == stoneCount - 1 && s[0] == move
    ensures Replay(board, s).Some? && CountFilled(Replay(board, s).value) == 1
  {
    SearchIntegrity([], board, move, [], stoneCount);
    var r := Search([], board, move, [], stoneCount);
    OnlyMember(r, s);
    WholeSuffix(s);
  }

  /** One more turn of the loop: running over the first k + 1 moves is running over
      the first k and then calling the search on move k. */
  lemma SearchAllStep(solutions: seq<MoveSequence>, board: Board, ms: seq<Move>, k: int,
                      history: MoveSequence, stoneCount: int)
    requires Rectangular(board) && stoneCount >= 2 && 0 <= k < |ms|
    requires forall i :: 0 <= i < |ms| ==> Legal(board, ms[i])
    ensures SearchAll(solutions, board, ms[..k + 1], history, stoneCount)
         == Search(SearchAll(solutions, board, ms[..k], history, stoneCount), board, ms[k], history, stoneCount)
  {
    assert ms[..k + 1][..k] == ms[..k] && ms[..k + 1][k] == ms[k];
  }

  /** appendSolutions: extend the history, count the stone down, and either report
      the history (one stone left) or apply the move and recurse on every move of
      the new board, threading the accumulator through the calls. */
  method AppendSolutions(solutions: seq<MoveSequence>, board: Board, move: Move,
                         history: MoveSequence, stoneCount: int)
    returns (result: seq<MoveSequence>)
    requires SearchPre(board, move, stoneCount)
    ensures result == Search(solutions, board, move, history, stoneCount)
    ensures stoneCount == 2 ==> result == [history + [move]]
    decreases stoneCount
  {
    var extended := history + [move];
    var remaining := stoneCount - 1;
    if remaining == 1 {
      return [extended];
    }
    var applied := ApplyMove(board, move);
    var newBoard := applied.value;
    var nextMoves := AllMoves(newBoard);
    result := solutions;
    for k := 0 to |nextMoves|
      invariant result == SearchAll(solutions, newBoard, nextMoves[..k], extended, remaining)
    {
      SearchAllStep(solutions, newBoard, nextMoves, k, extended, remaining);
      result := AppendSolutions(result, newBoard, nextMoves[k], extended, remaining);
    }
    assert nextMoves[..|nextMoves|] == nextMoves;
  }

  /** A one-row board with three pegs on which the search reaches two different
      complete solutions after the opening move. */
  const TwoEndings: Board := [[Empty, Filled, Empty, Filled, Filled]]
  const Opening := Move(0, 4, Left)

  /** The board after the opening move: pegs at (0, 1) and (0, 2). */
  lemma AfterOpening()
    ensures Jump(TwoEndings, Opening) == Ok(AfterOpeningBoard)
  {
    var b1 := [[Empty, Filled, Empty, Filled, Empty]];
    var b2 := [[Empty, Filled, Empty, Empty, Empty]];
    var b3 := [[Empty, Filled, Filled, Empty, Empty]];
    assert Source(Opening) == (0, 4) && Over(Opening) == (0, 3) && Dest(Opening) == (0, 2);
    assert Jumpable(TwoEndings, Opening);
    assert SetCell(TwoEndings, (0, 4), Empty) == b1 by {
      assert TwoEndings[0][4 := Empty] == b1[0];
    }
    assert SetCell(b1, (0, 3), Empty) == b2 by {
      assert b1[0][3 := Empty] == b2[0];
    }
    assert SetCell(b2, (0, 2), Filled) == b3 by {
      assert b2[0][2 := Filled] == b3[0];
    }
  }

  const AfterOpeningBoard: Board := [[Empty, Filled, Filled, Empty, Empty]]

  /** The two legal jumps on that board: Left from (0, 2) and Right from (0, 1). */
  lemma LegalAfterOpening(m: Move)
    ensures Legal(AfterOpeningBoard, m) <==> m == Move(0, 2, Left) || m == Move(0, 1, Right)
  {
    var b := AfterOpeningBoard;
    assert |b| == 1 && |b[0]| == 5;
    assert b[0][0] == Empty && b[0][1] == Filled && b[0][2] == Filled && b[0][3] == Empty && b[0][4] == Empty;
  }

  /** allMoves on that board lists exactly those two jumps, in scan order. */
  lemma MovesAfterOpening()
    ensures AllMovesOf(AfterOpeningBoard) == [Move(0, 2, Left), Move(0, 1, Right)]
  {
    var ms := [Move(0, 2, Left), Move(0, 1, Right)];
    assert Rectangular(AfterOpeningBoard);
    assert ScanOrdered(ms);
    forall m ensures m in ms <==> Legal(AfterOpeningBoard, m) {
      LegalAfterOpening(m);
    }
    AllMovesDetermined(AfterOpeningBoard, ms);
  }

  /** With two stones left every move in the loop is terminal, and each terminal
      call discards the accumulator: the loop ends with the history of the last move
      alone, whatever came before. */
  lemma LastTerminalWins(solutions: seq<MoveSequence>, board: Board, ms: seq<Move>,
                         history: MoveSequence)
    requires Rectangular(board) && ms != []
    requires forall k :: 0 <= k < |ms| ==> Legal(board, ms[k])
    ensures SearchAll(solutions, board, ms, history, 2) == [history + [ms[|ms| - 1]]]
  {
  }

  /** With three stones the search applies the move and then keeps only the history
      of the last move of the new board; here the new board has two moves, x and y. */
  lemma ThreeStonesKeepSecond(solutions: seq<MoveSequence>, board: Board, move: Move,
                              after: Board, x: Move, y: Move)
    requires SearchPre(board, move, 3)
    requires Jump(board, move) == Ok(after) && AllMovesOf(after) == [x, y] && x != y
    ensures Search(solutions, board, move, [], 3) == [[move, y]]
    ensures [move, x] !in Search(solutions, board, move, [], 3)
  {
    LastTerminalWins(solutions, after, [x, y], [move]);
    assert [] + [move] == [move] && [move] + [y] == [move, y];
    assert [move, x][1] != [move, y][1];
  }

  /** Two moves replay when each is a legal jump where it is played. */
  lemma ReplayTwo(b: Board, m1: Move, m2: Move, after: Board)
    requires Legal(b, m1) && Jump(b, m1) == Ok(after) && Legal(after, m2)
    ensures Completion(b, [m1, m2], 3)
  {
    ReplayFirst(b, m1, [m2]);
    ReplayFirst(after, m2, []);
    assert [m1] + [m2] == [m1, m2] && [m2] + [] == [m2];
  }

  /** As written, appendSolutions keeps only the last solution it reaches: from
      TwoEndings it returns only the play that ends with the Right jump from (0, 1),
      and not the play that ends with the Left jump from (0, 2), although that play
      completes the game as well (EndingCompletes). */
  lemma OnlyLastSolutionKept()
    ensures Search([], TwoEndings, Opening, [], 3) == [[Opening, Move(0, 1, Right)]]
    ensures [Opening, Move(0, 2, Left)] !in Search([], TwoEndings, Opening, [], 3)
  {
    AfterOpening();
    assert Rectangular(TwoEndings);
    MovesAfterOpening();
    ThreeStonesKeepSecond([], TwoEndings, Opening, AfterOpeningBoard, Move(0, 2, Left), Move(0, 1, Right));
  }

  /** Both plays from TwoEndings complete the game: the opening move followed by
      either of the two jumps of the board it produces. */
  lemma EndingCompletes(last: Move)
    requires last == Move(0, 2, Left) || last == Move(0, 1, Right)
    ensures Completion(TwoEndings, [Opening, last], 3)
  {
    AfterOpening();
    assert Legal(TwoEndings, Opening);
    LegalAfterOpening(last);
    ReplayTwo(TwoEndings, Opening, last, AfterOpeningBoard);
  }
}
