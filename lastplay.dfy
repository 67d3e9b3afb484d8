/** What the search as written returns, in general: the corrected search meets the
    complete plays in scan order, and the search as written keeps the last of them
    and nothing else. So it reports a play exactly when one exists, and the play it
    reports comes after every other complete play in scan order. */
module LastPlay {
  import opened Grid
  import opened Apply
  import opened Moves
  import opened Solve
  import opened Collect

  /** Play s comes before play t in scan order: at the first move where they
      differ, the move of s comes first (by landing row, landing column, then
      direction). */
  predicate PlayBefore(s: MoveSequence, t: MoveSequence)
    decreases |s|
  {
    && s != [] && t != []
    && (Precedes(s[0], t[0]) || (s[0] == t[0] && PlayBefore(s[1..], t[1..])))
  }

  /** The plays are listed strictly in scan order. */
  predicate PlaysOrdered(ps: seq<MoveSequence>) {
    forall i, j :: 0 <= i < j < |ps| ==> PlayBefore(ps[i], ps[j])
  }

  /** Two plays that agree on their first k moves and whose next moves are in scan
      order are themselves in scan order. */
  lemma {:induction false} PrefixThenPrecedes(x: MoveSequence, y: MoveSequence, k: int)
    requires 0 <= k < |x| && k < |y| && x[..k] == y[..k] && Precedes(x[k], y[k])
    ensures PlayBefore(x, y)
    decreases k
  {
    if k > 0 {
      assert x[0] == x[..k][0] && y[0] == y[..k][0];
      assert x[1..][..k - 1] == x[..k][1..] && y[1..][..k - 1] == y[..k][1..];
      PrefixThenPrecedes(x[1..], y[1..], k - 1);
    }
  }

  lemma PlaysConcat(xs: seq<MoveSequence>, ys: seq<MoveSequence>)
    requires PlaysOrdered(xs) && PlaysOrdered(ys)
    requires forall x, y :: x in xs && y in ys ==> PlayBefore(x, y)
    ensures PlaysOrdered(xs + ys)
  {
    forall i, j | 0 <= i < j < |xs + ys| ensures PlayBefore((xs + ys)[i], (xs + ys)[j]) {
      if j < |xs| {
      } else if i >= |xs| {
        assert (xs + ys)[i] == ys[i - |xs|] && (xs + ys)[j] == ys[j - |xs|];
      } else {
        assert (xs + ys)[i] in xs && (xs + ys)[j] in ys;
      }
    }
  }

  /** The corrected search from a legal move lists its plays in scan order. */
  lemma {:induction false} CollectOrdered(board: Board, move: Move, history: MoveSequence,
                                          stoneCount: int)
    requires Rectangular(board) && stoneCount >= 2 && Legal(board, move)
    ensures PlaysOrdered(CollectSearch([], board, move, history, stoneCount))
    decreases stoneCount, 0
  {
    if stoneCount == 2 {
      assert CollectSearch([], board, move, history, stoneCount) == [history + [move]];
    } else {
      var newBoard := Jump(board, move).value;
      AllMovesExactlyLegal(newBoard);
      CollectAllOrdered(newBoard, AllMovesOf(newBoard), history + [move], stoneCount - 1);
    }
  }

  /** The corrected loop over scan-ordered moves lists its plays in scan order:
      the plays through an earlier move come before those through a later one. */
  lemma {:induction false} CollectAllOrdered(board: Board, ms: seq<Move>, history: MoveSequence,
                                             stoneCount: int)
    requires Rectangular(board) && stoneCount >= 2
    requires forall k :: 0 <= k < |ms| ==> Legal(board, ms[k])
    requires ScanOrdered(ms)
    ensures PlaysOrdered(CollectAll([], board, ms, history, stoneCount))
    decreases stoneCount, 1, |ms|
  {
    if ms != [] {
      var init := ms[..|ms| - 1];
      var last := ms[|ms| - 1];
      var before := CollectAll([], board, init, history, stoneCount);
      var through := CollectSearch([], board, last, history, stoneCount);
      CollectAppends(before, board, last, history, stoneCount);
      assert CollectAll([], board, ms, history, stoneCount) == before + through;
      CollectAllOrdered(board, init, history, stoneCount);
      CollectOrdered(board, last, history, stoneCount);
      forall x, y | x in before && y in through ensures PlayBefore(x, y) {
        CollectAllExact(board, init, history, stoneCount, x);
        CollectExact(board, last, history, stoneCount, y);
        var i :| 0 <= i < |init| && init[i] == x[|history|];
        assert Precedes(ms[i], ms[|ms| - 1]);
        PrefixThenPrecedes(x, y, |history|);
      }
      PlaysConcat(before, through);
    }
  }

  /** The search as written returns the incoming solutions when the corrected
      search finds no play from the move, and otherwise only the last play the
      corrected search finds. */
  lemma {:induction false} SearchKeepsLast(solutions: seq<MoveSequence>, board: Board, move: Move,
                                           history: MoveSequence, stoneCount: int)
    requires SearchPre(board, move, stoneCount)
    ensures var found := CollectSearch([], board, move, history, stoneCount);
            Search(solutions, board, move, history, stoneCount)
              == if found == [] then solutions else [found[|found| - 1]]
    decreases stoneCount, 0
  {
    if stoneCount - 1 != 1 {
      var newBoard := Jump(board, move).value;
      SearchAllKeepsLast(solutions, newBoard, AllMovesOf(newBoard), history + [move], stoneCount - 1);
    }
  }

  /** The loop as written keeps only the last play the corrected loop finds. */
  lemma {:induction false} SearchAllKeepsLast(solutions: seq<MoveSequence>, board: Board, ms: seq<Move>,
                                              history: MoveSequence, stoneCount: int)
    requires Rectangular(board) && stoneCount >= 2
    requires forall k :: 0 <= k < |ms| ==> Legal(board, ms[k])
    ensures var found := CollectAll([], board, ms, history, stoneCount);
            SearchAll(solutions, board, ms, history, stoneCount)
              == if found == [] then solutions else [found[|found| - 1]]
    decreases stoneCount, 1, |ms|
  {
    if ms != [] {
      var init := ms[..|ms| - 1];
      var last := ms[|ms| - 1];
      var before := SearchAll(solutions, board, init, history, stoneCount);
      var foundBefore := CollectAll([], board, init, history, stoneCount);
      var foundLast := CollectSearch([], board, last, history, stoneCount);
      SearchAllKeepsLast(solutions, board, init, history, stoneCount);
      SearchKeepsLast(before, board, last, history, stoneCount);
      CollectAppends(foundBefore, board, last, history, stoneCount);
      assert CollectAll([], board, ms, history, stoneCount) == foundBefore + foundLast;
    }
  }

  /** The search as written reports a play whenever one exists: when s continues
      the history with the move and completes the game, the result is a single
      history. */
  lemma SearchFinds(solutions: seq<MoveSequence>, board: Board, move: Move,
                    history: MoveSequence, stoneCount: int, s: MoveSequence)
    requires Rectangular(board) && stoneCount >= 2 && Legal(board, move)
    requires CompletesFrom(s, history, board, move, stoneCount)
    ensures |Search(solutions, board, move, history, stoneCount)| == 1
  {
    CollectExact(board, move, history, stoneCount, s);
    SearchKeepsLast(solutions, board, move, history, stoneCount);
  }

  lemma LastIsGreatest(ps: seq<MoveSequence>, t: MoveSequence)
    requires PlaysOrdered(ps) && t in ps && t != ps[|ps| - 1]
    ensures PlayBefore(t, ps[|ps| - 1])
  {
    var i :| 0 <= i < |ps| && ps[i] == t;
  }

  /** A search started as main starts it reports a play exactly when a complete
      play from the seed move exists. */
  lemma InitialSearchFinds(board: Board, move: Move, stoneCount: int, t: MoveSequence)
    requires Rectangular(board) && stoneCount >= 2 && Legal(board, move)
    requires |t| > 0 && t[0] == move && Completion(board, t, stoneCount)
    ensures |Search([], board, move, [], stoneCount)| == 1
  {
    assert t[..0] == [] && t[0..] == t;
    SearchFinds([], board, move, [], stoneCount, t);
  }

  /** The play a search started as main starts it reports comes after every other
      complete play from the seed move in scan order: it is the last one. */
  lemma InitialSearchKeepsLast(board: Board, move: Move, stoneCount: int, s: MoveSequence, t: MoveSequence)
    requires Rectangular(board) && stoneCount >= 2 && Legal(board, move)
    requires s in Search([], board, move, [], stoneCount)
    requires |t| > 0 && t[0] == move && Completion(board, t, stoneCount) && t != s
    ensures PlayBefore(t, s)
  {
    var found := CollectSearch([], board, move, [], stoneCount);
    SearchKeepsLast([], board, move, [], stoneCount);
    assert found != [] && s == found[|found| - 1];
    CollectFinds(board, move, stoneCount, t);
    CollectOrdered(board, move, [], stoneCount);
    LastIsGreatest(found, t);
  }
}
