/** The move generator: fillMoves lists the jumps that land in one hole, and
    allMoves joins those lists over every Empty hole, scanning row by row. */
module Moves {
  import opened Grid

  /** Position of a direction in the order fillMoves tries them. */
  function Rank(d: Direction): nat {
    match d
    case Right => 0
    case Left => 1
    case Down => 2
    case Up => 3
  }

  /** m1 comes before m2 in the scan: by landing row, then landing column, then direction rank. */
  predicate Precedes(m1: Move, m2: Move) {
    || Dest(m1).0 < Dest(m2).0
    || (Dest(m1).0 == Dest(m2).0 && Dest(m1).1 < Dest(m2).1)
    || (Dest(m1) == Dest(m2) && Rank(m1.dir) < Rank(m2.dir))
  }

  /** The moves are listed strictly in scan order (so without repetition). */
  predicate ScanOrdered(ms: seq<Move>) {
    forall i, j :: 0 <= i < j < |ms| ==> Precedes(ms[i], ms[j])
  }

  /** The move in direction d that lands on (row, col): it starts two steps back. */
  function MoveInto(row: int, col: int, d: Direction): (m: Move)
    ensures Dest(m) == (row, col) && m.dir == d
  {
    match d
    case Right => Move(row, col - 2, Right)
    case Left => Move(row, col + 2, Left)
    case Down => Move(row - 2, col, Down)
    case Up => Move(row + 2, col, Up)
  }

  /** One of the four guarded appends of fillMoves: the jump in direction d into
      (row, col), kept when its guard holds. */
  function JumpInto(b: Board, row: int, col: int, d: Direction): seq<Move>
    requires Rectangular(b) && InBounds(b, (row, col))
  {
    match d
    case Right =>
      if col > 1 && b[row][col - 1] == Filled && b[row][col - 2] == Filled
      then [Move(row, col - 2, Right)] else []
    case Left =>
      if col < |b[0]| - 2 && b[row][col + 1] == Filled && b[row][col + 2] == Filled
      then [Move(row, col + 2, Left)] else []
    case Down =>
      if row > 1 && b[row - 1][col] == Filled && b[row - 2][col] == Filled
      then [Move(row - 2, col, Down)] else []
    case Up =>
      if row < |b| - 2 && b[row + 1][col] == Filled && b[row + 2][col] == Filled
      then [Move(row + 2, col, Up)] else []
  }

  /** Each of the four appends adds at most the one jump in its direction that
      lands on (row, col). */
  lemma JumpIntoShape(b: Board, row: int, col: int, d: Direction)
    requires Rectangular(b) && InBounds(b, (row, col))
    ensures |JumpInto(b, row, col, d)| <= 1
    ensures forall m :: m in JumpInto(b, row, col, d) ==> m == MoveInto(row, col, d)
  {
  }

  /** Each guard (col > 1, col < width - 2, row > 1 or row < height - 2) keeps both
      scanned cells on the board, so the jump into (row, col) is kept exactly when
      its source and jumped-over cells hold pegs: when it is jumpable. */
  lemma JumpIntoJumpable(b: Board, row: int, col: int, d: Direction)
    requires Rectangular(b) && InBounds(b, (row, col))
    ensures JumpInto(b, row, col, d) != [] <==> Jumpable(b, MoveInto(row, col, d))
  {
    var m := MoveInto(row, col, d);
    assert |b[row]| == |b[0]|;
    match d
    case Right =>
      assert Source(m) == (row, col - 2) && Over(m) == (row, col - 1);
      assert Jumpable(b, m) <==> col > 1 && b[row][col - 1] == Filled && b[row][col - 2] == Filled;
    case Left =>
      assert Source(m) == (row, col + 2) && Over(m) == (row, col + 1);
      assert Jumpable(b, m) <==> col < |b[0]| - 2 && b[row][col + 1] == Filled && b[row][col + 2] == Filled;
    case Down =>
      assert Source(m) == (row - 2, col) && Over(m) == (row - 1, col);
      if row > 1 {
        assert |b[row - 1]| == |b[row - 2]| == |b[0]|;
      }
      assert Jumpable(b, m) <==> row > 1 && b[row - 1][col] == Filled && b[row - 2][col] == Filled;
    case Up =>
      assert Source(m) == (row + 2, col) && Over(m) == (row + 1, col);
      if row < |b| - 2 {
        assert |b[row + 1]| == |b[row + 2]| == |b[0]|;
      }
      assert Jumpable(b, m) <==> row < |b| - 2 && b[row + 1][col] == Filled && b[row + 2][col] == Filled;
  }

  /** fillMoves: the jumps that would land a peg in the hole at (row, col), tried
      from the left (a Right jump), from the right (Left), from above (Down) and
      from below (Up). */
  function FillMoves(b: Board, row: int, col: int): seq<Move>
    requires Rectangular(b) && InBounds(b, (row, col))
  {
    JumpInto(b, row, col, Right) + JumpInto(b, row, col, Left) +
    JumpInto(b, row, col, Down) + JumpInto(b, row, col, Up)
  }

  /** Every move fillMoves lists lands on (row, col), at most one per direction... */
  lemma FillMovesLand(b: Board, row: int, col: int)
    requires Rectangular(b) && InBounds(b, (row, col))
    ensures |FillMoves(b, row, col)| <= 4
    ensures forall m :: m in FillMoves(b, row, col) ==> Dest(m) == (row, col)
  {
    JumpIntoShape(b, row, col, Right);
    JumpIntoShape(b, row, col, Left);
    JumpIntoShape(b, row, col, Down);
    JumpIntoShape(b, row, col, Up);
  }

  /** ... and is jumpable. */
  lemma FillMovesJumpable(b: Board, row: int, col: int)
    requires Rectangular(b) && InBounds(b, (row, col))
    ensures forall m :: m in FillMoves(b, row, col) ==> Jumpable(b, m)
  {
    forall d: Direction ensures forall m :: m in JumpInto(b, row, col, d) ==> Jumpable(b, m) {
      JumpIntoShape(b, row, col, d);
      JumpIntoJumpable(b, row, col, d);
    }
  }

  /** fillMoves lists its moves in scan order: Right, Left, Down, Up. */
  lemma FillMovesOrdered(b: Board, row: int, col: int)
    requires Rectangular(b) && InBounds(b, (row, col))
    ensures ScanOrdered(FillMoves(b, row, col))
  {
    var right := JumpInto(b, row, col, Right);
    var left := JumpInto(b, row, col, Left);
    var down := JumpInto(b, row, col, Down);
    var up := JumpInto(b, row, col, Up);
    JumpIntoShape(b, row, col, Right);
    JumpIntoShape(b, row, col, Left);
    JumpIntoShape(b, row, col, Down);
    JumpIntoShape(b, row, col, Up);
    ConcatOrdered(right, left);
    ConcatOrdered(right + left, down);
    ConcatOrdered(right + left + down, up);
  }

  /** fillMoves misses nothing: every jumpable move landing on (row, col) is listed. */
  lemma FillMovesComplete(b: Board, row: int, col: int, m: Move)
    requires Rectangular(b) && InBounds(b, (row, col))
    requires Dest(m) == (row, col) && Jumpable(b, m)
    ensures m in FillMoves(b, row, col)
  {
    assert m == MoveInto(row, col, m.dir);
    JumpIntoShape(b, row, col, m.dir);
    JumpIntoJumpable(b, row, col, m.dir);
    assert JumpInto(b, row, col, m.dir) == [m];
  }

  /** The moves allMoves collects from cells (i, 0) .. (i, j-1) of row i. */
  function RowMoves(b: Board, i: int, j: int): seq<Move>
    requires Rectangular(b) && 0 <= i < |b| && 0 <= j <= |b[i]|
  {
    if j == 0 then []
    else RowMoves(b, i, j - 1) + (if b[i][j - 1] == Empty then FillMoves(b, i, j - 1) else [])
  }

  /** The moves allMoves collects from rows 0 .. i-1. */
  function RowsMoves(b: Board, i: int): seq<Move>
    requires Rectangular(b) && 0 <= i <= |b|
  {
    if i == 0 then [] else RowsMoves(b, i - 1) + RowMoves(b, i - 1, |b[i - 1]|)
  }

  /** Every move of the board's row-major scan is a legal jump. */
  function AllMovesOf(b: Board): (ms: seq<Move>)
    requires Rectangular(b)
    ensures forall k :: 0 <= k < |ms| ==> Legal(b, ms[k])
  {
    RowsMovesLegal(b, |b|);
    RowsMoves(b, |b|)
  }

  lemma ConcatOrdered(xs: seq<Move>, ys: seq<Move>)
    requires ScanOrdered(xs) && ScanOrdered(ys)
    requires forall x, y :: x in xs && y in ys ==> Precedes(x, y)
    ensures ScanOrdered(xs + ys)
  {
    forall i, j | 0 <= i < j < |xs + ys| ensures Precedes((xs + ys)[i], (xs + ys)[j]) {
      if j < |xs| {
      } else if i >= |xs| {
        assert (xs + ys)[i] == ys[i - |xs|] && (xs + ys)[j] == ys[j - |xs|];
      } else {
        assert (xs + ys)[i] in xs && (xs + ys)[j] in ys;
      }
    }
  }

  /** The moves found in the first j cells of row i land in that part of the row. */
  lemma {:induction false} RowMovesLand(b: Board, i: int, j: int)
    requires Rectangular(b) && 0 <= i < |b| && 0 <= j <= |b[i]|
    ensures forall m :: m in RowMoves(b, i, j) ==> Dest(m).0 == i && Dest(m).1 < j
  {
    if j > 0 {
      RowMovesLand(b, i, j - 1);
      if b[i][j - 1] == Empty {
        FillMovesLand(b, i, j - 1);
        assert RowMoves(b, i, j) == RowMoves(b, i, j - 1) + FillMoves(b, i, j - 1);
      } else {
        assert RowMoves(b, i, j) == RowMoves(b, i, j - 1) + [];
      }
    }
  }

  /** The moves found in the first j cells of row i are legal jumps. */
  lemma {:induction false} RowMovesLegal(b: Board, i: int, j: int)
    requires Rectangular(b) && 0 <= i < |b| && 0 <= j <= |b[i]|
    ensures forall m :: m in RowMoves(b, i, j) ==> Legal(b, m)
  {
    if j > 0 {
      RowMovesLegal(b, i, j - 1);
      if b[i][j - 1] == Empty {
        FillMovesLand(b, i, j - 1);
        FillMovesJumpable(b, i, j - 1);
        assert RowMoves(b, i, j) == RowMoves(b, i, j - 1) + FillMoves(b, i, j - 1);
      } else {
        assert RowMoves(b, i, j) == RowMoves(b, i, j - 1) + [];
      }
    }
  }

  /** The moves found in the first j cells of row i are in scan order. */
  lemma {:induction false} RowMovesOrdered(b: Board, i: int, j: int)
    requires Rectangular(b) && 0 <= i < |b| && 0 <= j <= |b[i]|
    ensures ScanOrdered(RowMoves(b, i, j))
  {
    if j > 0 {
      RowMovesOrdered(b, i, j - 1);
      if b[i][j - 1] == Empty {
        var xs := RowMoves(b, i, j - 1);
        var ys := FillMoves(b, i, j - 1);
        assert forall x, y :: x in xs && y in ys ==> Precedes(x, y) by {
          RowMovesLand(b, i, j - 1);
          FillMovesLand(b, i, j - 1);
        }
        FillMovesOrdered(b, i, j - 1);
        ConcatOrdered(xs, ys);
        assert RowMoves(b, i, j) == xs + ys;
      } else {
        assert RowMoves(b, i, j) == RowMoves(b, i, j - 1) + [];
      }
    }
  }

  /** The moves found in the first i rows land in those rows. */
  lemma {:induction false} RowsMovesLand(b: Board, i: int)
    requires Rectangular(b) && 0 <= i <= |b|
    ensures forall m :: m in RowsMoves(b, i) ==> Dest(m).0 < i
  {
    if i > 0 {
      RowsMovesLand(b, i - 1);
      RowMovesLand(b, i - 1, |b[i - 1]|);
    }
  }

  /** The moves found in the first i rows are legal jumps. */
  lemma {:induction false} RowsMovesLegal(b: Board, i: int)
    requires Rectangular(b) && 0 <= i <= |b|
    ensures forall m :: m in RowsMoves(b, i) ==> Legal(b, m)
  {
    if i > 0 {
      RowsMovesLegal(b, i - 1);
      RowMovesLegal(b, i - 1, |b[i - 1]|);
    }
  }

  /** The moves found in the first i rows are in scan order. */
  lemma {:induction false} RowsMovesOrdered(b: Board, i: int)
    requires Rectangular(b) && 0 <= i <= |b|
    ensures ScanOrdered(RowsMoves(b, i))
  {
    if i > 0 {
      var xs := RowsMoves(b, i - 1);
      var ys := RowMoves(b, i - 1, |b[i - 1]|);
      RowsMovesOrdered(b, i - 1);
      RowMovesOrdered(b, i - 1, |b[i - 1]|);
      assert forall x, y :: x in xs && y in ys ==> Precedes(x, y) by {
        RowsMovesLand(b, i - 1);
        RowMovesLand(b, i - 1, |b[i - 1]|);
      }
      ConcatOrdered(xs, ys);
    }
  }

  lemma {:induction false} RowMovesComplete(b: Board, i: int, j: int, m: Move)
    requires Rectangular(b) && 0 <= i < |b| && 0 <= j <= |b[i]|
    requires Legal(b, m) && Dest(m).0 == i && Dest(m).1 < j
    ensures m in RowMoves(b, i, j)
  {
    if Dest(m).1 == j - 1 {
      FillMovesComplete(b, i, j - 1, m);
    } else {
      RowMovesComplete(b, i, j - 1, m);
    }
  }

  lemma {:induction false} RowsMovesComplete(b: Board, i: int, m: Move)
    requires Rectangular(b) && 0 <= i <= |b|
    requires Legal(b, m) && Dest(m).0 < i
    ensures m in RowsMoves(b, i)
  {
    if Dest(m).0 == i - 1 {
      RowMovesComplete(b, i - 1, |b[i - 1]|, m);
    } else {
      RowsMovesComplete(b, i - 1, m);
    }
  }

  /** allMoves lists exactly the legal jumps of the board (source and jumped-over
      cells Filled, landing hole Empty), each once, in scan order. */
  lemma AllMovesExactlyLegal(b: Board)
    requires Rectangular(b)
    ensures forall m :: m in AllMovesOf(b) <==> Legal(b, m)
    ensures ScanOrdered(AllMovesOf(b))
  {
    RowsMovesOrdered(b, |b|);
    forall m | Legal(b, m) ensures m in AllMovesOf(b) {
      RowsMovesComplete(b, |b|, m);
    }
  }

  /** No move comes before itself, and no two moves come before each other. */
  lemma PrecedesStrict(m1: Move, m2: Move)
    ensures !Precedes(m1, m1)
    ensures !(Precedes(m1, m2) && Precedes(m2, m1))
  {
  }

  lemma HeadIsMember(s: seq<Move>)
    ensures s != [] ==> s[0] in s
  {
  }

  /** Two scan-ordered lists with the same members are the same list. */
  lemma {:induction false} ScanOrderedUnique(xs: seq<Move>, ys: seq<Move>)
    requires ScanOrdered(xs) && ScanOrdered(ys)
    requires forall m :: m in xs <==> m in ys
    ensures xs == ys
    decreases |xs|
  {
    HeadIsMember(xs);
    HeadIsMember(ys);
    if xs != [] && ys != [] {
      if xs[0] != ys[0] {
        assert xs[0] in ys && ys[0] in xs;
        var i :| 0 <= i < |xs| && xs[i] == ys[0];
        var j :| 0 <= j < |ys| && ys[j] == xs[0];
        assert Precedes(xs[0], ys[0]) && Precedes(ys[0], xs[0]);
        PrecedesStrict(xs[0], ys[0]);
      }
      forall m ensures m in xs[1..] <==> m in ys[1..] {
        PrecedesStrict(xs[0], m);
        if m in xs[1..] {
          var i :| 0 <= i < |xs[1..]| && xs[1..][i] == m;
          assert Precedes(xs[0], xs[i + 1]);
        }
        if m in ys[1..] {
          var j :| 0 <= j < |ys[1..]| && ys[1..][j] == m;
          assert Precedes(ys[0], ys[j + 1]);
        }
        assert m in xs <==> m == xs[0] || m in xs[1..] by { assert xs == [xs[0]] + xs[1..]; }
        assert m in ys <==> m == ys[0] || m in ys[1..] by { assert ys == [ys[0]] + ys[1..]; }
      }
      ScanOrderedUnique(xs[1..], ys[1..]);
      assert xs == [xs[0]] + xs[1..] && ys == [ys[0]] + ys[1..];
    }
  }

  /** The list allMoves produces is determined by the board's legal jumps: it is the
      one scan-ordered list of them. */
  lemma AllMovesDetermined(b: Board, ms: seq<Move>)
    requires Rectangular(b) && ScanOrdered(ms)
    requires forall m :: m in ms <==> Legal(b, m)
    ensures AllMovesOf(b) == ms
  {
    AllMovesExactlyLegal(b);
    ScanOrderedUnique(AllMovesOf(b), ms);
  }

  /** allMoves: a nested scan over rows and columns that appends the moves
      filling each Empty hole. */
  method AllMoves(board: Board) returns (moves: seq<Move>)
    requires Rectangular(board)
    ensures moves == AllMovesOf(board)
  {
    moves := [];
    for i := 0 to |board|
      invariant moves == RowsMoves(board, i)
    {
      for j := 0 to |board[i]|
        invariant moves == RowsMoves(board, i) + RowMoves(board, i, j)
      {
        if board[i][j] == Empty {
          moves := moves + FillMoves(board, i, j);
        }
      }
    }
  }
}
