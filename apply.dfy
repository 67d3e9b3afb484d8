/** Applying one move: the board update of applyMove, which works on a fresh copy
    and either returns the new board or aborts. */
module Apply {
  import opened Grid

  /** Why applying a move aborts: the source's explicit "Invalid move" panic, or
      Go's runtime panic for an index outside the board. */
  datatype ApplyError = InvalidMove | IndexOutOfRange

  datatype Result<T> = Ok(value: T) | Err(error: ApplyError)

  /** The board b with the hole at p replaced by h. */
  function SetCell(b: Board, p: Pos, h: Hole): (r: Board)
    requires InBounds(b, p)
    ensures |r| == |b| && forall i :: 0 <= i < |b| ==> |r[i]| == |b[i]|
  {
    b[p.0 := b[p.0][p.1 := h]]
  }

  /** The result of applying m to b: Ok exactly when m is jumpable, and then a
      board of the same dimensions. The cells are examined in the order the source
      reads them (source, jumped-over, destination); the first one that is off the
      board or fails its check decides the error. */
  function Jump(b: Board, m: Move): (r: Result<Board>)
    ensures r.Ok? <==> Jumpable(b, m)
    ensures r.Ok? ==> |r.value| == |b| && (Rectangular(b) ==> Rectangular(r.value))
  {
    if !InBounds(b, Source(m)) then Err(IndexOutOfRange)
    else if At(b, Source(m)) != Filled then Err(InvalidMove)
    else if !InBounds(b, Over(m)) then Err(IndexOutOfRange)
    else if At(b, Over(m)) != Filled then Err(InvalidMove)
    else if !InBounds(b, Dest(m)) then Err(IndexOutOfRange)
    else Ok(SetCell(SetCell(SetCell(b, Source(m), Empty), Over(m), Empty), Dest(m), Filled))
  }

  /** A successful jump leaves a board of the same dimensions in which the source and
      jumped-over cells are Empty, the destination is Filled, and every other cell is
      as it was. */
  lemma JumpChangesThreeCells(b: Board, m: Move)
    requires Jumpable(b, m)
    ensures |Jump(b, m).value| == |b|
    ensures forall i :: 0 <= i < |b| ==> |Jump(b, m).value[i]| == |b[i]|
    ensures forall i, j :: 0 <= i < |b| && 0 <= j < |b[i]| ==>
              Jump(b, m).value[i][j] == (if (i, j) == Source(m) || (i, j) == Over(m) then Empty
                                         else if (i, j) == Dest(m) then Filled
                                         else b[i][j])
  {
  }

  /** How applying a move fails: InvalidMove when all three cells are on the board
      (so the source or the jumped-over cell lacks a peg), IndexOutOfRange when the
      source is off the board or when only the destination is. The destination's
      content is never looked at. */
  lemma JumpErrors(b: Board, m: Move)
    requires Jump(b, m).Err?
    ensures InBounds(b, Source(m)) && InBounds(b, Over(m)) && InBounds(b, Dest(m))
            ==> Jump(b, m).error == InvalidMove
    ensures !InBounds(b, Source(m)) ==> Jump(b, m).error == IndexOutOfRange
    ensures (InBounds(b, Source(m)) && At(b, Source(m)) == Filled &&
             InBounds(b, Over(m)) && At(b, Over(m)) == Filled) ==> Jump(b, m).error == IndexOutOfRange
  {
  }

  lemma {:induction false} RowCountUpdate(row: seq<Hole>, j: int, h: Hole)
    requires 0 <= j < |row|
    ensures RowCount(row[j := h]) == RowCount(row) - Peg(row[j]) + Peg(h)
  {
    if j > 0 {
      RowCountUpdate(row[1..], j - 1, h);
      assert row[j := h][1..] == row[1..][j - 1 := h];
    } else {
      assert row[j := h][1..] == row[1..];
    }
  }

  /** Writing one cell changes the peg count by the difference of the old and new hole. */
  lemma {:induction false} SetCellCount(b: Board, p: Pos, h: Hole)
    requires InBounds(b, p)
    ensures CountFilled(SetCell(b, p, h)) == CountFilled(b) - Peg(At(b, p)) + Peg(h)
  {
    if p.0 == 0 {
      RowCountUpdate(b[0], p.1, h);
      assert SetCell(b, p, h)[1..] == b[1..];
    } else {
      SetCellCount(b[1..], (p.0 - 1, p.1), h);
      assert SetCell(b, p, h)[1..] == SetCell(b[1..], (p.0 - 1, p.1), h);
    }
  }

  /** A jump removes one peg, or two when it lands on a peg: the destination is
      never checked, so a jump onto a Filled hole loses the jumping peg as well. */
  lemma JumpCount(b: Board, m: Move)
    requires Jumpable(b, m)
    ensures CountFilled(Jump(b, m).value) == CountFilled(b) - (if At(b, Dest(m)) == Filled then 2 else 1)
  {
    MoveCellsDistinct(m);
    var b1 := SetCell(b, Source(m), Empty);
    var b2 := SetCell(b1, Over(m), Empty);
    SetCellCount(b, Source(m), Empty);
    SetCellCount(b1, Over(m), Empty);
    SetCellCount(b2, Dest(m), Filled);
  }

  /** A legal jump removes exactly one peg. */
  lemma LegalJumpRemovesOnePeg(b: Board, m: Move)
    requires Legal(b, m)
    ensures Jump(b, m).Ok? && CountFilled(Jump(b, m).value) == CountFilled(b) - 1
  {
    JumpCount(b, m);
  }

  /** applyMove: copy the board row by row into a fresh board, then empty the source,
      check and empty the jumped-over cell, and fill the destination. The input is a
      value and is never changed; the result is exactly Jump(board, move). */
  method ApplyMove(board: Board, move: Move) returns (r: Result<Board>)
    ensures r == Jump(board, move)
  {
    var newBoard := new seq<Hole>[|board|];
    for i := 0 to |board|
      invariant newBoard[..i] == board[..i]
    {
      newBoard[i] := board[i];
    }
    assert newBoard[..] == board;

    var (sr, sc) := Source(move);
    if !(0 <= sr < newBoard.Length && 0 <= sc < |newBoard[sr]|) {
      return Err(IndexOutOfRange);
    }
    if newBoard[sr][sc] != Filled {
      return Err(InvalidMove);
    }
    newBoard[sr] := newBoard[sr][sc := Empty];
    ghost var afterSource := newBoard[..];
    assert afterSource == SetCell(board, Source(move), Empty);

    var (or, oc) := Over(move);
    if !(0 <= or < newBoard.Length && 0 <= oc < |newBoard[or]|) {
      return Err(IndexOutOfRange);
    }
    if newBoard[or][oc] != Filled {
      return Err(InvalidMove);
    }
    newBoard[or] := newBoard[or][oc := Empty];
    ghost var afterOver := newBoard[..];
    assert afterOver == SetCell(afterSource, Over(move), Empty);

    var (dr, dc) := Dest(move);
    if !(0 <= dr < newBoard.Length && 0 <= dc < |newBoard[dr]|) {
      return Err(IndexOutOfRange);
    }
    newBoard[dr] := newBoard[dr][dc := Filled];
    assert newBoard[..] == SetCell(afterOver, Dest(move), Filled);
    r := Ok(newBoard[..]);
  }
}
