/** The solver's data model: holes, boards, directions and moves, together with
    the geometry of a jump (which cells a move touches) and the peg count of a board. */
module Grid {

  /** The four jump directions, in the order the source declares them. */
  datatype Direction = Up | Down | Left | Right

  /** A cell of the board: no peg, a peg, or a cell outside the playable shape. */
  datatype Hole = Empty | Filled | Blocked

  /** The peg at (row, col) jumps over its neighbour in direction dir. */
  datatype Move = Move(row: int, col: int, dir: Direction)

  /** A grid of holes, indexed board[row][col]. */
  type Board = seq<seq<Hole>>

  /** The moves of one (partial) solution, in the order they are played. */
  type MoveSequence = seq<Move>

  /** A cell position (row, col). */
  type Pos = (int, int)

  /** The name a move's direction is printed with. */
  function DirectionName(d: Direction): string
  {
    match d
    case Up => "Up"
    case Down => "Down"
    case Left => "Left"
    case Right => "Right"
  }

  /** Distinct directions print differently, so a printed move names its direction unambiguously. */
  lemma DirectionNamesDistinct(d: Direction, e: Direction)
    ensures DirectionName(d) == DirectionName(e) <==> d == e
  {
  }

  /** Every row has the width of the first one. */
  predicate Rectangular(b: Board) {
    forall i :: 0 <= i < |b| ==> |b[i]| == |b[0]|
  }

  predicate InBounds(b: Board, p: Pos) {
    0 <= p.0 < |b| && 0 <= p.1 < |b[p.0]|
  }

  function At(b: Board, p: Pos): Hole
    requires InBounds(b, p)
  {
    b[p.0][p.1]
  }

  /** One step in direction d: Up and Down move along rows, Left and Right along columns. */
  function RowStep(d: Direction): int {
    match d
    case Up => -1
    case Down => 1
    case Left => 0
    case Right => 0
  }

  function ColStep(d: Direction): int {
    match d
    case Up => 0
    case Down => 0
    case Left => -1
    case Right => 1
  }

  /** The cell a move jumps from. */
  function Source(m: Move): Pos {
    (m.row, m.col)
  }

  /** The cell a move jumps over (one step away). */
  function Over(m: Move): Pos {
    (m.row + RowStep(m.dir), m.col + ColStep(m.dir))
  }

  /** The cell a move lands on (two steps away). */
  function Dest(m: Move): Pos {
    (m.row + 2 * RowStep(m.dir), m.col + 2 * ColStep(m.dir))
  }

  /** The three cells of a move are pairwise distinct. */
  lemma MoveCellsDistinct(m: Move)
    ensures Source(m) != Over(m) && Over(m) != Dest(m) && Source(m) != Dest(m)
  {
  }

  /** What applying a move checks: all three cells on the board, and the
      source and jumped-over cells hold pegs. The destination's content is not checked. */
  predicate Jumpable(b: Board, m: Move) {
    && InBounds(b, Source(m)) && At(b, Source(m)) == Filled
    && InBounds(b, Over(m)) && At(b, Over(m)) == Filled
    && InBounds(b, Dest(m))
  }

  /** A legal jump of the game: a jumpable move that lands in an Empty hole. */
  predicate Legal(b: Board, m: Move) {
    Jumpable(b, m) && At(b, Dest(m)) == Empty
  }

  /** 1 for a peg, 0 otherwise. */
  function Peg(h: Hole): nat {
    if h == Filled then 1 else 0
  }

  /** Number of pegs in one row. */
  function RowCount(row: seq<Hole>): (n: nat)
    ensures n <= |row|
  {
    if row == [] then 0 else Peg(row[0]) + RowCount(row[1..])
  }

  lemma RowCountStep(row: seq<Hole>, k: int)
    requires 0 <= k < |row|
    ensures RowCount(row[k..]) == Peg(row[k]) + RowCount(row[k + 1..])
  {
    assert row[k..][1..] == row[k + 1..];
  }

  /** The peg count of a row of seven holes, hole by hole. */
  lemma RowCountSeven(row: seq<Hole>)
    requires |row| == 7
    ensures RowCount(row) == Peg(row[0]) + Peg(row[1]) + Peg(row[2]) + Peg(row[3])
                           + Peg(row[4]) + Peg(row[5]) + Peg(row[6])
  {
    assert row[0..] == row && row[7..] == [];
    RowCountStep(row, 0);
    RowCountStep(row, 1);
    RowCountStep(row, 2);
    RowCountStep(row, 3);
    RowCountStep(row, 4);
    RowCountStep(row, 5);
    RowCountStep(row, 6);
  }

  /** Number of pegs on the board. */
  function CountFilled(b: Board): nat {
    if b == [] then 0 else RowCount(b[0]) + CountFilled(b[1..])
  }

  lemma CountFilledStep(b: Board, k: int)
    requires 0 <= k < |b|
    ensures CountFilled(b[k..]) == RowCount(b[k]) + CountFilled(b[k + 1..])
  {
    assert b[k..][1..] == b[k + 1..];
  }

  /** The peg count of a board of seven rows, row by row. */
  lemma CountFilledSeven(b: Board)
    requires |b| == 7
    ensures CountFilled(b) == RowCount(b[0]) + RowCount(b[1]) + RowCount(b[2]) + RowCount(b[3])
                            + RowCount(b[4]) + RowCount(b[5]) + RowCount(b[6])
  {
    assert b[0..] == b && b[7..] == [];
    CountFilledStep(b, 0);
    CountFilledStep(b, 1);
    CountFilledStep(b, 2);
    CountFilledStep(b, 3);
    CountFilledStep(b, 4);
    CountFilledStep(b, 5);
    CountFilledStep(b, 6);
  }
}
