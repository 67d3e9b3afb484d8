# Peg-solitaire solver, modelled in Dafny

The program searches a peg-solitaire board for every sequence of jumps that
leaves one peg. A board is a grid of holes. Each hole is `Empty`, `Filled` (it
holds a peg) or `Blocked` (it is not part of the playing area). A move names the
peg at `(row, col)` and a direction. The peg jumps over its neighbour in that
direction and lands two holes away, and the neighbour is removed.

The search is `appendSolutions`. It adds the move to the history and counts one
stone down. With one stone left, it reports the history. Otherwise it applies the
move (`applyMove`), lists the next moves (`allMoves`), and recurses on each of
them, passing the accumulated solutions from one call to the next. `allMoves`
scans the board row by row and, for every `Empty` hole, asks `fillMoves` which
jumps land there. `main` starts the search on a fixed 7 x 7 board from a fixed
first move.

The model has seven modules, one file each:

- `grid.dfy` (`Grid`): holes, directions, moves and boards; the geometry of a
  jump; the peg count of a board; the direction names printed by `Move.String`.
- `apply.dfy` (`Apply`): `applyMove`. The Go panics become an `Err` result. The
  function `Jump` specifies it, and the method `ApplyMove` copies the rows into a
  fresh array of rows and updates three cells, as the source does.
- `moves.dfy` (`Moves`): `fillMoves` and `allMoves`. `AllMoves` is the nested
  loop of the source, proved equal to the function `AllMovesOf`. `AllMovesOf`
  is proved to list exactly the legal jumps, once each, in scan order.
- `solve.dfy` (`Solve`): `appendSolutions` as written. The method
  `AppendSolutions` keeps the recursion and the `for` loop of the source and is
  proved equal to the function `Search`. Its loop is the fold `SearchAll`.
- `collect.dfy` (`Collect`): the same search with the terminal branch corrected
  (see Findings). It is proved to return exactly the complete plays.
- `lastplay.dfy` (`LastPlay`): what the search as written returns in general. The
  corrected search meets the complete plays in scan order, and the search as
  written keeps only the last of them.
- `standard.dfy` (`Standard`): the board, the first move and the stone count of
  `main`, and the run that `main` makes, both as written and corrected.

The board literal in `main` is the 37-hole layout with 36 pegs, and `main` starts
the search with 36 stones, so a complete play has 35 moves
(`Standard.StartCountIsPegCount`, `Standard.RunAsWritten`).

A jump that `applyMove` accepts (`Grid.Jumpable`) needs the source and jumped-over
holes to be on the board and `Filled`, and the landing hole to be on the board.
`applyMove` never looks at what the landing hole holds. A jump that `allMoves`
lists (`Grid.Legal`) also has an `Empty` landing hole.

## Model

| member | source | states |
|---|---|---|
| Grid.DirectionNamesDistinct | solver.go:21-34 | The direction of a move is printed as "Up", "Down", "Left" or "Right" (`Grid.DirectionName`), and two directions have the same printed name exactly when they are the same direction |
| Apply.Jump | solver.go:117-154 | Applying a move succeeds exactly when the source and jumped-over holes are on the board and hold pegs and the landing hole is on the board; the new board has as many rows as the old one and stays rectangular |
| Apply.JumpChangesThreeCells | solver.go:118-153 | A successful jump empties the source and jumped-over holes, fills the landing hole and leaves every other hole and every row's width as it was |
| Apply.JumpErrors | solver.go:124-153 | The abort is "Invalid move" when all three holes are on the board, and an index-out-of-range panic when the source is off the board or when both checked holes hold pegs but the landing hole is off the board |
| Apply.JumpCount | solver.go:124-153 | A jump removes one peg, or two when it lands on a peg, because the landing hole is never checked |
| Apply.LegalJumpRemovesOnePeg | solver.go:124-153 | A jump into an empty hole succeeds and removes exactly one peg |
| Apply.ApplyMove | solver.go:117-155 | The method that copies the board and updates it in place returns exactly `Jump(board, move)`, so both the result board and the abort are the specified ones |
| Moves.MoveInto | solver.go:90-101 | The move that fillMoves builds for a direction lands on the hole it was asked about and has that direction |
| Moves.JumpIntoShape | solver.go:90-101 | Each guarded append of fillMoves adds at most one move, and that move lands on the given hole |
| Moves.JumpIntoJumpable | solver.go:90-101 | A guarded append adds its move exactly when that move is one applyMove accepts |
| Moves.FillMovesLand | solver.go:88-103 | fillMoves lists at most four moves, all landing on the given hole |
| Moves.FillMovesJumpable | solver.go:88-103 | Every move fillMoves lists is accepted by applyMove |
| Moves.FillMovesOrdered | solver.go:88-103 | fillMoves lists its moves in the order Right, Left, Down, Up, without repetition |
| Moves.FillMovesComplete | solver.go:88-103 | Every accepted jump that lands on the given hole is listed by fillMoves |
| Moves.RowMovesLand | solver.go:108-112 | The moves collected from the first j holes of row i land in those holes |
| Moves.RowMovesLegal | solver.go:108-112 | The moves collected from part of a row are legal jumps |
| Moves.RowMovesOrdered | solver.go:108-112 | The moves collected from part of a row are in scan order |
| Moves.RowMovesComplete | solver.go:108-112 | Every legal jump landing in the scanned part of a row is collected |
| Moves.RowsMovesLand | solver.go:107-113 | The moves collected from the first i rows land in those rows |
| Moves.RowsMovesLegal | solver.go:107-113 | The moves collected from the first i rows are legal jumps |
| Moves.RowsMovesOrdered | solver.go:107-113 | The moves collected from the first i rows are in scan order |
| Moves.RowsMovesComplete | solver.go:107-113 | Every legal jump landing in the first i rows is collected |
| Moves.AllMovesOf | solver.go:105-115 | Every move allMoves lists is a legal jump of the board |
| Moves.AllMovesExactlyLegal | solver.go:105-115 | A move is listed by allMoves exactly when it is a legal jump, and the list is in row, column, direction order without repetition |
| Moves.AllMovesDetermined | solver.go:105-115 | allMoves returns the one scan-ordered list of the board's legal jumps, so any such list is its result |
| Moves.AllMoves | solver.go:105-115 | The nested row and column loop returns exactly `AllMovesOf(board)` |
| Solve.SearchShape | solver.go:66-85 | appendSolutions returns the incoming solutions unchanged, or one history of length `len(history) + stoneCount - 1` that begins with the history and the move |
| Solve.SearchAllShape | solver.go:81-84 | After the loop, the accumulator is the incoming solutions or one history of the full length that begins with the history |
| Solve.SearchReplays | solver.go:66-85 | From a legal move, a reported history continues the given history with the move and further moves that each are legal jumps where they are played |
| Solve.SearchAllReplays | solver.go:81-84 | The history the loop reports continues the given history with legal jumps |
| Solve.SearchIntegrity | solver.go:66-85 | When the stone count is the board's peg count, a reported history has the full length, starts with history and move, and its new moves replay legally to a board with one peg |
| Solve.InitialSearchAtMostOne | solver.go:66-85 | A search started with no solutions and an empty history returns at most one history |
| Solve.InitialSearchIntegrity | solver.go:66-85 | A history returned by a search started as main starts it has `stoneCount - 1` moves, begins with the seed move, replays legally and leaves one peg |
| Solve.SearchAllStep | solver.go:81-83 | One pass of the loop passes the accumulator of the earlier passes into the call for the next move |
| Solve.AppendSolutions | solver.go:66-85 | The recursive method with its loop returns exactly `Search(...)`, and with two stones returns only the extended history |
| Solve.LastTerminalWins | solver.go:69-71 | With two stones, the loop returns only the history that ends with the last listed move, whatever the earlier calls returned |
| Solve.ThreeStonesKeepSecond | solver.go:66-85 | With three stones and two next moves, the search returns only the play ending with the second one, and not the play ending with the first |
| Solve.AfterOpening | solver.go:124-146 | On the one-row board TwoEndings, the opening Left jump from (0, 4) leaves pegs at (0, 1) and (0, 2) |
| Solve.LegalAfterOpening | solver.go:88-115 | On that board, the legal jumps are exactly Left from (0, 2) and Right from (0, 1) |
| Solve.MovesAfterOpening | solver.go:105-115 | allMoves lists those two jumps, Left from (0, 2) first |
| Solve.OnlyLastSolutionKept | solver.go:69-71 | From TwoEndings with three stones, the search returns only the play ending with Right from (0, 1); the play ending with Left from (0, 2) is lost |
| Solve.EndingCompletes | solver.go:66-85 | Both plays from TwoEndings are complete: two legal jumps leaving one peg |
| Collect.CollectAppends | solver.go:66-85 | The corrected search only appends: its result is the incoming solutions followed by what it finds from an empty accumulator |
| Collect.CollectAllAppends | solver.go:81-84 | The corrected loop only appends to the accumulator |
| Collect.LastMoveCompletes | solver.go:69-71 | With two stones, the only completing play is the history followed by the move |
| Collect.CompletesAfterFirst | solver.go:73-83 | A play that starts with a legal move completes exactly when its rest completes from the board the move produces |
| Collect.CollectExact | solver.go:66-85 | The corrected search returns a history exactly when it extends the given history with the move and further legal jumps down to one stone |
| Collect.CollectExactStep | solver.go:73-83 | Exactness of the loop over the next moves gives exactness of the search from the move |
| Collect.CollectAllExact | solver.go:81-84 | The corrected loop returns exactly the completing histories whose next move is one of the listed moves |
| Collect.CollectAllStep | solver.go:81-83 | One pass of the corrected loop feeds the accumulator into the call for the next move |
| Collect.AppendAllSolutions | solver.go:66-85 | The corrected recursive method with its loop returns exactly `CollectSearch(...)` |
| Collect.CollectIntegrity | solver.go:66-85 | Every history the corrected search returns has `stoneCount - 1` moves, starts with the seed move, replays legally and leaves one peg |
| Collect.CollectFinds | solver.go:66-85 | Every complete play from the seed move is returned by the corrected search |
| Collect.BothEndingsCollected | solver.go:66-85 | From TwoEndings, the corrected search returns both complete plays |
| LastPlay.PrefixThenPrecedes | solver.go:81-83 | Two plays that agree up to a move and then differ by two moves in scan order are in scan order |
| LastPlay.CollectOrdered | solver.go:66-85 | The corrected search from a legal move lists its plays in scan order |
| LastPlay.CollectAllOrdered | solver.go:81-84 | The corrected loop over the scan-ordered next moves lists its plays in scan order, those through an earlier move first |
| LastPlay.SearchKeepsLast | solver.go:66-85 | The search as written returns the incoming solutions when no complete play goes through the move, and otherwise only the last play the corrected search finds |
| LastPlay.SearchAllKeepsLast | solver.go:81-84 | The loop as written returns the incoming solutions when the corrected loop finds no play, and otherwise only the last play it finds |
| LastPlay.SearchFinds | solver.go:66-85 | Whenever a complete play goes through the move, the search as written returns exactly one history |
| LastPlay.InitialSearchFinds | solver.go:66-85 | A search started as main starts it returns a play whenever a complete play from the seed move exists |
| LastPlay.InitialSearchKeepsLast | solver.go:66-85 | Every other complete play from the seed move comes before the play such a search returns, in scan order |
| Standard.StandardShape | solver.go:158-166 | The starting board is a rectangular 7 x 7 grid |
| Standard.StartCountIsPegCount | solver.go:158-171 | The stone count main passes, 36, is the number of pegs on the starting board |
| Standard.SeedIsLegal | solver.go:162-171 | The seed move, Up from (5, 3), is a legal jump of the starting board and is one of the moves allMoves lists for it |
| Standard.RunAsWritten | solver.go:157-171 | main's search returns one solution exactly when a complete play from the seed move exists, and none otherwise; the solution has 35 moves, starts with the seed move, replays legally, leaves one peg, and every other complete play comes before it in scan order |
| Standard.RunCorrected | solver.go:157-171 | With the corrected accumulator, main's search returns exactly the 35-move plays from the starting board that begin with the seed move and are legal jumps throughout, and each leaves one peg |

## Left out

- Printing is not modelled: `Board.print` (solver.go:46-62), the `Sprintf` in `Move.String` (solver.go:33) and the output in `main` (solver.go:172-173). Only the direction names are modelled.
- The commented-out code in `appendSolutions` and `main` is not modelled.
- The model does not say which solutions exist on the 7 x 7 board, or whether there are any. The full search is far too large to evaluate in a proof. `Standard.RunAsWritten` and `Standard.RunCorrected` state what every returned solution is.
- Slice aliasing is not modelled. Go's `append(history, move)` can share one backing array between sibling calls, so a sibling explored later can overwrite moves of a history already stored in the solutions. The model treats histories as values, so `LastPlay.SearchKeepsLast` describes the history each terminal call builds, not what that backing array holds at the end.
- Solve.AppendSolutions and Collect.AppendAllSolutions require a rectangular board, at least two stones, and a move that `applyMove` accepts whenever the move is applied (`Solve.SearchPre`). The source panics on a rejected move in `applyMove`. A search started with fewer than two stones never meets its terminal count, and the model does not cover it.
- Moves.AllMoves and the fillMoves lemmas require a rectangular board. `fillMoves` bounds every column by `len(board[0])` (solver.go:93), so on a ragged board it may panic or silently miss jumps. Every board the program builds is rectangular: main's literal (`Standard.StandardShape`), and `applyMove` keeps every row's length (`Apply.Jump`).
- Go `int` overflow of rows, columns and the stone count is not modelled; Dafny integers are unbounded.
- Hole and Direction values outside the declared constants (possible for Go integer types) are not modelled.
- Solve.SearchReplays, Solve.SearchIntegrity and Solve.InitialSearchIntegrity assume the seed move is legal (its landing hole is Empty). `appendSolutions` itself only needs `applyMove` to accept it.

## Findings

| source | as written | input that shows it | evidently intended | confidence | as-written member | corrected member |
|---|---|---|---|---|---|---|
| solver.go:69-71 | With one stone left, `appendSolutions` returns `[]MoveSequence{history}`. This discards the `solutions` it was given, so the search keeps only the last complete play it reaches. | The one-row board `[Empty, Filled, Empty, Filled, Filled]`, seed move Left from (0, 4), stone count 3. Two plays complete the game, but only the one ending with Right from (0, 1) is returned. | `return append(solutions, history)`, so that every complete play is collected | high (not executed) | Solve.OnlyLastSolutionKept | Collect.CollectExact |
