# Lines of Action: the board and the machine player

This project models the core of a Lines of Action program. It has two parts.

- The `Board` holds the 64 squares, the side to move, the stack of moves
  made, the move limit, and two lazily computed caches. One cache holds the
  winner. The other holds the sizes of each colour's regions, largest first.
- The `MachinePlayer` picks a move. It runs a depth-5 alpha-beta search on a
  copy of the board, making and retracting each legal move in turn.

The Dafny code is split into six modules.

- `Types` (types.dfy): pieces, squares, the eight directions, moves.
- `Regions` (regions.dfy): the flood fill of a colour's cluster, the scan that
  collects the region sizes, and the descending sort, as pure functions. It
  also states what they mean: "contiguous" is defined through closed sets of
  squares.
- `Rules` (rules.dfy): a position as a value, and the rules on it:
  - how many pieces lie on a line;
  - when a move is legal;
  - the legal-move list in the board's scan order;
  - making and retracting a move;
  - the outcome.
- `GameSearch` (search.dfy): the search exactly as the player runs it, full
  minimax as a reference, and the lemmas that connect the two.
- `BoardState` (board.dfy): the class `Board`. Its fields are updated in
  place, and every method is proved against the functions above.
- `Machine` (machine.dfy): the class `MachinePlayer`, whose `foundMove` field
  the search writes.

Square `s` is column `s % 8`, row `s / 8`. Directions 0 to 7 are N, NE, E, SE,
S, SW, W and NW.

The caches are modelled with the source's quirks:

- `MakeMove` clears the region cache but keeps a known winner.
- `Set` clears neither cache.
- A copy made with the copying constructor:
  - copies the "winner known" flag but not the winner;
  - keeps the region cache of the standard layout.

`Coherent()` says that both caches agree with a fresh computation.

The documentation comment of `findMove` (MachinePlayer.java:65-71) says the
move should have "value > BETA". The code stops the scan once `alpha >= beta`.
The model follows the code.

## Model

| member | source | states |
|---|---|---|
| Rules.CountPiecesBounds | Board.java:174-196 | The two counting walks, out along a direction and back along the opposite one, count exactly the pieces on that line, and this count is between 1 and 8. |
| BoardState.Board.CountPieces | Board.java:174-196 | countPieces returns the number of pieces on the line through the square, which lies in 1..8. |
| BoardState.Board.Blocked | Board.java:287-299 | blocked is true exactly when the target holds a piece of the side to move, or an enemy piece stands strictly between the two squares. |
| BoardState.Board.IsLegal | Board.java:160-167 | isLegal(from, to) holds exactly when all five conditions hold: a piece of the side to move stands on `from`; `from`-`to` is a queen move; the target does not hold a piece of the side to move; no enemy piece stands strictly between `from` and `to`; and the distance equals the number of pieces on the line. |
| BoardState.Board.IsLegalMove | Board.java:200-202 | isLegal(Move) is legality of the move's two squares; the capture flag is ignored. |
| Rules.LegalFacts | Board.java:160-167 | A legal move goes 1 to 7 squares, onto an empty or enemy square, and ends where its direction and distance lead. |
| BoardState.Board.LegalMoves | Board.java:205-221 | legalMoves returns exactly the rule's list of legal moves. |
| BoardState.Board.SquareLegalMoves | Board.java:208-219 | The loop over directions from one square yields that square's moves, direction by direction. |
| BoardState.Board.RayLegalMoves | Board.java:210-218 | The loop along one direction yields that direction's legal moves, nearest first, and stops at the edge of the board. |
| Rules.LegalMovesExact | Board.java:205-221 | A move is in the list exactly when it is not flagged as a capture and is legal. |
| Rules.LegalMovesOrdered | Board.java:205-221 | The list is ordered by square, then direction, then distance, so no move appears twice. |
| BoardState.Board.MakeMove | Board.java:126-135 | makeMove applies the move: the piece moves, the target is overwritten, the turn passes, and the move is recorded with the capture flag set when an enemy stood on the target. The region cache is cleared; the winner cache and the region lists themselves are left alone. |
| Rules.ApplyEffect | Board.java:126-135 | A legal move changes only its two squares, passes the turn, appends one move with the right capture flag, and keeps the limit. |
| BoardState.Board.Retract | Board.java:139-151 | retract undoes the last move: the piece goes back, a captured enemy is restored, the turn passes back. Both caches are cleared. |
| Rules.RoundTrip | Board.java:126-151 | Retracting right after a legal move restores the exact position, captured piece included. |
| BoardState.Board.Get | Board.java:88-90 | get returns the piece on the square in the board's position. |
| BoardState.Board.GetMoveLimit | Board.java:118-120 | getMoveLimit returns the position's move limit, counted in moves of both sides. |
| BoardState.Board.Turn | Board.java:154-156 | turn returns the side to move, which is never EMP. |
| BoardState.Board.MovesMade | Board.java:255-257 | movesMade returns the number of unretracted moves. |
| BoardState.Board.Set | Board.java:94-99 | set changes one square, and the turn when a next side is given; neither cache is cleared. |
| BoardState.Board.SetKeepTurn | Board.java:103-105 | The two-argument set changes one square and keeps the turn. |
| BoardState.Board.SetMoveLimit | Board.java:109-114 | setMoveLimit succeeds exactly when 2 * limit exceeds the moves made. On success the limit becomes 2 * limit; on failure it is unchanged. |
| BoardState.Board.Initialize | Board.java:54-67 | initialize fills every column and row from the contents, sets the side to move, an empty move stack and limit 60, clears the winner, and leaves freshly computed region lists. |
| BoardState.Board.Clear | Board.java:70-72 | clear sets the standard layout with black to move. |
| BoardState.Board.constructor | Board.java:37-40 | The board holds the given contents and side, and its caches are coherent. |
| BoardState.Board.Standard | Board.java:42-46 | The default board is the standard layout, black to move. |
| BoardState.Board.Copy | Board.java:48-51 | The copy has the same cells, moves, turn, limit and winner-known flag. Its winner is unset, and its region cache is still that of the standard layout, where neither side is one region. |
| BoardState.Board.CopyFrom | Board.java:75-85 | copyFrom copies the cells, moves, turn, limit and winner-known flag. The winner and the region cache are left as they were, and copying from itself changes nothing. |
| BoardState.Board.NumContig | Board.java:305-315 | numContig returns the size of the unvisited cluster of `p` at the square, and marks it visited, as the pure flood fill `Contig` does. It returns 0 for an empty square, a square of the other colour, or a visited square. |
| BoardState.Board.NumContigAdjacent | Board.java:311-313 | The loop over the eight neighbours adds up the fill from each of them, in direction order. |
| Regions.ContigMarks | Board.java:305-315 | The fill marks only pieces of `p`, marks exactly as many new squares as it counts, and marks the start square when it holds `p`. |
| Regions.ContigClosed | Board.java:305-315 | What the fill newly marks has no unmarked neighbour of colour `p` outside it. |
| BoardState.Board.ComputeRegions | Board.java:318-342 | computeRegions does nothing when the cache is current. Otherwise it leaves each colour's list equal to the sorted sizes of the regions the scan finds, and marks the cache current. |
| Regions.SortDescFacts | Board.java:339-340 | Sorting in reverse order gives a descending permutation of the list. |
| Regions.RegionSizesSum | Board.java:318-342 | The region sizes of a colour are positive, largest first, and add up to the number of that colour's pieces. |
| Regions.FirstRegionFacts | Board.java:305-315 | The region found from a colour's first piece contains it, is closed, and lies inside every closed set that contains that piece. |
| Regions.OneRegionIffContiguous | Board.java:230-232 | A colour has exactly one region if and only if its pieces are contiguous. |
| BoardState.Board.GetRegionSizes | Board.java:346-353 | getRegionSizes hands out the white list for WP and the black list otherwise, after bringing the cache up to date. On a coherent board this is the fresh region list. |
| BoardState.Board.PiecesContiguous | Board.java:230-232 | piecesContiguous holds exactly when the side's list has one entry; on a coherent board, exactly when the side's pieces are contiguous. |
| Rules.OutcomeMeaning | Board.java:236-250 | The winner is decided in this order: the side that moved last if it is contiguous, else the side to move if it is, else a tie at the move limit, else the game goes on. |
| BoardState.Board.Winner | Board.java:236-250 | A known winner is returned unchanged. Otherwise the winner is computed from the current lists and cached only when the game is over. On a coherent board the result is the position's outcome. |
| BoardState.Board.GameOver | Board.java:225-227 | gameOver holds exactly when winner() returns a value; on a coherent board, exactly when the position has an outcome. |
| BoardState.Board.Undo | Board.java:356-361 | undo retracts two moves when more than one was made and the game is not over, and then both caches are cleared. With one move or none nothing changes. When the game is over the position stays; the `gameOver` call may have stored the winner and the region lists, which then agree with the position if the caches did before. |
| BoardState.Board.NumPieces | Board.java:366-372 | numPieces sums the side's list; on a coherent board this is the number of its pieces. |
| BoardState.Board.HeuristicEstimate | Board.java:378-384 | The estimate is the estimator applied to the white and the black list. |
| Rules.InitialNotContiguous | Board.java:388-397 | In the standard layout neither side is contiguous. |
| BoardState.LayoutOfRows | Board.java:54-58 | Filling the cells from the rows of the standard layout gives the standard cells. |
| GameSearch.TerminalValue | MachinePlayer.java:74-82 | A white win scores WINNING_VALUE, a black win -WINNING_VALUE, a tie 0. |
| GameSearch.SearchWindow | MachinePlayer.java:65-71 | For every window inside [-INFTY, INFTY], a value at or below alpha is an upper bound on the minimax value, a value at or above beta is a lower bound, and a value in between is exact. |
| GameSearch.RootSearchIsMinimax | MachinePlayer.java:52-63 | With the root window (-INFTY, INFTY) and a bounded estimate, the search returns exactly the minimax value and move. |
| GameSearch.FullScanFirstBest | MachinePlayer.java:86-106 | Minimax keeps the best value over the moves and records the first move that reaches it; with no improving move it keeps the starting choice. |
| GameSearch.RootFirstBest | MachinePlayer.java:52-108 | At a root that is not over, no move's minimax value beats the returned value. The returned move is the first move reaching that value, or none when the value is the starting -sense * INFTY. |
| GameSearch.MinimaxBounds | MachinePlayer.java:14-16 | With a bounded estimate every minimax value lies in [-INFTY, INFTY]. |
| GameSearch.SearchMoveListed | MachinePlayer.java:86-106 | A move the search records is one of the position's moves. |
| Machine.ChooseDepth | MachinePlayer.java:111-113 | The depth is at least 1 (it is 5). |
| Machine.SenseOf | MachinePlayer.java:56-61 | White searches with sense 1, black with -1. |
| Machine.MachinePlayer.constructor | MachinePlayer.java:25-27 | The player has the given side and no move found yet. |
| Machine.MachinePlayer.SearchForMove | MachinePlayer.java:52-63 | Any board without a stored winner and with the game open may be passed in, stale region lists included, and it is unchanged. The result is the move the depth-5 search with the root window records, for the side's sense, and it is a legal, non-capture-flagged move. With a bounded estimate it is also the minimax move. |
| Machine.MachinePlayer.FindMove | MachinePlayer.java:72-108 | The board's position is unchanged afterwards. The value is the search value. foundMove is set to the search's move only when saveMove and a move was found. A finished game scores its terminal value and a depth-0 search its estimate, and neither sets foundMove. |
| Machine.MachinePlayer.ScanMoves | MachinePlayer.java:86-106 | The loop over the legal moves returns the scan's first best score, with foundMove written only when saveMove, and leaves the position as it was. |
| Machine.MachinePlayer.TryMove | MachinePlayer.java:87-89 | Make, search one level shallower with the opposite sense, retract: the score is the child's search value, and the position, the cleared winner cache and foundMove are restored. |

## Left out

- Floating point: the estimate (Board.java:378-384) uses doubles, a square root and casts. It is a parameter `est` of the two region lists. The minimax equality assumes `est` lies in [-INFTY, INFTY].
- `heuristicEstimate` throws when a side has no pieces, since it reads entry 0 of an empty region list (Board.java:380-381). The model's `est` is a total function and has no such error path.
- The move limit of 60 is compared with the number of moves of both sides together (Board.java:242). So a game that nobody wins is a tie after 30 moves by each side, not after 60 by each side as the comment on the constant (Board.java:22) says. `setMoveLimit(n)` does store 2 * n. The model follows the code.
- Machine.MachinePlayer.SearchForMove: requires that the board has no stored winner. A board whose winner flag is set hands the flag, but not the winner, to its copy (Board.java:75-85). On the copy, `winner()` then answers null (Board.java:236-250) and `makeMove` keeps the flag (Board.java:126-135), so the first line of play the search follows, down to the first `retract`, would miss a finished game. `retract` clears the flag (Board.java:150), so every later node finds the outcome as usual. The model excludes such boards. A game in progress never sets the flag while the game is open, so real callers meet the requirement.
- Java `int` overflow is not modelled; integers are unbounded. The search's scores are bounded by INFTY whenever the estimate is.
- Board.java `toString`, `equals`, `hashCode` and the `ROW_COL` pattern, and MachinePlayer.java `getMove`, `create` and `isManual`: these are text output and player plumbing, not game logic.
- The `Square`, `Move` and `Piece` classes are not part of this model. A square is an index 0..63 (column + 8 * row), a direction is 0..7 in the order N, NE, E, SE, S, SW, W, NW, and a move is a from/to/capture record.
- Java `assert` statements and documented preconditions become `requires` clauses. Examples are `isLegal(move)` in makeMove and `movesMade() > 0` in retract.
- `setMoveLimit` throws `IllegalArgumentException` in the source. The model returns `false` and changes nothing.
- The sort with `Collections.reverseOrder()` is modelled by an insertion sort, `SortDesc`, proved to give a descending permutation.
- `Square.adjacent()` is not part of this model: the neighbours of a square are visited in direction order N to NW. The count does not depend on that order.
- The region scan keeps two 8 x 8 boolean grids; the model uses two 64-entry arrays indexed by square.
- The nested loops of `legalMoves` and of `findMove`, and the neighbour loop of `numContig`, are separate methods of their own. These are `SquareLegalMoves`, `RayLegalMoves`, `ScanMoves`, `TryMove` and `NumContigAdjacent`.
- `findMove` calls `winner()` up to three times; the model does the same, and each call returns the cached value.
- Machine.MachinePlayer.FindMove: the window contract is not stated on the method itself. It is `SearchWindow`, stated about the function the method is proved equal to.
- Machine.MachinePlayer.ScanMoves: "alpha never decreases, beta never increases" is not a loop invariant. It is part of the scan's definition (`Max`/`Min` in `Scan` and `ScanNext`).
- Machine.MachinePlayer.TryMove: requires the move to be in the list of legal moves, which is the only way `findMove` calls it.
- Machine.MachinePlayer.FindMove: takes a ghost `Game` that agrees with the rules (`Plays`). This keeps the rules from being unfolded inside the search; it does not weaken the result, which `SearchForMove` states for Lines of Action.
- BoardState.Board.Copy: the inherited region lists are described through the standard layout and by the fact that neither has exactly one entry, rather than as explicit values.
- The game driver, the players' turn loop, the GUI and text input and output lie outside the core and are not modelled.
