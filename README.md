# faeries game engine core in Dafny

faeries is an engine for abstract board games. One search engine drives several games through a
common `GameRules` interface. The search engine has negamax, alpha-beta, iterative deepening with a
node/time budget, and a random mover. The engine speaks the UGI protocol.

This project models that core:

- **Search and driver.** Negamax with mate-distance scores and principal-variation (PV)
  rebuilding, and alpha-beta with a fail-soft window and cut-offs. Both iterative-deepening
  drivers and their stop policy are covered, as are the random mover and the xorshift generator.
- **Game interface.** `GameRules` is a datatype of pure functions: moves, make, undo, result,
  turn and move count. Its defaults are `legal_moves`, `count_moves`, `is_gameover`, `perft`,
  FEN board parsing and printing. Generic `perft` and `split` are modelled too.
- **Board primitives.** Masked 64-bit square and hex bitboards, square/file/rank/hex
  coordinates with their text forms, and the mailbox grid.
- **Games.** Connect 4, Ataxx, Droptaxx, Isolation, Gomoku and Tak: make/undo, move generation,
  move counting, result rules and perft.
- **Protocol.** The `go` and `position` command parsers.

Conventions:

- Bitboards are `Word`s: sequences of 64 booleans.
- A position is a value. Where the source updates a position in place, a class holds the state
  and its methods are proved against the value-level functions through `State()`.
- Elapsed time, the node budget and the random numbers are parameters.

## Model

| member | source | states |
|---|---|---|
| GameTree.TerminalScore | faeries/src/search/minimax.rs:31-41 | a draw scores 0; a decided game scores positive exactly when the side to move won and negative exactly when it lost; the score lies within ±MATE_SCORE |
| GameTree.BestOfIsFirstMax | faeries/src/search/minimax.rs:47-72 | the best score is at least every move's negated child score; the PV is empty exactly when the score stays -INF_SCORE; otherwise the PV is the first move reaching that score followed by its child's PV (ties keep the earlier move) |
| GameTree.BestOfPrefix | faeries/src/search/minimax.rs:49-72 | scanning more moves never lowers the best score |
| GameTree.NegamaxFirstMove | faeries/src/search/minimax.rs:31-72 | a non-empty PV only comes from an undecided position searched at depth > 0, and its first move is legal |
| GameTree.NegamaxBounded | faeries/src/search/minimax.rs:31-77 | with an evaluation inside ±MATE_SCORE and ply + depth ≤ MATE_SCORE, the negamax score lies within ±INF_SCORE |
| GameTree.SumTreeSizePrefix | faeries/src/search/minimax.rs:49-61 | the nodes visited under a prefix of the moves are at most those under all of them |
| Minimax.MinimaxImpl | faeries/src/search/minimax.rs:13-78 | the position is restored; when the stop test holds on entry the result is 0 and stats and PV are untouched; otherwise `nodes` grows by at least 1 and `seldepth` reaches `ply`; a PV starts with a legal move; a decided position or depth 0 gives an empty PV; when the stop test never fires the (score, PV) is negamax's and `nodes` grows by exactly the tree size |
| Minimax.SearchMoves | faeries/src/search/minimax.rs:47-72 | the move loop with make/undo restores the position, and without a stop returns the first-maximum line over the moves and counts exactly their subtrees |
| Minimax.Search | faeries/src/search/minimax.rs:81-162 | depths are reported in order and at most `depth` (default 128) of them; `bestmove` is the first move of the last completed depth's PV and is legal; with no limit, the reports are negamax at depths 1, 2, … and `bestmove` comes from the deepest one; a stop at the root or a decided root makes the as-written `pv[0]` fail |
| Minimax.Deepen | faeries/src/search/minimax.rs:126-159 | the deepening loop over a stop test: reports in order, `bestmove` is the last completed PV's first move and legal, and equals the full negamax line when nothing stops it |
| Minimax.DeepenStep | faeries/src/search/minimax.rs:127-158 | one depth: a stop is honoured only at depth > 1 and leaves `bestmove` alone; a completed depth appends its report and keeps the previous `bestmove` only when its PV is empty |
| Minimax.FullReports | faeries/src/search/minimax.rs:126-159 | the reports of an uninterrupted run are one completed report per depth 1..n |
| AlphaBeta.AlphaBetaImpl | faeries/src/search/alphabeta.rs:13-89 | with alpha < beta: a stop on entry gives 0 with stats and PV untouched; a decided position or depth 0 gives an empty PV; a PV starts with a legal move; with no stop the result is fail-soft with respect to negamax (exact inside the window, a bound at or beyond it) and visits no more nodes than negamax; with no moves the score is -INF_SCORE; with an evaluation strictly inside ±MATE_SCORE and no dead ends the score lies strictly inside ±INF_SCORE |
| AlphaBeta.SearchMoves | faeries/src/search/alphabeta.rs:52-84 | the move loop with the narrowing window (-beta, -alpha) and the break at alpha ≥ beta is fail-soft with respect to the first-maximum line over the moves |
| AlphaBeta.TryMove | faeries/src/search/alphabeta.rs:53-83 | one move: the child searched with (-beta, -alpha), the best score and PV raised only on a strict improvement, and alpha raised to the score |
| AlphaBeta.CutOffMoves | faeries/src/search/alphabeta.rs:81-83 | leaving the loop once alpha ≥ beta still gives a fail-soft bound for the whole move list |
| AlphaBeta.LoopExit | faeries/src/search/alphabeta.rs:52-88 | whichever way the loop ends (all moves or a cut-off), the result is fail-soft with respect to the whole list |
| AlphaBeta.RootWindowIsExact | faeries/src/search/alphabeta.rs:137-147 | at the root window (-1e9, 1e9) a fail-soft result equals the negamax line exactly |
| AlphaBeta.Search | faeries/src/search/alphabeta.rs:92-179 | the same driver guarantees as minimax; with no limit each completed depth reports negamax's line and `bestmove` comes from the deepest one |
| AlphaBeta.Deepen | faeries/src/search/alphabeta.rs:135-176 | the deepening loop: reports in order, `bestmove` legal and the last completed PV's first move, exact lines when nothing stops it |
| AlphaBeta.DeepenStep | faeries/src/search/alphabeta.rs:136-175 | one depth: an interrupted depth > 1 keeps the previous `bestmove` and ends the loop |
| Deepening.RecordBestAsWritten | faeries/src/search/minimax.rs:158 | `Some(pv[0])`, defined only for a non-empty PV |
| Deepening.KeepBest | faeries/src/search/alphabeta.rs:175 | a completed depth records its PV's first move, and an empty PV keeps the previous `bestmove` |
| Deepening.BestAsWrittenIsLastMove | faeries/src/search/minimax.rs:126-161 | the as-written driver fails exactly when some completed depth has an empty PV, and otherwise returns the last recorded move |
| Deepening.LastMove | faeries/src/search/minimax.rs:158 | the recorded move is the first move of some completed depth's PV |
| Deepening.DeepestBestIsLegal | faeries/src/search/minimax.rs:126-161 | the move the driver ends with is legal and is the first move of negamax's PV at some searched depth |
| Deepening.RecordInterrupted | faeries/src/search/alphabeta.rs:150-162 | an interrupted depth leaves `bestmove` as it was |
| StopPolicy.ShouldStop | faeries/src/search/minimax.rs:102-123 | a node budget decides alone (stop iff nodes > budget); else a move time (stop iff elapsed ≥ movetime); else the mover's clock (stop iff elapsed ≥ clock/30); with none of these it never stops |
| StopPolicy.StopIsMonotone | faeries/src/search/minimax.rs:102-123 | once the stop test holds, more nodes or more time keep it holding |
| StopPolicy.TinyClockStopsAtOnce | faeries/src/search/minimax.rs:117-120 | a clock under 30 ms gives a zero budget, so the test holds before any node |
| StopPolicy.AsU128 | faeries/src/search/minimax.rs:108 | the `as u128` cast keeps non-negative values and wraps negative ones to the top of the range |
| StopPolicy.Quot | faeries/src/search/minimax.rs:118 | Rust's `/` truncates toward zero: the quotient brackets x from below when x ≥ 0 and from above when x < 0 |
| RandomSearch.MoveIndex | faeries/src/search/random.rs:9 | the index `r % n` is below n and equals r when r < n |
| RandomSearch.Pick | faeries/src/search/random.rs:8-10 | for a non-empty move list the pick is `Some` of a legal move |
| RandomSearch.EveryMoveReachable | faeries/src/search/random.rs:9 | every legal move is picked by some 64-bit random value |
| RandomSearch.Random | faeries/src/search/random.rs:4-11 | exactly one random number is drawn (one generator step), and the move is the pick for that number |
| Prng.XorshiftGenerator.Next | faeries/src/prng.rs:10-14 | the state becomes x ^= x<<13, x ^= x>>7, x ^= x<<17 of the old state, and the result is the new state |
| Prng.Draw | faeries/src/prng.rs:5-14 | n draws from a seed give the 1st through n-th iterates of that step, so the seed fixes the whole sequence |
| Prng.ZeroFixed | faeries/src/prng.rs:10-14 | a zero state stays zero |
| Prng.StepInjective | faeries/src/prng.rs:10-13 | the step is injective: different states never collide |
| Prng.NonZeroForever | faeries/src/prng.rs:10-14 | a non-zero seed never reaches zero |
| GameRules.DefaultGameover | games/src/gamerules.rs:125-127 | the game is over exactly when there is a result |
| GameRules.LegalMoves | games/src/gamerules.rs:102-111 | the collected list is the generator's moves in generator order |
| GameRules.DefaultCountMoves | games/src/gamerules.rs:133-140 | the count is the number of generated moves |
| GameRules.Perft | games/src/gamerules.rs:153-167 | the make/undo perft returns the perft count (1 at depth 0, `count_moves` at depth 1, the sum over children otherwise) and restores the position |
| GameRules.PerftIsLeaves | games/src/gamerules.rs:153-167 | with reversible make/undo and honest counts, perft equals the number of leaves of the move tree |
| GameRules.SumPerftIsSumLeaves | games/src/gamerules.rs:159-164 | the sum over a list of legal moves equals the sum of their leaf counts |
| GameRules.FillingPerft | games/src/gamerules.rs:153-167 | in a game where every move fills one empty square, perft at depth d is the falling factorial n·(n-1)·…·(n-d+1) of the move count |
| PerftDriver.PerftImpl | games/src/perft.rs:5-18 | the recursion returns the perft count |
| PerftDriver.Perft | games/src/perft.rs:20-34 | reports depths 1..depth in increasing order with each depth's count, and passes the last count (0 for depth ≤ 0) to the final handler |
| PerftDriver.Split | games/src/perft.rs:36-51 | reports each root move once, in generator order, with the perft of its child at depth-1, and the total is their sum |
| PerftDriver.SplitTotalIsPerft | games/src/perft.rs:42-49 | the split total equals perft at depth |
| PerftDriver.BelowZeroIsZero | games/src/perft.rs:5-18 | `perft_impl` at a negative depth (what `split` passes for a depth of 0 or less) matches neither base case and walks the whole tree; whenever that walk ends, its count is 0 |
| PerftDriver.SumBelowZeroIsZero | games/src/perft.rs:10-15 | the move loop at a negative depth sums only zeros, so it ends with 0 or not at all |
| PerftDriver.StuckBelowZero | games/src/perft.rs:10-15 | a position without moves gives 0 at a negative depth |
| BoardFen.SetFen | games/src/gamerules.rs:19-57 | "startpos" yields the start position and nothing else does; otherwise the pieces placed are those of the walk over the first space-separated field, and the other fields are kept in order |
| BoardFen.Step | games/src/gamerules.rs:33-53 | a piece is placed at x + skip on the current rank and resets the skip; a digit only grows the skip; '/' resets x and the skip and moves down one rank |
| BoardFen.ScanBoardLoop | games/src/gamerules.rs:27-55 | the character loop places exactly the pieces of the specification walk |
| BoardFen.GetBoardFen | games/src/gamerules.rs:62-90 | the printed board is the ranks from top to bottom, separated by '/', each with its empty runs as decimals |
| BoardFen.AppendRank | games/src/gamerules.rs:66-85 | one rank's text is appended to what came before |
| BoardFen.SetFenReadsBoardFen | games/src/gamerules.rs:19-90 | reading back a printed board places exactly the occupied squares with their pieces, for single-character pieces |
| BoardFen.SplitSpacesJoin | games/src/gamerules.rs:26 | splitting on ' ' and joining with ' ' gives the original text |
| Bits.ClearLowestIsUpdate | games/src/general/bitboard.rs:235-238 | clearing the lowest set bit clears bit `tz` and nothing else, and lowers the count by one |
| Bits.LsbBbIsLowestBit | games/src/general/bitboard.rs:225-228 | `b ^ (b & (b - 1))` is the single lowest set bit of a non-empty board, and empty for an empty one (where the source's `b - 1` panics; see Left out) |
| Bits.CountZeroIff | games/src/general/bitboard.rs:200-218 | the popcount is 0 exactly for the empty board |
| Bits.IndicesMembers | games/src/general/bitboard.rs:190-193 | the indices of a bitboard are exactly its set bits |
| Bits.SwapBytesInvolution | games/src/general/bitboard.rs:41-44 | swapping bytes twice gives the original |
| Bitboards.AllBits | games/src/general/bitboard.rs:126-128 | `all()` has exactly the low WIDTH·HEIGHT bits set |
| Bitboards.NorthBits | games/src/general/bitboard.rs:74-77 | north stays on the board and a square is set exactly when the one below it was |
| Bitboards.SouthBits | games/src/general/bitboard.rs:79-82 | south stays on the board and a square is set exactly when the one above it was |
| Bitboards.EastBits | games/src/general/bitboard.rs:84-87 | east stays on the board and a square is set exactly when the one to its left was, with no wrap across ranks |
| Bitboards.WestBits | games/src/general/bitboard.rs:89-92 | west stays on the board and a square is set exactly when the one to its right was, with no wrap across ranks |
| Bitboards.EastWestEdges | games/src/general/bitboard.rs:84-92 | east never sets a left-edge square and west never sets a right-edge square |
| Bitboards.NotBits | games/src/general/bitboard.rs:612-618 | `!b` stays on the board, flips every on-board bit, and is its own inverse on boards |
| Bitboards.FillUpLoop | games/src/general/bitboard.rs:136-178 | the edge constructors' shift-and-or loop gives its specification mask |
| Bitboards.GetLeftEdge | games/src/general/bitboard.rs:136-145 | the loop builds the left-edge mask (file 0) |
| Bitboards.GetRightEdge | games/src/general/bitboard.rs:147-156 | the loop builds the right-edge mask (file WIDTH-1) |
| Bitboards.GetBottomEdge | games/src/general/bitboard.rs:158-167 | the loop builds the bottom-edge mask (rank 0) |
| Bitboards.GetTopEdge | games/src/general/bitboard.rs:169-178 | the loop builds the top-edge mask (rank HEIGHT-1) |
| Bitboards.BorderBits | games/src/general/bitboard.rs:180-188 | a square is on the border exactly when it is on the first or last file or rank |
| Bitboards.FromFileBits | games/src/general/bitboard.rs:64-67 | `from_file(f)` is exactly the squares of file f |
| Bitboards.FromRankBits | games/src/general/bitboard.rs:69-72 | `from_rank(r)` is exactly the squares of rank r |
| Bitboards.AdjacentBits | games/src/general/bitboard.rs:240-250 | a square is adjacent exactly when some set square is at king distance 1 |
| Bitboards.AdjacentSquare | games/src/general/bitboard.rs:240-250 | the neighbours of one square are the squares at king distance 1 |
| Bitboards.Dist2Bits | games/src/general/bitboard.rs:252-266 | a square is in `dist2` exactly when some set square is at king distance 2 |
| Bitboards.Dist2Square | games/src/general/bitboard.rs:252-266 | the `dist2` ring of one square is the squares at king distance 2 |
| Bitboards.IsIndexSet | games/src/general/bitboard.rs:190-193 | `is_index_set(i)` holds exactly when i is one of the set indices |
| Bitboards.EmptyCount | games/src/general/bitboard.rs:200-218 | empty exactly when the count is 0 |
| Bitboards.IsFull | games/src/general/bitboard.rs:205-208 | `is_full` holds exactly when every square of the board is set |
| Bitboards.FullBits | games/src/general/bitboard.rs:205-208 | a board equals `all()` exactly when every square is set |
| Bitboards.Lsb | games/src/general/bitboard.rs:220-223 | the least set index: set, with nothing below it, or 64 for the empty board |
| Bitboards.Msb | games/src/general/bitboard.rs:230-233 | the greatest set index: set, with nothing above it, or -1 for the empty board |
| Bitboards.Popped | games/src/general/bitboard.rs:235-238 | `popped` clears exactly the least set bit and lowers the count by one |
| Bitboards.Swap | games/src/general/bitboard.rs:41-44 | on an 8×8 board, `swap` mirrors the ranks: square (x, y) takes the bit of (x, 7-y) |
| Bitboards.SwapInvolution | games/src/general/bitboard.rs:41-44 | `swap` is its own inverse |
| Bitboards.FloodFill | games/src/general/bitboard.rs:29-38 | the loop returns the flood of `us` through `allowed` |
| Bitboards.FloodBounds | games/src/general/bitboard.rs:29-38 | the flood contains `us & allowed` and is contained in `allowed` |
| Bitboards.FloodSpreads | games/src/general/bitboard.rs:31-36 | each round reaches every allowed orthogonal neighbour of what is flooded |
| Bitboards.RayNorth | games/src/general/bitboard.rs:284-296 | the ray loop gives its specification ray |
| Bitboards.RayNorthSquares | games/src/general/bitboard.rs:284-296 | from a square, the ray holds the squares above it on its file up to and including the first blocker, and at most 7 ranks above it (the one shift and 6 extension rounds of the source), nothing beyond |
| HexBitboards.AllBits | games/src/general/hexbitboard.rs:17-24 | `all()` has exactly the low `size` = W·H + H/2 bits set |
| HexBitboards.NotBits | games/src/general/hexbitboard.rs:208-214 | Not stays on the board, flips every on-board bit, and is its own inverse on boards |
| HexBitboards.StripeLoop | games/src/general/hexbitboard.rs:72-109 | the edge constructors' loop gives its specification stripe |
| HexBitboards.GetLeftEdge | games/src/general/hexbitboard.rs:72-90 | the loop builds the left-edge mask |
| HexBitboards.GetRightEdge | games/src/general/hexbitboard.rs:91-109 | the loop builds the right-edge mask |
| HexBitboards.GetBottomEdge | games/src/general/hexbitboard.rs:110-120 | the bottom edge is exactly the first W cells |
| HexBitboards.GetTopEdge | games/src/general/hexbitboard.rs:121-131 | the top edge is exactly the last W cells |
| HexBitboards.GetLeftDoodads | games/src/general/hexbitboard.rs:142-154 | the loop builds the left-doodad mask |
| HexBitboards.GetRightDoodads | games/src/general/hexbitboard.rs:155-167 | the loop builds the right-doodad mask |
| HexBitboards.LeftEdgeAt | games/src/general/hexbitboard.rs:72-90 | a cell is on the left edge exactly when its file is 0 |
| HexBitboards.BorderAt | games/src/general/hexbitboard.rs:132-141 | a cell is on the border exactly when it is first or last in its row, or on the first or last row |
| HexBitboards.LeftAt | games/src/general/hexbitboard.rs:178-182 | `left` sets a cell exactly when its right-hand neighbour was set, never wrapping across rows |
| HexBitboards.RightAt | games/src/general/hexbitboard.rs:183-187 | `right` sets a cell exactly when its left-hand neighbour was set, never wrapping across rows |
| HexBitboards.UpLeftAt | games/src/general/hexbitboard.rs:188-192 | `up_left` sets a cell exactly when the matching cell of the row below was set |
| HexBitboards.MoveAt | games/src/general/hexbitboard.rs:178-207 | each of the six direction shifts sets a cell exactly when its source cell in that direction was set |
| HexBitboards.AdjacentMoves | games/src/general/hexbitboard.rs:62-70 | `adjacent` is the union of the six direction shifts |
| HexBitboards.AdjacentAt | games/src/general/hexbitboard.rs:62-70 | a cell is adjacent exactly when it touches a set cell |
| HexBitboards.JumpAt | games/src/general/hexbitboard.rs:168-176 | a two-step jump in one direction lands on a cell only when the intermediate cell is not a blocker |
| HexBitboards.DoublesAt | games/src/general/hexbitboard.rs:168-176 | `doubles` holds exactly the cells some jump reaches |
| HexBitboards.IsSet | games/src/general/hexbitboard.rs:57-60 | `is_set` reads the bit of the hex's cell |
| HexBitboards.FromHexIsSet | games/src/general/hexbitboard.rs:37-60 | `from_hex(a).is_set(b)` holds exactly when a = b |
| HexBitboards.Lsb | games/src/general/hexbitboard.rs:32-35 | the hex of the least set index |
| HexBitboards.IdxIsGetIndex | games/src/general/hex.rs:19-26 | the cell index the shifts use is `get_index` |
| Squares.FileRankDecompose | games/src/general/square.rs:8-16 | index = rank·W + file |
| Squares.FromCoordsOnBoard | games/src/general/square.rs:18-20 | `from_coords(x, y)` for on-board x, y is on the board, with file x and rank y |
| Squares.FromStringAsWritten | games/src/general/square.rs:22-47 | as written: accepted exactly for two characters, with the file below W, the rank digit below W (not H), and an index on the board |
| Squares.FromString | games/src/general/square.rs:22-47 | with the rank bounded by H: accepted exactly for two characters with file < W and rank < H, and the square has that file and rank |
| Squares.ToString | games/src/general/square.rs:50-61 | prints two characters: the file letter and the rank digit |
| Squares.FromStringToString | games/src/general/square.rs:22-61 | printing a square and parsing it back gives the square |
| Squares.FromStringAsWrittenToString | games/src/general/square.rs:22-61 | the as-written parser round-trips the printed square on boards no taller than wide |
| Squares.FromStringAsWrittenRejectsTallRank | games/src/general/square.rs:33 | on a 3×6 board the as-written parser rejects "a4", the printed form of square 9, which the corrected parser reads back |
| Files.FromChar | games/src/general/file.rs:6-13 | accepted exactly for 'a' ≤ c < 'a'+W, with index c - 'a' |
| Files.FromString | games/src/general/file.rs:15-21 | an empty string is an error; otherwise the first character decides |
| Files.FromStringToString | games/src/general/file.rs:15-47 | printing a file and parsing it back gives the file |
| Files.ToStringFromString | games/src/general/file.rs:15-47 | a parsed file prints as the first character of the input |
| Ranks.FromString | games/src/general/rank.rs:6-16 | non-numeric text is an error; accepted exactly for 1..=H, giving n-1 |
| Ranks.Flipped | games/src/general/rank.rs:24-26 | the flipped rank is H-1-r |
| Ranks.FlippedInvolution | games/src/general/rank.rs:24-26 | flipping twice gives the rank back |
| Ranks.FromStringToString | games/src/general/rank.rs:6-47 | printing r+1 and parsing it back gives the rank |
| Hexes.FromIndexGetIndex | games/src/general/hex.rs:19-46 | `from_index` inverts `get_index` on the cells of the layout |
| Hexes.GetIndexFromIndex | games/src/general/hex.rs:19-46 | `get_index` inverts `from_index` on every index |
| Hexes.IndexOnBoard | games/src/general/hex.rs:19-26 | a cell's rank is on the board exactly when its index is below the board size |
| Hexes.FromString | games/src/general/hex.rs:49-62 | shorter than 2 is an error; accepted exactly when the first character parses as a file and the rest as a rank |
| Hexes.FromStringToString | games/src/general/hex.rs:49-95 | printing a hex with file < W and parsing it back gives the hex |
| Hexes.FromStringRejectsWideCell | games/src/general/hex.rs:49-62 | on a 4×5 board the parser rejects "e2", the printed form of the last cell of a long row |
| Hexes.FromStringWide | games/src/general/hex.rs:49-62 | the corrected parser: a file letter up to the width of the rank it is on, then a rank; accepted words name cells of the board |
| Hexes.FromStringWideToString | games/src/general/hex.rs:49-95 | every cell of the board, including the last cell of a long rank, prints as a word the corrected parser reads back |
| Hexes.FromStringWideExtends | games/src/general/hex.rs:49-62 | wherever the as-written parser succeeds, the corrected one gives the same cell |
| Hexes.ToStringInverted | games/src/general/hex.rs:65-71 | prints the rank as a letter and then the file as a digit |
| Mailboxes.Mailbox.constructor | games/src/general/mailbox.rs:92-100 | a new grid holds the default value in every cell |
| Mailboxes.Mailbox.SetPiece | games/src/general/mailbox.rs:82-85 | sets one cell; the grid becomes the update of the old grid |
| Mailboxes.GetAfterSet | games/src/general/mailbox.rs:11-18 | after a set, the cell reads back the value and every other cell is unchanged |
| Mailboxes.Mailbox.Fill | games/src/general/mailbox.rs:39-46 | every cell holds the value |
| Mailboxes.Mailbox.CountPiece | games/src/general/mailbox.rs:72-80 | the loop counts the cells equal to the piece |
| Mailboxes.CountUpdate | games/src/general/mailbox.rs:72-85 | a set changes the count of a piece by exactly the cell that changed |
| Mailboxes.CountUniform | games/src/general/mailbox.rs:39-46 | a filled grid counts W·H of its value and 0 of anything else |
| Mailboxes.Mailbox.CountStreakAsWritten | games/src/general/mailbox.rs:53-70 | the loop as written: counts every cell equal to the start cell along the line, gaps included, up to MAX_LEN steps |
| Mailboxes.StreakAsWrittenBounds | games/src/general/mailbox.rs:53-70 | the as-written streak lies between 1 and MAX_LEN+1 |
| Mailboxes.Mailbox.CountStreak | games/src/general/mailbox.rs:53-70 | the loop that stops at the first different cell returns the contiguous streak |
| Mailboxes.StreakReaches | games/src/general/mailbox.rs:53-70 | the contiguous streak reaches n+1 exactly when the next n cells along the line match the start cell |
| Mailboxes.GappedRowCounts | games/src/general/mailbox.rs:53-70 | on the row "x x x x _ x" the as-written streak from the left end is 5 while the contiguous streak is 4 |
| Connect4.MakeDrops | games/src/connect4.rs:140-145 | the mover's piece lands on the lowest empty cell of the file, the other side is unchanged, the turn flips, and `fullmoves` grows exactly when the turn returns to Player1 |
| Connect4.HighestOwn | games/src/connect4.rs:147-154 | after a drop, the mover's highest piece in that file is the dropped one |
| Connect4.MakeUndo | games/src/connect4.rs:140-154 | undo after make restores the position |
| Connect4.RulesReversible | games/src/connect4.rs:140-154 | make/undo are reversible for every legal move of every valid position |
| Connect4.WinsIsFour | games/src/connect4.rs:90-138 | the shift-and tests find a win exactly when four in a row exist in some direction |
| Connect4.ResultIsFour | games/src/connect4.rs:90-138 | Player1's four is checked first, then Player2's, then a full board is a draw, else no result |
| Connect4.MovesAreOpenFiles | games/src/connect4.rs:79-88 | the moves are the files with an open top cell, and none once the game is over |
| Connect4.CountIsMoves | games/src/connect4.rs:61-67 | `count_moves` equals the number of generated moves |
| Connect4.ValidIsStacked | games/src/connect4.rs:206-216 | `is_valid` holds exactly when no cell is doubly occupied and no piece floats |
| Connect4.OverlapIff | games/src/connect4.rs:208-210 | the overlap test passes exactly when the two sides are disjoint |
| Connect4.FloatingIff | games/src/connect4.rs:212-214 | the floating test passes exactly when every piece sits on the bottom rank or on a piece |
| Connect4.StartPerft | games/src/connect4.rs:218-246 | perft of the start at depth 2 is 49 |
| Connect4.Connect4Position.Perft | games/src/connect4.rs:218-246 | the in-place perft returns the perft count and restores the state |
| Connect4.Connect4Position.MakeMove | games/src/connect4.rs:140-145 | updates the fields to the make of the old state |
| Connect4.Connect4Position.UndoMove | games/src/connect4.rs:147-154 | updates the fields to the undo of the old state |
| Connect4.Connect4Position.MoveGenerator | games/src/connect4.rs:79-88 | yields exactly the moves of the state |
| Connect4.Connect4Position.GetResult | games/src/connect4.rs:90-138 | returns the result of the state |
| Ataxx.MakeUndo | games/src/ataxx.rs:203-241 | undo after make restores pieces, counters, turn and snapshot stack |
| Ataxx.MakeCounters | games/src/ataxx.rs:203-231 | a single resets `halfmoves` to 0, a double or pass adds 1; `fullmoves` grows after Player2; the turn flips; one snapshot is pushed |
| Ataxx.AtaxxPosition.PlaySingle | games/src/ataxx.rs:210-217 | a single places the mover's piece, converts the adjacent enemies, and resets `halfmoves` |
| Ataxx.AtaxxPosition.PlayDouble | games/src/ataxx.rs:218-226 | a double moves from → to, converts the adjacent enemies, and increments `halfmoves` |
| Ataxx.CapturedAt | games/src/ataxx.rs:213-222 | the converted squares are exactly the enemy pieces at king distance 1 from the target |
| Ataxx.MovesMembers | games/src/ataxx.rs:142-167 | the moves are the empty squares next to the mover, the double jumps from the mover's pieces, or pass exactly when neither exists, and none once the game is over |
| Ataxx.PassOnlyAlone | games/src/ataxx.rs:163-166 | pass is generated exactly when no single or double move exists, and then it is the only move |
| Ataxx.CountIsMoves | games/src/ataxx.rs:108-129 | `count_moves` equals the number of generated moves, counting pass as 1 |
| Ataxx.CountMoves | games/src/ataxx.rs:108-129 | the counting loop returns the move count |
| Ataxx.MoveGenerator | games/src/ataxx.rs:142-167 | the generator loop yields exactly the moves |
| Ataxx.ResultIffGameover | games/src/ataxx.rs:169-201 | there is a result exactly when `is_gameover` holds (100 halfmoves, a side eliminated, or no empty square reachable) |
| Ataxx.ResultSymmetric | games/src/ataxx.rs:178-201 | swapping the colours swaps the winner and keeps draws and undecided positions |
| Ataxx.ValidIsDisjoint | games/src/ataxx.rs:300-313 | `is_valid` holds exactly when black, white and blockers are pairwise disjoint |
| Ataxx.MakeKeepsValid | games/src/ataxx.rs:203-231 | a legal move keeps the position valid |
| Ataxx.NullUndo | games/src/ataxx.rs:243-251 | `makenull` and `undonull` undo each other |
| Ataxx.RulesReversible | games/src/ataxx.rs:203-241 | make/undo are reversible for every legal move |
| Ataxx.AtaxxPosition.MakeMove | games/src/ataxx.rs:203-231 | updates the fields to the make of the old state |
| Ataxx.AtaxxPosition.UndoMove | games/src/ataxx.rs:232-241 | updates the fields to the undo of the old state |
| Droptaxx.MakeOccupies | games/src/droptaxx.rs:113-124 | a drop keeps the position valid, fills exactly the dropped square and lowers the move count by one |
| Droptaxx.CapturedAt | games/src/droptaxx.rs:116-121 | the converted squares are exactly the enemy pieces at king distance 1 from the drop |
| Droptaxx.MakeUndo | games/src/droptaxx.rs:113-134 | undo after make restores pieces, turn, `fullmoves` and the snapshot stack |
| Droptaxx.RulesReversible | games/src/droptaxx.rs:113-134 | make/undo are reversible for every legal move |
| Droptaxx.UndropRestores | games/src/droptaxx.rs:213-231 | the perft loop's xor make/undo leaves the position unchanged |
| Droptaxx.MovesAreEmpty | games/src/droptaxx.rs:81-86 | the moves are exactly the empty squares |
| Droptaxx.RulesCountsAgree | games/src/droptaxx.rs:109-111 | `count_moves` (the empty squares) agrees with the generator |
| Droptaxx.ResultIsTally | games/src/droptaxx.rs:87-107 | with the corrected result, there is a result exactly when no empty square is left, and it is the piece count |
| Droptaxx.RulesGameoverAgrees | games/src/droptaxx.rs:87-107 | with the corrected result, `is_gameover` agrees with the result |
| Droptaxx.MoreBlack | games/src/droptaxx.rs:96-101 | black with pieces against none wins the tally |
| Droptaxx.TallySymmetric | games/src/droptaxx.rs:91-107 | swapping the colours swaps the tally's winner |
| Droptaxx.BlockedDisagrees | games/src/droptaxx.rs:87-107 | a valid full board with a blocker is game over, yet the as-written result is None |
| Droptaxx.AsWrittenGameoverDisagrees | games/src/droptaxx.rs:87-107 | with the as-written result, `is_gameover` and the result disagree |
| Droptaxx.PerftIsFalling | games/src/droptaxx.rs:202-231 | perft is the falling factorial of the number of empty squares |
| Droptaxx.StartPerft | games/src/droptaxx.rs:202-231 | perft of the start is 1, 49, 2352 and 110544 at depths 0 to 3 |
| Droptaxx.DroptaxxPosition.Perft | games/src/droptaxx.rs:202-231 | the in-place perft returns the perft count and restores the state |
| Droptaxx.DroptaxxPosition.MakeMove | games/src/droptaxx.rs:113-124 | updates the fields to the make of the old state |
| Droptaxx.DroptaxxPosition.UndoMove | games/src/droptaxx.rs:126-134 | updates the fields to the undo of the old state |
| Isolation.FastPerft | games/src/isolation.rs:28-50 | the recursion returns the fast count |
| Isolation.PairingsIsMul | games/src/isolation.rs:36-39 | at depth 1 the count is the number of targets times (open tiles - 1) |
| Isolation.FastIsPerft | games/src/isolation.rs:28-50 | the fast count equals the generic perft |
| Isolation.FastSumIsSumPerft | games/src/isolation.rs:40-47 | the fast sum over moves equals the generic sum over the same moves |
| Isolation.MovesMembers | games/src/isolation.rs:123-129 | the moves are every (to, remove) with `to` a free tile adjacent to the mover and `remove` another free tile |
| Isolation.MoveGenerator | games/src/isolation.rs:123-129 | the nested generator loops yield exactly the moves |
| Isolation.CountIsMoves | games/src/isolation.rs:90-94 | the move count equals the number of generated moves |
| Isolation.MakeSides | games/src/isolation.rs:144-153 | the mover stands on `to`, the `remove` tile is toggled, and the sides swap |
| Isolation.MakeUndo | games/src/isolation.rs:144-164 | undo after make restores pieces, tiles, counters and the snapshot stack |
| Isolation.MakeCounters | games/src/isolation.rs:144-153 | the turn flips, `fullmoves` grows after Player2, and one snapshot is pushed |
| Isolation.RulesReversible | games/src/isolation.rs:144-164 | make/undo are reversible for every legal move |
| Isolation.NullUndo | games/src/isolation.rs:166-174 | `makenull` and `undonull` undo each other |
| Isolation.StuckLoses | games/src/isolation.rs:131-142 | a mover with one piece loses exactly when it has no target |
| Isolation.ValidPieces | games/src/isolation.rs:220-243 | a valid position has one black and one red piece on different squares, each on a tile or on its start square with `fullmoves` = 1 |
| Isolation.MakeKeepsPlayable | games/src/isolation.rs:144-153 | a legal move keeps the position playable |
| Isolation.IsolationPosition.MakeMove | games/src/isolation.rs:144-153 | updates the fields to the make of the old state |
| Isolation.IsolationPosition.UndoMove | games/src/isolation.rs:155-164 | updates the fields to the undo of the old state |
| Gomoku.MakePlaces | games/src/gomoku.rs:62-67 | the mover's stone goes on the empty square, every other square is unchanged, the turn flips, and `fullmoves` grows after Player2 |
| Gomoku.MakeUndo | games/src/gomoku.rs:62-74 | undo after make clears the square and restores turn and `fullmoves` |
| Gomoku.RulesReversible | games/src/gomoku.rs:62-74 | make/undo are reversible for every legal move |
| Gomoku.MovesAreEmptySquares | games/src/gomoku.rs:47-56 | the moves are exactly the empty squares |
| Gomoku.MovesInOrder | games/src/gomoku.rs:47-56 | the moves come in increasing square order |
| Gomoku.GomokuPosition.MoveGenerator | games/src/gomoku.rs:47-56 | the scan over the mailbox yields exactly the moves |
| Gomoku.GomokuPosition.MakeMove | games/src/gomoku.rs:62-67 | writes the cell and turn: the state becomes the make of the old state |
| Gomoku.GomokuPosition.UndoMove | games/src/gomoku.rs:69-74 | clears the cell and restores the turn: the state becomes the undo of the old state |
| Gomoku.ResultIsFive | games/src/gomoku.rs:86-117 | with the contiguous streak, there is a result exactly when some side has five in a row, and it is a win for a side that has one |
| Gomoku.GomokuPosition.GetResult | games/src/gomoku.rs:86-117 | the scan over the mailbox returns the corrected result (five contiguous stones, through `Mailbox.CountStreak`), not the gapped `streak` of mailbox.rs:53-70 as written; see the mailbox row under Findings |
| Gomoku.GappedResults | games/src/gomoku.rs:86-117 | on a board with "x x x x _ x" the as-written result is a Player1 win while the corrected one is None |
| Gomoku.StartPerft | games/src/gomoku.rs:62-74 | perft of the empty 15×15 board is 225·224·…, e.g. 1, 225, 50400 and 11239200 at depths 0 to 3 |
| Tak.Stack.Push | games/src/tak.rs:107-110 | the stack becomes the push of the old one |
| Tak.PushedPieces | games/src/tak.rs:107-110 | push sets the bit at the old height and grows the height: the pieces gain one on top, which is the new owner |
| Tak.Stack.Pop | games/src/tak.rs:95-99 | the stack becomes the pop of the old one |
| Tak.PoppedPieces | games/src/tak.rs:95-99 | pop lowers the height and clears the top bit: the top piece is removed |
| Tak.PushPop | games/src/tak.rs:95-110 | pop after push restores the stack |
| Tak.Stack.PopN | games/src/tak.rs:101-105 | the stack becomes `pop_n` of the old one |
| Tak.PoppedNPieces | games/src/tak.rs:101-105 | `pop_n` clears every bit at or above the new height: the top n pieces are removed |
| Tak.Stack.PopTop | games/src/tak.rs:81-88 | returns the top `count` pieces and removes them |
| Tak.Stack.PushTop | games/src/tak.rs:90-93 | the stack becomes `push_top` of the old one |
| Tak.PopTopPushTop | games/src/tak.rs:81-93 | `pop_top(n)` then `push_top(top, n)` restores the stack |
| Tak.Stack.GetOwner | games/src/tak.rs:64-73 | None exactly for an empty stack; Player1 exactly when the top piece is Player1's |
| Tak.Stack.IsPlayer1 | games/src/tak.rs:60-63 | reads the piece at that height |
| Tak.Stack.IsEmpty | games/src/tak.rs:50-53 | holds exactly at height 0 |
| Tak.MakeDrop | games/src/tak.rs:572-612 | a drop grows the target stack by one and flips the turn |
| Tak.UndoDrop | games/src/tak.rs:841-865 | undoing a drop shrinks that stack by one, leaves every other stack alone and gives the turn back |
| Tak.DropRoundTrip | games/src/tak.rs:572-612 | undoing a drop (the Drop branches of `undomove`, tak.rs:841-865) restores the position |
| Tak.DropKeepsConsistent | games/src/tak.rs:572-612 | a drop onto an empty square keeps the masks consistent with the stacks and puts the piece kind and owner there (the opponent's stone during the first two plies) |
| Tak.DropKeepsValid | games/src/tak.rs:572-612 | a drop keeps `is_valid` |
| Tak.IsValid | games/src/tak.rs:718-839 | when `is_valid` accepts, the reserves are non-negative and every square agrees with the masks (owner's side mask, some piece mask; nothing on an empty square) |
| Tak.IsValidIff | games/src/tak.rs:718-839 | `is_valid` holds exactly when counts are non-negative, the masks are disjoint and they agree with the stack owners and kinds |
| Tak.ResultOf | games/src/tak.rs:992-1044 | any road ends the game with a win; a road for one side only wins for that side; roads for both go to the side not to move; with no road on a full board or an empty reserve, the side with more flats wins and equal flats draw |
| Tak.ResultNoneIff | games/src/tak.rs:992-1044 | no result exactly when neither side has a road, the board is not full and neither side has run out of pieces |
| Tak.DoubleRoadGoesToMover | games/src/tak.rs:1011-1013 | in any position reached by passing the turn, roads for both sides win for the player who moved |
| Tak.DropDoubleRoad | games/src/tak.rs:572-612 | a drop that makes roads for both sides wins for the player who dropped |
| TakSpreadProofs.SpreadDoubleRoad | games/src/tak.rs:613-716 | a spread that makes roads for both sides wins for the player who spread |
| Tak.RoadTouchesEdges | games/src/tak.rs:992-1010 | a road connects opposite edges |
| Tak.RankIsRoad | games/src/tak.rs:992-1010 | a full rank of road stones is a road |
| Tak.FileIsRoad | games/src/tak.rs:992-1010 | a full file of road stones is a road |
| Tak.StartIsOpen | games/src/tak.rs:113-141 | the start position is valid, no stone has been played and there is no result |
| TakSpread.MakeSpread | games/src/tak.rs:613-716 | a spread of no stones, of more stones than the board width or the stack holds, with an empty spread byte or more drop steps than stones, or from a stack the mover does not own, is refused (a debug panic); an accepted spread keeps the board's shape and size and passes the turn |
| TakSpread.UndoSpreadWith | games/src/tak.rs:866-982 | an undo of no stones, of more than the board width or with an empty spread byte is refused; an accepted undo keeps the board's shape and size and gives the turn back |
| TakSpread.UndoSpread | games/src/tak.rs:866-982 | the spread's `undomove` with the group shift made safe (the corrected half of the tak.rs:939 finding) |
| TakSpread.UndoSpreadAsWritten | games/src/tak.rs:866-982 | the spread's `undomove` as written, `u8` shift included |
| TakSpreadProofs.UndoSpreadExtends | games/src/tak.rs:866-982 | wherever the as-written undo does not panic, the corrected undo gives the same position |
| TakSpreadProofs.UndoLoopExtends | games/src/tak.rs:897-940 | the pick-up loop without the shift check agrees with the loop as written wherever that one goes through |
| TakSpreadProofs.MakeLoopKeeps | games/src/tak.rs:613-716 | the drop loop of a spread leaves every square outside the run it walks unchanged |
| TakSpreadProofs.OneGroupRoundTrip | games/src/tak.rs:613-716 | for a spread that drops one group of k stones on the next square, the pick-up loop of `undomove` (tak.rs:866-982) takes back exactly those stones and returns to the same cursor |
| TakSpreadProofs.UndoSpreadAsWrittenFailsOnEight | games/src/tak.rs:939 | the as-written pick-up loop overflows its `u8` shift when all eight stones land on one square |
| Go.Parse | protocols/src/ugi/go.rs:37-241 | the word loop returns exactly the specification parse |
| Go.ParseWellFormed | protocols/src/ugi/go.rs:231-238 | an accepted command sets one of p1time, p2time, depth, nodes or movetime, and every stored option is in range |
| Go.BadValueRejected | protocols/src/ugi/go.rs:75-226 | an option with a missing, unparsable or too-small value (times and increments < 0, the others < 1) is an error |
| Go.RepeatRejected | protocols/src/ugi/go.rs:88-90 | an option given twice is an error |
| Go.UnknownWordIgnored | protocols/src/ugi/go.rs:227 | an unknown word changes nothing |
| Go.KindTakesDepth | protocols/src/ugi/go.rs:44-73 | "perft", "fastperft" and "split" take a following integer as the depth and consume it |
| Go.Set | protocols/src/ugi/go.rs:92 | setting one option changes that option only |
| Go.ParseValue | protocols/src/ugi/go.rs:80-82 | values are read as `i32`, or as `u64` for nodes |
| Go.ToUgiStringRoundTrip | protocols/src/ugi/go.rs:17-35 | parsing the printed settings gives them back, for settings with every option set |
| PositionCommand.Parse | protocols/src/uci/position.rs:3-29 | "startpos" gives Ok("startpos"); "fen" joins the following words with single spaces up to, and not including, "moves", which stays unread; an empty FEN or any other first word is an error |
| PositionCommand.FenEnd | protocols/src/uci/position.rs:8-11 | the FEN ends at the first "moves" or at the end of the words |
| Words.SplitJoin | protocols/src/uci/position.rs:13-16 | splitting joined words gives the words back |
| Decimal.ParseUnsignedDisplay | protocols/src/ugi/go.rs:175 | a printed number parses back |
| Decimal.ParseSignedDisplay | protocols/src/ugi/go.rs:80 | a printed signed number parses back |

## Left out

- Chess, Pijersi, flat Monte Carlo search, per-game drivers, I/O loops, option handling and iterator glue are not part of this model.
- `info_handler` and `final_handler` calls become returned report sequences; their printing is not modelled.
- `Instant` is replaced by an elapsed-time parameter of the stop test, fixed per call. The source reads the clock at each test.
- Integer widths: `i32` scores and `u64`/`i32` node and move counters are unbounded integers. Wrap-around in those counters is not modelled.
- PerftDriver.Split, PerftDriver.PerftImpl, GameRules.Perft: the `i32` depth is narrowed to `nat`, and `Split` requires a depth of at least 1. For `split 0` or a negative depth (which `go split` accepts), the source calls `perft_impl` at a negative depth, which has no base case and walks the whole game tree: 0 on a game that ends, a stack overflow on one that does not. That walk is modelled separately, with fuel, by `PerftDriver.BelowZero`, not inside `Split`. The `u128` cast and Rust's truncating `/` in the stop test are modelled explicitly.
- Minimax.MinimaxImpl: the `debug_assert` that the best score lies within ±MATE_SCORE (minimax.rs:74-75) is not required. With no legal moves and no result it fails in the source, and the model returns -INF_SCORE.
- AlphaBeta.AlphaBetaImpl: the `debug_assert` best_score > -INF_SCORE (alphabeta.rs:86) holds only under the stated conditions. With no legal moves the model returns -INF_SCORE.
- `after_move` is modelled as make on a copy of the position.
- `makenull`/`undonull` are not modelled for Connect 4 (connect4.rs:156-164), Droptaxx (droptaxx.rs:136-144), Gomoku (gomoku.rs:76-84) or Tak (tak.rs:984-990).
- Only `ray_north` of the rays is modelled. The other seven rays, the x-rays, `knights`, `reach2` and the diagonal shifts are not.
- Squares.FromString: `word.len()` counts bytes, not characters. The model treats text as characters.
- Hexes.FromString: the source slices `&word[0..1]`, which panics on a multi-byte first character. The model returns Err instead.
- BoardFen.SetFenReadsBoardFen: assumes a `set_piece` that always advances one square (`AlwaysNext`). Tak's stacking `set_piece` does not.
- Tak's `set_fen`/`get_board_fen` overrides (tak.rs:213-337) and its `move_generator` (tak.rs:364-566) are not modelled.
- Tak positions are values: drop and spread make/undo are functions on them, not methods of a mutable position. Only `Stack` is a class.
- TakSpreadProofs.OneGroupRoundTrip: the round trip is proved for one group dropped on one square. The round trip for spreads over several squares, and of the whole position (masks, counters, turn), is not proved.
- RandomSearch.Pick, RandomSearch.Random: they require a non-empty move list. With no legal moves, the source's `% moves.len()` (random.rs:9) panics with a division by zero, after the generator has been stepped once.
- Bits.LsbBbIsLowestBit: on an empty board the source's `self.0 - 1` (bitboard.rs:226) overflows and panics in a debug build. The model's `LsbBb` returns the empty board.
- Connect4.Connect4Position.MakeMove, Connect4.Connect4Position.UndoMove: they require only a file below 7.
  - A drop into a full file takes `lsb_bb` of an empty mask, which panics in a debug build; the model places nothing and passes the turn.
  - An undo on a file holding none of the mover's stones takes `msb` of an empty mask, square -1, whose `from_square` shift panics in a debug build; the model leaves the pieces unchanged and gives the turn back.
- TakSpread.SetBit: clearing a bit uses the full 64-bit complement. The source's `&= !Bitboard::from_index(i)` (tak.rs:654, 887-890) masks with `all()`, so it also clears the bits above the board. The two differ only on a mask that already holds bits off the board, which a well-formed position does not.
- Spread make/undo return None where the source would hit a debug panic or an out-of-range shift. They also return None when putting the stones back would take a stack above 64. The source's `push_top` (tak.rs:90-93) does not panic there, but its `u64` stack silently drops the stones above bit 63.
- TakSpread.MakeSpread, TakSpread.UndoSpreadWith: the closing `debug_assert!(self.is_valid())` of `makemove` and `undomove` (tak.rs:711, :977) is not checked. It is also not proved that a spread keeps `Tak.IsValid`. Only a spread the move generator offers (no stone dropped on a standing stone or capstone, except a crush) keeps it, and Tak's move generator is not part of this model.
- Tak.HasRoad: the flood fill runs the fixed 15 rounds of bitboard.rs, as the source does. A winding road needing more than 15 steps on a 7×7 or 8×8 board is not found. The road lemmas (`RankIsRoad`, `FileIsRoad`, `RoadTouchesEdges`) go one way only, and no path-based road definition is related to `HasRoad`.
- Ataxx.AtaxxPosition.UndoMove, Droptaxx.DroptaxxPosition.UndoMove, Isolation.IsolationPosition.UndoMove: the source pops the snapshot stack with `pop().unwrap()`, which panics when it is empty. The methods require a non-empty stack instead, and the value functions `Undo` return the position unchanged in that case.

## Findings

| source | as written | input that shows it | evidently intended | confidence | as-written member | corrected member |
|---|---|---|---|---|---|---|
| faeries/src/search/minimax.rs:158 | `bestmove = Some(pv[0])` after every completed depth, also in alphabeta.rs:175 | a decided root position, or a mover's clock under 30 ms (the stop fires before the root node at depth 1, which is never treated as interrupted), leaves `pv` empty | keep the previous best move when the PV is empty | not executed | Deepening.RecordBestAsWritten | Deepening.KeepBest |
| games/src/general/mailbox.rs:53-70 | `streak` counts every matching cell along the line, gaps included, and `get_result` in gomoku.rs:86-117 takes a count of 5 as five in a row | a row "x x x x _ x": the as-written streak is 5 and the game is declared won | count only the contiguous run | not executed | Gomoku.GappedResults | Gomoku.ResultIsFive |
| games/src/droptaxx.rs:87-107 | `is_gameover` tests for no empty square, but `get_result` returns None unless black and white together cover the whole board | a full board with one blocker: the game is over, yet there is no result | give the piece count once no empty square is left | not executed | Droptaxx.BlockedDisagrees | Droptaxx.ResultIsTally |
| games/src/general/square.rs:33 | the rank character is bounded by `'1' + WIDTH` | on a 3×6 board, "a4" (square 9, printed by Display) is rejected | bound the rank by HEIGHT | not executed | Squares.FromStringAsWrittenRejectsTallRank | Squares.FromStringToString |
| games/src/general/hex.rs:49-62 | the file is parsed as `File<WIDTH>`, but odd rows hold WIDTH+1 cells | on a 4×5 board, "e2" (file 4 of the second row) is rejected | accept file WIDTH on the long rows | not executed | Hexes.FromStringRejectsWideCell | Hexes.FromStringWideToString |
| games/src/tak.rs:939 | `spread = spread >> count` on a `u8` with `count` up to 8 | a spread of eight stones that all land on one square: the shift by 8 overflows | take the eight stones back | not executed | TakSpreadProofs.UndoSpreadAsWrittenFailsOnEight | TakSpreadProofs.OneGroupRoundTrip |
