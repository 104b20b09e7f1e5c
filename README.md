# Chess opponent engine — a verified model

This project models the move-choosing engine of a browser chess game, and the move-history table beside it.

The engine is `services/chessEngine.ts`. It has three parts:

- a static evaluator, `evaluateBoard`, that scores material plus piece-square bonuses from White's side;
- a depth-bounded alpha-beta search, `minimax`, that walks the game in place with `move` and `undo`;
- a root driver, `getBestMove`, with three tiers. Novice plays a random legal move. Expert searches at depth 2 and grandmaster at depth 3, and both keep the first root move whose value strictly beats the best so far.

The move-history component (`components/MoveHistory.tsx`) groups the flat list of SAN moves into numbered White/Black rows.

The chess rules library (chess.js) is not part of this model. It is represented as a finite game tree (`GameTree.Position`): each node has a board, a game-over flag and the legal moves in the order `game.moves()` lists them, each with the position it leads to. The `GameTree.Game` class stands for the chess.js object: `Move` pushes the current position on a stack and steps to the child, and `Undo` pops the stack.

Modules:

- `Scores`: integers extended with the `-Infinity`/`+Infinity` sentinels, and the window arithmetic (`Clamp`) used in the alpha-beta proof.
- `Evaluation`: the piece values, the three piece-square tables, `MIRROR_SQUARE`, the evaluator loop and its specification.
- `GameTree`: the rules oracle.
- `Search`: `minimax` as imperative methods over a `Game`, checked against two specification functions. `AlphaBeta` is the pruned search and `MinimaxValue` is plain minimax.
- `Engine`: `getBestMove`, with the random draws as parameters.
- `MoveHistory`: the grouping loop and its reference definition.

The constants `PIECE_VALUES`, `PAWN_PST`, `KNIGHT_PST`, `BISHOP_PST` and `MIRROR_SQUARE` are transcribed entry for entry as `Evaluation.PieceValue`, `Evaluation.PawnPst`, `Evaluation.KnightPst`, `Evaluation.BishopPst` and `Evaluation.MirrorSquare` (services/chessEngine.ts:5-58). Each table is a flat 64-entry sequence written as eight rows of eight, as in the source.

## Model

| member | source | states |
|---|---|---|
| Scores.Max | services/chessEngine.ts:117-118 | `Math.max` over scores with ±Infinity: the result is one of the two arguments and at least both. |
| Scores.Min | services/chessEngine.ts:128-129 | `Math.min` over scores with ±Infinity: the result is one of the two arguments and at most both. |
| Evaluation.PieceValue | services/chessEngine.ts:5-12 | `PIECE_VALUES`: pawn 100, knight 320, bishop 330, rook 500, queen 900, king 20000. Every value lies in 100..20000, the pawn alone is worth 100 and the king alone 20000. |
| Evaluation.PositionBonus | services/chessEngine.ts:80-86 | The `switch`: pawns, knights and bishops read their own table at `pstIndex`, other pieces get 0. Every bonus lies in −50..50. |
| Evaluation.TableBounds | services/chessEngine.ts:16-47 | Every entry of the pawn, knight and bishop tables lies in −50..50. |
| Evaluation.PieceCountsForOwner | services/chessEngine.ts:71-89 | No bonus outweighs a pawn, so every piece is worth at least 50: a white piece always raises the evaluation and a black piece always lowers it. |
| Evaluation.EvaluateBoard | services/chessEngine.ts:60-94 | The nested 8×8 scan returns `Evaluate(board)`, the sum over all 64 squares (index i*8+j) of each piece's signed material plus table bonus. |
| Evaluation.PieceScore | services/chessEngine.ts:71-89 | The body of the scan for one occupied square returns that square's term of `Evaluate`: material plus the bonus read at `pstIndex`, added for White and subtracted for Black. |
| Evaluation.EvaluateIsWhiteMinusBlack | services/chessEngine.ts:60-94 | The evaluation is the total of (value + bonus) over White's pieces minus the same total over Black's pieces. |
| Evaluation.EvaluateEmpty | services/chessEngine.ts:60-94 | A board with no pieces evaluates to 0. |
| Evaluation.NoBonusWithoutTable | services/chessEngine.ts:80-86 | A rook, queen or king is worth exactly its material value (100/320/330/500/900/20000 table), whatever its square and colour. |
| Evaluation.MirrorSquareAt | services/chessEngine.ts:49-58 | Entry r*8+f of `MIRROR_SQUARE` is (7−r)*8+f for every rank r and file f. |
| Evaluation.Mirror | services/chessEngine.ts:49-58 | The mirrored square is in 0..63, keeps the file and flips the rank. |
| Evaluation.MirrorInvolution | services/chessEngine.ts:49-58 | Mirroring a square twice gives it back. |
| Evaluation.MirrorPermutation | services/chessEngine.ts:49-58 | `MIRROR_SQUARE` is a permutation of 0..63: it is injective and every square is an image. |
| Evaluation.PstIndex | services/chessEngine.ts:78 | `pstIndex` (the square for White, the mirrored square for Black) is always inside the 64-entry tables. |
| Evaluation.EvaluateColourFlipped | services/chessEngine.ts:78-89 | Swapping every piece's colour and moving it to the mirror of its square negates the evaluation exactly. |
| Evaluation.SymmetricBoardIsLevel | services/chessEngine.ts:60-94 | A board equal to its own colour-flipped image, such as the initial position, evaluates to 0. |
| GameTree.Play | services/chessEngine.ts:114 | The position `game.move(san)` reaches: the one after the first legal move whose SAN is `san`. |
| GameTree.PlayDistinct | services/chessEngine.ts:113-114 | When SAN texts are distinct, as chess.js's are, playing the i-th entry of `game.moves()` reaches the i-th legal move's position. |
| GameTree.Game.constructor | services/chessEngine.ts:145 | `new Chess(fen)` starts at the given position with an empty undo stack. |
| GameTree.Game.Move | services/chessEngine.ts:114 | `game.move(san)` steps to the child of the first legal move with that SAN and pushes the old position. |
| GameTree.Game.Undo | services/chessEngine.ts:116 | `game.undo()` pops the last pushed position back into place; with no move made it changes nothing. |
| Search.AlphaBeta | services/chessEngine.ts:98-134 | The pruned search as a function. Depth 0 or a finished game gives `-evaluateBoard`. Otherwise it runs the maximising or minimising loop from the first move with running value −∞ or +∞. |
| Search.MaxLoop | services/chessEngine.ts:111-121 | The maximising loop from move i: search the child with `(alpha, beta, false)`, then update `maxEval` and `alpha` with `Math.max`. It stops after the move that makes `beta <= alpha`, or after the last move. |
| Search.MinLoop | services/chessEngine.ts:122-133 | The minimising loop from move i: search the child with `(alpha, beta, true)`, then update `minEval` and `beta` with `Math.min`. It stops after the move that makes `beta <= alpha`, or after the last move. |
| Search.NoMovesSentinel | services/chessEngine.ts:111-133 | An unfinished position with no legal move returns the loop's starting value: −∞ for the maximiser and +∞ for the minimiser. |
| Search.MaxLoopNeverDrops | services/chessEngine.ts:113-120 | The maximising loop returns at least the `maxEval` it starts from, and at least the value of the first move it searches. |
| Search.MinLoopNeverRises | services/chessEngine.ts:124-131 | The minimising loop returns at most the `minEval` it starts from, and at most the value of the first move it searches. |
| Search.AlphaBetaLeaf | services/chessEngine.ts:105-107 | At depth 0 or in a finished game, the search returns exactly `-evaluateBoard`, whatever alpha, beta and the player flag are. |
| Search.AlphaBetaWindow | services/chessEngine.ts:111-133 | For any window with alpha < beta, the pruned search and plain minimax are equal when the minimax value lies strictly inside the window, and lie on the same side of it otherwise. |
| Search.AlphaBetaIsMinimax | services/chessEngine.ts:98-134 | With the root window (−∞, +∞), the pruned search returns the plain minimax value of the same tree. |
| Search.MinimaxFinite | services/chessEngine.ts:105-133 | If every unfinished position within `depth` plies of the root has a legal move, both the plain minimax value and the pruned search with the engine's window (−∞, +∞) at that depth are finite integers, never a ±Infinity sentinel. Positions past the horizon are unconstrained. |
| Search.Minimax | services/chessEngine.ts:98-134 | `minimax` returns the pruned-search value `AlphaBeta` of the position it started from. Afterwards the game's position and undo stack are what they were. The recursion terminates because depth drops by one per call. |
| Search.SearchChild | services/chessEngine.ts:114-116 | `game.move(move)`, the recursive `minimax` and `game.undo()` (the same three lines serve the minimising loop at 125-127) return the pruned-search value of that child and leave the position and undo stack as they were. |
| Search.MaximizingPly | services/chessEngine.ts:111-121 | The maximising loop (running max, alpha raised, break once beta ≤ alpha) returns `MaxLoop` from the first move, and it restores the game. |
| Search.MinimizingPly | services/chessEngine.ts:122-133 | The minimising loop (running min, beta lowered, break once beta ≤ alpha) returns `MinLoop` from the first move, and it restores the game. |
| Engine.RandomIndex | services/chessEngine.ts:155 | `Math.floor(random * n)` for a draw in [0, 1) is a valid index below n: the floor of the exact product random·n, not of its double rounding. |
| Engine.SearchDepth | services/chessEngine.ts:160-162 | Expert searches at depth 2 and grandmaster at depth 3. |
| Engine.GetBestMove | services/chessEngine.ts:145-186 | No legal moves gives `''` and no search. Otherwise the result is a legal move. Novice plays the move at the random index and calls `minimax` on no root move. Expert and grandmaster call it once on every root move and play `Chosen`: the strict-improvement winner over the shuffled moves of their plain minimax values at depth−1 with White to reply, or `moves[0]`. |
| Engine.SearchRoot | services/chessEngine.ts:164-184 | The root loop returns the result of the strict-`>` selection over `RootValues`, the plain minimax values at depth−1 of the shuffled moves. It searches every move exactly once and leaves the game as it found it. |
| Engine.SearchMove | services/chessEngine.ts:173-178 | Playing the i-th shuffled root move, searching it with the full window and undoing it yields entry i of `RootValues`, that child's plain minimax value at depth−1, with the game restored. |
| Engine.Shuffled | services/chessEngine.ts:170 | The sorted move list holds, at position k, the legal move at index `order[k]` of the shuffle permutation. |
| Engine.SelectLoop | services/chessEngine.ts:172-184 | The root loop as a function: a move replaces the best so far only when its value is strictly greater. The result is the starting best move or one of the moves read. |
| Engine.Chosen | services/chessEngine.ts:186 | `bestMove \|\| moves[0]` is always one of the moves. |
| Engine.FirstBest | services/chessEngine.ts:180-183 | The first index whose value is the greatest: every value is at most it, and every earlier value is strictly below it. |
| Engine.ChosenIsFirstBest | services/chessEngine.ts:180-186 | With nonempty move texts, the chosen move is the first one whose value equals the maximum. This holds even when every value is −∞, because the fallback is `moves[0]`. |
| Engine.BestMoveIsFirstBest | services/chessEngine.ts:170-186 | At expert or grandmaster level, `getBestMove` plays the legal move at `order[FirstBest(values)]`: the first maximum, in the shuffled order, of the root minimax values. |
| MoveHistory.MovePairs | components/MoveHistory.tsx:17-24 | The `i += 2` loop produces exactly the reference grouping `Paired(history)`. |
| MoveHistory.PairedShape | components/MoveHistory.tsx:18-23 | There are ⌈n/2⌉ rows (none for an empty history). Row k has number k+1, White move `history[2k]`, and Black move `history[2k+1]` or `''` past the end. |
| MoveHistory.FlattenPaired | components/MoveHistory.tsx:17-24 | Reading the rows back, White then Black, gives the history plus one trailing `''` exactly when its length is odd. |
| MoveHistory.EmptyBlackOnlyLast | components/MoveHistory.tsx:18-23 | With nonempty SAN texts, a row's Black cell is `''` if and only if it is the last row and the history has odd length. |

## Left out

- `MIRROR_SQUARE` flips only the rank: square r*8+f maps to (7−r)*8+f, and the file is kept. It is not the point reflection 63−s. `Evaluation.Mirror` and `Evaluation.MirrorSquareAt` state the rank flip that the table implements.
- A finished game scores `-evaluateBoard`, like any other leaf. There is no mate score, so nothing is claimed about finding a mate. What is proved about the choice is the exact selection rule, `Engine.BestMoveIsFirstBest`.
- chess.js is not part of this model. Legal move generation, FEN parsing, `isGameOver` and `board()` are abstracted as the finite game tree `GameTree.Position`; the FEN string is replaced by the position it describes.
- `game.move` with an illegal move throws in chess.js. The engine only ever plays moves taken from `game.moves()`, so `GameTree.Game.Move` requires the move to be legal instead of modelling the throw.
- `Math.random` is not modelled. The novice draw is the parameter `random` in [0, 1). The random comparator given to `moves.sort` is replaced by an arbitrary permutation parameter `order`. Nothing is claimed about the distribution of either.
- The `Promise`/`setTimeout` wrapper of `getBestMove` is event-loop plumbing and is left out; the model returns the move directly.
- The `validMoves` argument of `getBestMove` is never read by the code, so it is not a parameter of the model.
- Scores and evaluations, which are JavaScript numbers, are modelled as unbounded integers. Every score the engine computes is an integer far below 2^53, so no rounding can occur in them.
- Engine.RandomIndex: the draw is a real in [0, 1), and the product `random * moves.length` is taken exactly, not rounded to an IEEE-754 double before `Math.floor`. A given draw can therefore land on a neighbouring index: the double 0.6 with 5 moves rounds to 3.0 in JavaScript and gives index 3, while the exact product gives 2. In both cases the reachable indices are exactly 0..n−1, so the novice guarantee of `Engine.GetBestMove` is unaffected: it always plays a legal move. Its index formula is exact-real, not double, arithmetic.
- Engine.GetBestMove: the first-maximum property is stated in the separate lemma `Engine.BestMoveIsFirstBest`, under the condition that SAN texts are nonempty, as chess.js guarantees. A move text `''` would be indistinguishable from "no move yet" in `bestMove || moves[0]`.
- The React rendering of the move-history table, the scrolling effect, the board UI, the controls, the theme constants and App.tsx's state handling are user-interface code with no logic of the engine.
