# Othello move chooser (5.cpp), modelled in Dafny

`5.cpp` is a bot for the Desdemona Othello framework. On each turn `MyBot::play`
tries every legal move. It scores the position after each move with a
fixed-depth alpha-beta search (`alphaBeta`) and keeps the first move of greatest
value. The search's leaves are scored by `evalFunc`, a phase-weighted blend of
these sub-heuristics:

- corner control (`evaluateCorner`);
- mobility (`evaluateMobility`);
- coin difference and parity;
- a stability estimate (`evalStability`, which uses `areDiagonalsFilled`). Its
  call is commented out, so its weight always multiplies 0.

The model has one Dafny module per part of the program:

| file | module | contents |
|---|---|---|
| `board.dfy` | `OthelloBoard` | cells, turns, the 8x8 board, moves, disc counts, and the board library's `Adapter` |
| `heuristics.dfy` | `Heuristics` | C++ truncating division, the normalised ratio, `evaluateCorner`, `evaluateMobility` |
| `stability.dfy` | `Stability` | `areDiagonalsFilled`, `evalStability` |
| `evaluation.dfy` | `Evaluator` | `evalFunc` |
| `search.dfy` | `Search` | `plyDepth`, plain minimax, `alphaBeta` |
| `bot.dfy` | `Bot` | `MyBot::play` |

Each C++ routine that loops is a Dafny `method` with the same loops and the same
early exits. Its postcondition equates its result with a specification function:

| method | specification function |
|---|---|
| `EvaluateCorner` | `CornerScore` |
| `AreDiagonalsFilled` | `DiagonalsFilled` |
| `EvalStability` | `StabilityScore` |
| `EvalFunc` | `Evaluation` |
| `Play` | `FirstArgMax` of `RootValues` |

The properties the source relies on are proved as lemmas about those functions.
`alphaBeta` is proved against `MinimaxValue`, the plain minimax value of the same
game tree. The search promises the fail-hard window property:

- the result is exact inside the window;
- it is at most `alpha` when the value is at most `alpha`;
- it is at least `beta` when the value is at least `beta`;
- at a node with moves, it stays within [alpha, beta].

Modelling choices:

- **The board library.** `OthelloBoard` from the Desdemona headers is not part of this model.
  - The board is an 8x8 `seq<seq<Cell>>`.
  - Legal-move generation (`getValidMoves`) and `makeMove` enter every operation as two functions packed into an `Adapter` value.
  - Legal moves are typed as on-board squares. This assumes the library never lists an off-board move. It also keeps the placeholder `(-1, -1)` apart from every legal move.
  - Disc counts (`getBlackCount`, `getRedCount`) are defined as cell counts over the grid. This is an assumption about the library.
  - `other` swaps the two colours.
- **Division.** C++ `/` truncates toward zero and Dafny's does not. Lines 65, 74 and 174 use `TruncDiv`, which is written out for negative dividends.
- **The `rowFd`/`colFd` flags.** The arrays at 5.cpp:113-114 are never initialised in the source. The model allocates them filled with `false`. So a flag is true exactly when its row or column is fully occupied.
- **The (0, 7) corner bonus.** At 5.cpp:146 and 5.cpp:150 this bonus is gated by `colFd[0]`, the left column. It is modelled as written, in `EdgeBonus`'s third argument. The stability term is disabled in `evalFunc`, so this does not affect the chosen move.
- **Four corners.** Holding all four corners scores `100 * 4 / 5 = 80`, not 100 (`AllCornersScore`).
- **`areDiagonalsFilled`'s four loops.** Each is one call of `WalkRay` with its direction. `RaysMakeDiagonals` shows that the four rays together cover the two full diagonals through the cell.
- **`evalStability`'s passes.** Its three passes are `MarkFullRows`, `MarkFullColumns` and `CountStableDiscs`; the inner loop of the third is `ScanRow`, which adds to the running sum it is given. The eight bonus `if`s follow them in `EvalStability`.
- **`alphaBeta`'s two loops.** They are the methods `MaxNode` and `MinNode`. The source assigns its `alpha`/`beta` parameters inside the loop; the model uses locals `alpha'`/`beta'`. The unreachable fall-through returns `INT_MAX`/`INT_MIN` are kept after an `assert false`.
- **Integer limits.** `INT_MIN` and `INT_MAX` are the constants `IntMin` and `IntMax`. Every evaluation lies within ±139900 (`EvalBound`). So the root search with the window (INT_MIN, INT_MAX) is exact.

## Model

| member | source | states |
|---|---|---|
| OthelloBoard.OtherInvolution | 5.cpp:110-111 | the opponent of the opponent is the player |
| OthelloBoard.CoinCount | 5.cpp:159-168 | a colour holds at most the 64 cells of the board |
| OthelloBoard.CoinTotalBound | 5.cpp:170-175 | the two colours together hold at most 64 discs, so `remCoins` is never negative |
| Heuristics.TruncDiv | 5.cpp:65 | C++ division of a dividend by a positive divisor: the quotient has the sign of the dividend |
| Heuristics.TruncDivMagnitude | 5.cpp:65 | the magnitude of the truncated quotient is the floor of abs(dividend) / divisor |
| Heuristics.TruncDivNeg | 5.cpp:65 | truncating division is odd in the dividend |
| Heuristics.Ratio | 5.cpp:65 | `100 * (mine - theirs) / (mine + theirs + 1)` lies in [-99, 99], is 0 when both sides are equal, is >= 0 when `mine >= theirs` and <= 0 when `mine <= theirs`, and is strictly positive (negative) when `mine > theirs` (`mine < theirs`) and fewer than 100 items are counted, which covers every count the bot sees (at most 64 discs, 4 corners) |
| Heuristics.RatioAntisymmetric | 5.cpp:74 | swapping the two counts negates the ratio |
| Heuristics.RatioOfFour | 5.cpp:65 | with at most four items the ratio lies in [-80, 80], and it is exactly 80 when one side holds all four |
| Heuristics.CornerScore | 5.cpp:45-66 | the corner score lies in [-80, 80] |
| Heuristics.EvaluateCorner | 5.cpp:45-66 | the nested loops over `dx`/`dy` count the corners of each side, and the result is the corner score |
| Heuristics.CornerScoreReadsCorners | 5.cpp:50-61 | two boards that agree on (0,0), (0,7), (7,0) and (7,7) get the same corner score |
| Heuristics.CornerScoreAntisymmetric | 5.cpp:57-65 | the corner score from the opponent's side is the negation |
| Heuristics.AllCornersScore | 5.cpp:45-66 | holding all four corners scores exactly 80 |
| Heuristics.NoCornersScore | 5.cpp:45-66 | with no corner occupied the score is 0 |
| Heuristics.EvaluateMobility | 5.cpp:69-75 | the mobility score lies in [-99, 99] and is 0 when both sides have as many moves (in particular, none) |
| Heuristics.MobilityAntisymmetric | 5.cpp:69-75 | the mobility score from the opponent's side is the negation |
| Stability.RaysMakeDiagonals | 5.cpp:78-105 | the four rays out from (i, j), inclusive, are all filled iff every cell on both diagonals through (i, j) is occupied |
| Stability.WalkRay | 5.cpp:80-85 | one `while` loop of `areDiagonalsFilled`: it answers true iff every cell from (i, j) to the edge in its direction is occupied |
| Stability.AreDiagonalsFilled | 5.cpp:78-105 | returns true iff every cell on both diagonals through (i, j) is occupied (vacuously true off the board) |
| Stability.CellStability | 5.cpp:138-141 | one cell adds +1, 0 or -1, and an empty cell adds 0 |
| Stability.RowStability | 5.cpp:137-142 | the first `n` cells of a row add at most `n` in absolute value |
| Stability.GridStability | 5.cpp:136-143 | the first `m` rows add at most `8 * m` in absolute value |
| Stability.EdgeBonus | 5.cpp:144-151 | the eight bonus tests add at most 32 in absolute value |
| Stability.MarkFullRows | 5.cpp:116-125 | `rowFd[i]` is true exactly when row `i` has no empty cell |
| Stability.MarkFullColumns | 5.cpp:126-134 | `colFd[j]` is true exactly when column `j` has no empty cell |
| Stability.CountStableDiscs | 5.cpp:135-143 | the double loop adds +1 for each disc of `turn` and -1 for each opponent disc that lies on a full row, a full column and filled diagonals |
| Stability.ScanRow | 5.cpp:137-142 | the inner loop over row `i` adds exactly that row's stable-disc balance to the running sum |
| Stability.EvalStability | 5.cpp:108-154 | the result is the stability score: the stable-disc count plus the corner bonuses |
| Stability.StabilityAntisymmetric | 5.cpp:108-154 | the stability score from the opponent's side is the negation |
| Stability.StabilityBound | 5.cpp:135-153 | the stability score lies in [-96, 96] (64 + 32) |
| Stability.StabilityWithoutFullLines | 5.cpp:113-154 | with no full row and no full column the stability score is 0 |
| Evaluator.Parity | 5.cpp:175-176 | the parity term is +1 or -1 |
| Evaluator.ParityAlternates | 5.cpp:175-176 | one more disc on the board flips the parity term |
| Evaluator.DiscCount | 5.cpp:170 | `cnt` is at most 64 |
| Evaluator.TermsOf | 5.cpp:170-176 | the stability term is 0 (the call is commented out); corner, mobility and coin terms stay in their ranges; parity is +1 or -1 |
| Evaluator.Evaluation | 5.cpp:178-186 | every evaluation lies within ±139900, strictly inside the `int` range |
| Evaluator.EvalFunc | 5.cpp:158-187 | picks its counts by colour, and in each of the three disc-count bands returns the weighted sum of that band |
| Evaluator.PhaseBoundaries | 5.cpp:178-186 | the corner weight is 1000 in every band; the weights change exactly between 19 and 20 discs and between 58 and 59 discs |
| Evaluator.EvaluationSkew | 5.cpp:174-186 | the two players' evaluations of one board sum to twice the weighted parity term |
| Evaluator.OpeningZeroSum | 5.cpp:178-179 | below 20 discs one player's evaluation is the negation of the other's |
| Search.MinimaxValue | 5.cpp:190-231 | the minimax value of a node lies within the evaluation bound |
| Search.BestOfFirst | 5.cpp:203-230 | the best child value over a prefix of the move list lies within the evaluation bound |
| Search.BestOfFirstMonotone | 5.cpp:208-210 | searching more children only raises a maximum and only lowers a minimum |
| Search.MaxNodeStep | 5.cpp:208-213 | one iteration at a node of `turn`: a cut-off returning `beta` agrees with the node's minimax value; otherwise the new `alpha` is `max(alpha, value so far)` below `beta`, and after the last move it agrees with the node's value |
| Search.MinNodeStep | 5.cpp:222-227 | one iteration at an opponent node: a cut-off returning `alpha` agrees with the node's minimax value; otherwise the new `beta` is `min(beta, value so far)` above `alpha`, and after the last move it agrees with the node's value |
| Search.AlphaBeta | 5.cpp:190-231 | at depth `plyDepth` or with no legal move it returns the evaluation; with `alpha <= beta`, at a node with moves the result lies in [alpha, beta], and it agrees with the minimax value in the fail-hard sense; the recursion terminates |
| Search.MaxNode | 5.cpp:203-216 | the loop for `turn`: its result lies in [alpha, beta] and agrees with the maximum of the children's minimax values in the fail-hard sense; the `INT_MAX` fall-through is unreachable |
| Search.MinNode | 5.cpp:217-230 | the loop for the opponent: its result lies in [alpha, beta] and agrees with the minimum of the children's minimax values in the fail-hard sense; the `INT_MIN` fall-through is unreachable |
| Bot.RootValues | 5.cpp:237-246 | one value per legal move, each within the evaluation bound |
| Bot.FirstArgMax | 5.cpp:247-250 | the chosen index holds the maximum and every earlier value is strictly smaller (the strict `>` keeps the first of equal values) |
| Bot.FirstArgMaxExtend | 5.cpp:246-249 | one more value moves the first maximum to the new position exactly when the new value is strictly greater |
| Bot.FullWindowIsExact | 5.cpp:246 | with the window (INT_MIN, INT_MAX) the search returns the exact minimax value |
| Bot.Play | 5.cpp:233-252 | returns `(-1, -1)` iff there is no legal move; otherwise the first legal move whose minimax value is greatest |

## Left out

- Plugin glue: `createBot`/`destroyBot` (5.cpp:256-266), the `MyBot` constructor (5.cpp:34-37) and its `turn` field. `Play` takes the bot's colour as a parameter.
- The Desdemona board library: the Othello rules behind `getValidMoves` and `makeMove`, and the disc counters. They are abstract functions of the `Adapter`, and the model assumes their results are on-board moves and 8x8 boards.
- Copying the board before each move (5.cpp:207, 5.cpp:221, 5.cpp:242). Boards are values in the model, so there is no copy.
- 32-bit overflow. Each evaluation is a sum of five weighted terms; its magnitude is at most 139900 (`EvalBound`), no intermediate product exceeds that (the largest is `1000 * 80`), and the ratio numerators are at most `100 * 64`. All of this is far inside the `int` range, so integers are unbounded in the model.
- Time limits, the unused `<time.h>`/`<cstdlib>` includes, and I/O. None of them is used by the code.
- Stability.WalkRay: the bound of at most 8 steps per loop is shown only as the loop's termination measure, not stated as a postcondition.
