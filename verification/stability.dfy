/** The disc-stability estimate: a disc counts as stable when its row, its column
    and all four diagonal rays through it are fully occupied; corners of a full
    edge get a fixed bonus of 8. */
module Stability {
  import opened OthelloBoard
  import opened Heuristics

  /** Every cell on the four diagonal rays from (i, j) to the board edge, (i, j)
      included, is occupied.  Rays that start off the board are vacuously full. */
  ghost predicate DiagonalsFilled(b: Board, i: int, j: int)
  {
    OnBoard(i, j) ==>
      forall p, q :: OnBoard(p, q) && Abs(p - i) == Abs(q - j) ==> b[p][q] != Empty
  }

  /** Signed distance from `from` to `to` along a ray whose step is `d` (+1 or -1). */
  function Along(d: int, from: int, to: int): int
  {
    if d >= 0 then to - from else from - to
  }

  /** Every cell on the ray from (i, j) with steps (dl, dr), (i, j) included, is occupied. */
  ghost predicate RayFilled(b: Board, i: int, j: int, dl: int, dr: int)
  {
    OnBoard(i, j) ==>
      forall p, q :: OnBoard(p, q) && Along(dl, i, p) == Along(dr, j, q) >= 0 ==> b[p][q] != Empty
  }

  /** The four rays together are exactly the two diagonals through (i, j). */
  lemma RaysMakeDiagonals(b: Board, i: int, j: int)
    ensures (RayFilled(b, i, j, 1, 1) && RayFilled(b, i, j, 1, -1) && RayFilled(b, i, j, -1, 1)
             && RayFilled(b, i, j, -1, -1)) == DiagonalsFilled(b, i, j)
  {
    if OnBoard(i, j) && !DiagonalsFilled(b, i, j) {
      var p, q :| OnBoard(p, q) && Abs(p - i) == Abs(q - j) && b[p][q] == Empty;
      var dl := if p >= i then 1 else -1;
      var dr := if q >= j then 1 else -1;
      assert !RayFilled(b, i, j, dl, dr);
    }
  }

  /** One loop of `areDiagonalsFilled`: steps (l, r) by (dl, dr) from (i, j) while it
      stays on the board and answers false at the first empty cell.  It takes at
      most `BoardSize` steps. */
  method WalkRay(board: Board, i: int, j: int, dl: int, dr: int) returns (filled: bool)
    requires (dl == 1 || dl == -1) && (dr == 1 || dr == -1)
    ensures filled == RayFilled(board, i, j, dl, dr)
  {
    var l, r := i, j;
    while OnBoard(l, r)
      invariant Along(dl, i, l) == Along(dr, j, r) >= 0
      invariant l != i ==> OnBoard(i, j) && -1 <= l <= BoardSize
      invariant forall p, q :: OnBoard(p, q) && Along(dl, i, p) == Along(dr, j, q) && 0 <= Along(dl, i, p) < Along(dl, i, l)
                  ==> board[p][q] != Empty
      decreases BoardSize - Along(dl, i, l)
    {
      if board[l][r] == Empty {
        return false;
      }
      l, r := l + dl, r + dr;
    }
    return true;
  }

  /** `areDiagonalsFilled`: walks the four rays in the source's order and answers
      false as soon as one of them meets an empty cell. */
  method AreDiagonalsFilled(i: int, j: int, board: Board) returns (filled: bool)
    ensures filled == DiagonalsFilled(board, i, j)
  {
    RaysMakeDiagonals(board, i, j);
    filled := WalkRay(board, i, j, 1, 1);
    if !filled {
      return;
    }
    filled := WalkRay(board, i, j, 1, -1);
    if !filled {
      return;
    }
    filled := WalkRay(board, i, j, -1, 1);
    if !filled {
      return;
    }
    filled := WalkRay(board, i, j, -1, -1);
  }

  predicate RowFull(b: Board, i: int)
    requires 0 <= i < BoardSize
  {
    forall k :: 0 <= k < BoardSize ==> b[i][k] != Empty
  }

  predicate ColFull(b: Board, j: int)
    requires 0 <= j < BoardSize
  {
    forall k :: 0 <= k < BoardSize ==> b[k][j] != Empty
  }

  /** What cell (i, j) adds to the stability sum: +1 for a stable disc of `turn`,
      -1 for a stable disc of its opponent, 0 otherwise. */
  ghost function CellStability(b: Board, turn: Turn, i: int, j: int): (s: int)
    requires OnBoard(i, j)
    ensures -1 <= s <= 1
    ensures b[i][j] == Empty ==> s == 0
  {
    var stable := RowFull(b, i) && ColFull(b, j) && DiagonalsFilled(b, i, j);
    (if stable && b[i][j] == turn then 1 else 0) - (if stable && b[i][j] == Other(turn) then 1 else 0)
  }

  /** Sum of `CellStability` over the first `n` cells of row `i`. */
  ghost function RowStability(b: Board, turn: Turn, i: int, n: nat): (s: int)
    requires 0 <= i < BoardSize && n <= BoardSize
    ensures Abs(s) <= n
  {
    if n == 0 then 0 else RowStability(b, turn, i, n - 1) + CellStability(b, turn, i, n - 1)
  }

  /** Sum of `CellStability` over the first `m` rows. */
  ghost function GridStability(b: Board, turn: Turn, m: nat): (s: int)
    requires m <= BoardSize
    ensures Abs(s) <= 8 * m
  {
    if m == 0 then 0 else GridStability(b, turn, m - 1) + RowStability(b, turn, m - 1, BoardSize)
  }

  /** The fixed edge-corner bonus: 8 per corner of `turn` and -8 per corner of the
      opponent, each corner gated by a full-line flag: (0, 0) by the top row, (7, 0)
      by the bottom row, (0, 7) by the LEFT column and (7, 7) by the right column,
      as the source tests them. */
  function EdgeBonus(b: Board, turn: Turn, top: bool, bottom: bool, left: bool, right: bool): (r: int)
    ensures Abs(r) <= 4 * 8
  {
    var op := Other(turn);
    (if top && b[0][0] == turn then 8 else 0)
    + (if bottom && b[7][0] == turn then 8 else 0)
    + (if left && b[0][7] == turn then 8 else 0)
    + (if right && b[7][7] == turn then 8 else 0)
    - (if top && b[0][0] == op then 8 else 0)
    - (if bottom && b[7][0] == op then 8 else 0)
    - (if left && b[0][7] == op then 8 else 0)
    - (if right && b[7][7] == op then 8 else 0)
  }

  function CornerBonus(b: Board, turn: Turn): int
  {
    EdgeBonus(b, turn, RowFull(b, 0), RowFull(b, 7), ColFull(b, 0), ColFull(b, 7))
  }

  /** The value `evalStability` computes. */
  ghost function StabilityScore(b: Board, turn: Turn): int
  {
    GridStability(b, turn, BoardSize) + CornerBonus(b, turn)
  }

  /** The first pass of `evalStability`: `rowFd[i]` is set when row `i` has no empty
      cell.  The source never initialises `rowFd`; here it starts out all `false`. */
  method MarkFullRows(board: Board) returns (rowFd: array<bool>)
    ensures fresh(rowFd) && rowFd.Length == BoardSize
    ensures forall k :: 0 <= k < BoardSize ==> rowFd[k] == RowFull(board, k)
  {
    rowFd := new bool[BoardSize](_ => false);
    for i := 0 to BoardSize
      invariant forall k :: 0 <= k < i ==> rowFd[k] == RowFull(board, k)
      invariant forall k :: i <= k < BoardSize ==> !rowFd[k]
    {
      var check := true;
      for j := 0 to BoardSize
        invariant check == forall k :: 0 <= k < j ==> board[i][k] != Empty
      {
        if board[i][j] == Empty {
          check := false;
        }
      }
      if check {
        rowFd[i] := true;
      }
    }
  }

  /** The second pass: `colFd[j]` is set when column `j` has no empty cell; like
      `rowFd` it starts out all `false`. */
  method MarkFullColumns(board: Board) returns (colFd: array<bool>)
    ensures fresh(colFd) && colFd.Length == BoardSize
    ensures forall k :: 0 <= k < BoardSize ==> colFd[k] == ColFull(board, k)
  {
    colFd := new bool[BoardSize](_ => false);
    for j := 0 to BoardSize
      invariant forall k :: 0 <= k < j ==> colFd[k] == ColFull(board, k)
      invariant forall k :: j <= k < BoardSize ==> !colFd[k]
    {
      var check := true;
      for i := 0 to BoardSize
        invariant check == forall k :: 0 <= k < i ==> board[k][j] != Empty
      {
        if board[i][j] == Empty {
          check := false;
        }
      }
      if check {
        colFd[j] := true;
      }
    }
  }

  /** The third pass: +1 for each stable disc of `turn`, -1 for each stable disc of
      its opponent, scanning the board row by row. */
  method CountStableDiscs(board: Board, turn: Turn, rowFd: array<bool>, colFd: array<bool>) returns (stability: int)
    requires rowFd.Length == BoardSize && colFd.Length == BoardSize
    requires forall k :: 0 <= k < BoardSize ==> rowFd[k] == RowFull(board, k) && colFd[k] == ColFull(board, k)
    ensures stability == GridStability(board, turn, BoardSize)
  {
    stability := 0;
    for i := 0 to BoardSize
      invariant stability == GridStability(board, turn, i)
    {
      stability := ScanRow(board, turn, rowFd, colFd, i, stability);
    }
  }

  /** The inner loop of the third pass over row `i`: adds the row's stable discs
      to the running `stability`. */
  method ScanRow(board: Board, turn: Turn, rowFd: array<bool>, colFd: array<bool>, i: int, stability: int)
    returns (stability': int)
    requires 0 <= i < BoardSize
    requires rowFd.Length == BoardSize && colFd.Length == BoardSize
    requires forall k :: 0 <= k < BoardSize ==> rowFd[k] == RowFull(board, k) && colFd[k] == ColFull(board, k)
    ensures stability' == stability + RowStability(board, turn, i, BoardSize)
  {
    var myTurn := turn;
    var opTurn := Other(turn);
    stability' := stability;
    for j := 0 to BoardSize
      invariant stability' == stability + RowStability(board, turn, i, j)
    {
      var lines := rowFd[i] && colFd[j];
      var diagonals := false;
      if lines {
        diagonals := AreDiagonalsFilled(i, j, board);
      }
      var stable := lines && diagonals;
      assert stable == (RowFull(board, i) && ColFull(board, j) && DiagonalsFilled(board, i, j));
      assert RowStability(board, turn, i, j + 1) == RowStability(board, turn, i, j) + CellStability(board, turn, i, j);
      if stable && myTurn == board[i][j] {
        stability' := stability' + 1;
      }
      if stable && opTurn == board[i][j] {
        stability' := stability' - 1;
      }
    }
  }

  /** `evalStability`: the three passes, then the edge-corner bonuses. */
  method EvalStability(board: Board, turn: Turn) returns (stability: int)
    ensures stability == StabilityScore(board, turn)
  {
    var myTurn := turn;
    var opTurn := Other(turn);
    var rowFd := MarkFullRows(board);
    var colFd := MarkFullColumns(board);
    stability := CountStableDiscs(board, turn, rowFd, colFd);
    if rowFd[0] && myTurn == board[0][0] { stability := stability + 8; }
    if rowFd[7] && myTurn == board[7][0] { stability := stability + 8; }
    if colFd[0] && myTurn == board[0][7] { stability := stability + 8; }
    if colFd[7] && myTurn == board[7][7] { stability := stability + 8; }
    if rowFd[0] && opTurn == board[0][0] { stability := stability - 8; }
    if rowFd[7] && opTurn == board[7][0] { stability := stability - 8; }
    if colFd[0] && opTurn == board[0][7] { stability := stability - 8; }
    if colFd[7] && opTurn == board[7][7] { stability := stability - 8; }
  }

  // ----------------------------------------------------------------- lemmas

  /** Swapping the perspective negates the stability score. */
  lemma StabilityAntisymmetric(b: Board, turn: Turn)
    ensures StabilityScore(b, Other(turn)) == -StabilityScore(b, turn)
  {
    OtherInvolution(turn);
    GridStabilityAntisymmetric(b, turn, BoardSize);
  }

  lemma {:induction false} GridStabilityAntisymmetric(b: Board, turn: Turn, m: nat)
    requires m <= BoardSize
    ensures GridStability(b, Other(turn), m) == -GridStability(b, turn, m)
  {
    if m > 0 {
      GridStabilityAntisymmetric(b, turn, m - 1);
      RowStabilityAntisymmetric(b, turn, m - 1, BoardSize);
    }
  }

  lemma {:induction false} RowStabilityAntisymmetric(b: Board, turn: Turn, i: int, n: nat)
    requires 0 <= i < BoardSize && n <= BoardSize
    ensures RowStability(b, Other(turn), i, n) == -RowStability(b, turn, i, n)
  {
    if n > 0 {
      RowStabilityAntisymmetric(b, turn, i, n - 1);
      OtherInvolution(turn);
    }
  }

  /** At most 64 stable discs and four corner bonuses of 8: |stability| <= 64 + 32. */
  lemma StabilityBound(b: Board, turn: Turn)
    ensures -96 <= StabilityScore(b, turn) <= 96
  {
  }

  /** With no full row and no full column nothing is stable and no bonus applies. */
  lemma StabilityWithoutFullLines(b: Board, turn: Turn)
    requires forall k :: 0 <= k < BoardSize ==> !RowFull(b, k) && !ColFull(b, k)
    ensures StabilityScore(b, turn) == 0
  {
    GridStabilityZero(b, turn, BoardSize);
  }

  lemma {:induction false} GridStabilityZero(b: Board, turn: Turn, m: nat)
    requires m <= BoardSize
    requires forall k :: 0 <= k < m ==> !RowFull(b, k)
    ensures GridStability(b, turn, m) == 0
  {
    if m > 0 {
      GridStabilityZero(b, turn, m - 1);
      RowStabilityZero(b, turn, m - 1, BoardSize);
    }
  }

  lemma {:induction false} RowStabilityZero(b: Board, turn: Turn, i: int, n: nat)
    requires 0 <= i < BoardSize && n <= BoardSize
    requires !RowFull(b, i)
    ensures RowStability(b, turn, i, n) == 0
  {
    if n > 0 {
      RowStabilityZero(b, turn, i, n - 1);
    }
  }
}
