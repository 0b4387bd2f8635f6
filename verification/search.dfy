/** `alphaBeta`: fixed-depth minimax with fail-hard alpha-beta pruning, specified
    against the plain minimax value of the same game tree. */
module Search {
  import opened OthelloBoard
  import opened Evaluator

  /** `plyDepth`: the search stops `PlyDepth` plies below its entry point. */
  const PlyDepth: nat := 4

  function Max(x: int, y: int): int { if x >= y then x else y }
  function Min(x: int, y: int): int { if x <= y then x else y }

  /** A node is a leaf at the depth limit or when the side to move has no legal
      move (the search does not pass the turn to the opponent). */
  predicate IsLeaf(ad: Adapter, b: Board, curTurn: Turn, curDepth: nat)
  {
    curDepth == PlyDepth || |ad.validMoves(b, curTurn)| == 0
  }

  /** The board after the `k`-th legal move of `curTurn`. */
  function Child(ad: Adapter, b: Board, curTurn: Turn, k: nat): Board
    requires k < |ad.validMoves(b, curTurn)|
  {
    ad.makeMove(b, curTurn, ad.validMoves(b, curTurn)[k])
  }

  /** The plain minimax value of a node, from the perspective of `turn`: the
      evaluation at a leaf, otherwise the best child value for the side to move. */
  function MinimaxValue(ad: Adapter, b: Board, curTurn: Turn, curDepth: nat, turn: Turn): (v: int)
    requires curDepth <= PlyDepth
    ensures -EvalBound <= v <= EvalBound
    decreases PlyDepth - curDepth, 0
  {
    if IsLeaf(ad, b, curTurn, curDepth) then Evaluation(ad, b, turn)
    else BestOfFirst(ad, b, curTurn, curDepth, turn, |ad.validMoves(b, curTurn)|)
  }

  /** The maximum (when `curTurn == turn`) or minimum (otherwise) of the minimax
      values of the first `n` children, folded in move order. */
  function BestOfFirst(ad: Adapter, b: Board, curTurn: Turn, curDepth: nat, turn: Turn, n: nat): (v: int)
    requires curDepth < PlyDepth
    requires 1 <= n <= |ad.validMoves(b, curTurn)|
    ensures -EvalBound <= v <= EvalBound
    decreases PlyDepth - curDepth - 1, n
  {
    var last := MinimaxValue(ad, Child(ad, b, curTurn, n - 1), Other(curTurn), curDepth + 1, turn);
    if n == 1 then last
    else if curTurn == turn then Max(BestOfFirst(ad, b, curTurn, curDepth, turn, n - 1), last)
    else Min(BestOfFirst(ad, b, curTurn, curDepth, turn, n - 1), last)
  }

  /** Folding in more children can only raise a maximum and only lower a minimum. */
  lemma {:induction false} BestOfFirstMonotone(ad: Adapter, b: Board, curTurn: Turn, curDepth: nat, turn: Turn, k: nat, n: nat)
    requires curDepth < PlyDepth
    requires 1 <= k <= n <= |ad.validMoves(b, curTurn)|
    ensures curTurn == turn ==> BestOfFirst(ad, b, curTurn, curDepth, turn, k) <= BestOfFirst(ad, b, curTurn, curDepth, turn, n)
    ensures curTurn != turn ==> BestOfFirst(ad, b, curTurn, curDepth, turn, k) >= BestOfFirst(ad, b, curTurn, curDepth, turn, n)
    decreases n
  {
    if k < n {
      BestOfFirstMonotone(ad, b, curTurn, curDepth, turn, k, n - 1);
    }
  }

  /** What a fail-hard alpha-beta search promises about its result `r` for a node
      whose minimax value is `v`: exact inside the window, and on the correct side
      of the bound it crossed outside it. */
  predicate WithinWindow(v: int, alpha: int, beta: int, r: int)
  {
    && (alpha < v < beta ==> r == v)
    && (v <= alpha ==> r <= alpha)
    && (beta <= v ==> beta <= r)
  }

  /** One iteration of the loop at a node of `turn`: before it, the running
      `alpha'` is `alpha` (first child) or `Max(alpha, best)` below `beta`, where
      `best` is the minimax value of the children seen so far; the `i`-th child
      answers `r` within the window (alpha', beta).  If the new `alpha'` reaches
      `beta` then so does the value of the whole node (unless the window is a single
      point); otherwise the new `alpha'` is again `Max(alpha, best)` below `beta`. */
  lemma MaxNodeStep(ad: Adapter, b: Board, curTurn: Turn, curDepth: nat, turn: Turn, i: nat,
                    alpha: int, beta: int, alpha': int, r: int)
    requires curDepth < PlyDepth && i < |ad.validMoves(b, curTurn)| && curTurn == turn && alpha <= beta
    requires i == 0 ==> alpha' == alpha
    requires i > 0 ==> alpha' < beta && BestOfFirst(ad, b, curTurn, curDepth, turn, i) < beta
                       && alpha' == Max(alpha, BestOfFirst(ad, b, curTurn, curDepth, turn, i))
    requires WithinWindow(MinimaxValue(ad, Child(ad, b, curTurn, i), Other(curTurn), curDepth + 1, turn), alpha', beta, r)
    ensures Max(alpha', r) >= beta ==>
      WithinWindow(BestOfFirst(ad, b, curTurn, curDepth, turn, |ad.validMoves(b, curTurn)|), alpha, beta, beta)
    ensures Max(alpha', r) < beta ==>
      && BestOfFirst(ad, b, curTurn, curDepth, turn, i + 1) < beta
      && Max(alpha', r) == Max(alpha, BestOfFirst(ad, b, curTurn, curDepth, turn, i + 1))
    ensures Max(alpha', r) < beta && i + 1 == |ad.validMoves(b, curTurn)| ==>
      WithinWindow(BestOfFirst(ad, b, curTurn, curDepth, turn, i + 1), alpha, beta, Max(alpha', r))
  {
    if Max(alpha', r) >= beta && alpha < beta {
      BestOfFirstMonotone(ad, b, curTurn, curDepth, turn, i + 1, |ad.validMoves(b, curTurn)|);
    }
  }

  /** The mirror image of `MaxNodeStep` at a node of the opponent. */
  lemma MinNodeStep(ad: Adapter, b: Board, curTurn: Turn, curDepth: nat, turn: Turn, i: nat,
                    alpha: int, beta: int, beta': int, r: int)
    requires curDepth < PlyDepth && i < |ad.validMoves(b, curTurn)| && curTurn != turn && alpha <= beta
    requires i == 0 ==> beta' == beta
    requires i > 0 ==> alpha < beta' && alpha < BestOfFirst(ad, b, curTurn, curDepth, turn, i)
                       && beta' == Min(beta, BestOfFirst(ad, b, curTurn, curDepth, turn, i))
    requires WithinWindow(MinimaxValue(ad, Child(ad, b, curTurn, i), Other(curTurn), curDepth + 1, turn), alpha, beta', r)
    ensures alpha >= Min(beta', r) ==>
      WithinWindow(BestOfFirst(ad, b, curTurn, curDepth, turn, |ad.validMoves(b, curTurn)|), alpha, beta, alpha)
    ensures alpha < Min(beta', r) ==>
      && alpha < BestOfFirst(ad, b, curTurn, curDepth, turn, i + 1)
      && Min(beta', r) == Min(beta, BestOfFirst(ad, b, curTurn, curDepth, turn, i + 1))
    ensures alpha < Min(beta', r) && i + 1 == |ad.validMoves(b, curTurn)| ==>
      WithinWindow(BestOfFirst(ad, b, curTurn, curDepth, turn, i + 1), alpha, beta, Min(beta', r))
  {
    if alpha >= Min(beta', r) && alpha < beta {
      BestOfFirstMonotone(ad, b, curTurn, curDepth, turn, i + 1, |ad.validMoves(b, curTurn)|);
    }
  }

  /** `alphaBeta`: evaluates a leaf, otherwise runs the loop for the side to move.
      The two loops of the source are the methods `MaxNode` and `MinNode`. */
  method AlphaBeta(ad: Adapter, curBoard: Board, alpha: int, beta: int, curTurn: Turn, curDepth: nat, turn: Turn)
    returns (r: int)
    requires curDepth <= PlyDepth
    ensures IsLeaf(ad, curBoard, curTurn, curDepth) ==> r == Evaluation(ad, curBoard, turn)
    ensures !IsLeaf(ad, curBoard, curTurn, curDepth) && alpha <= beta ==> alpha <= r <= beta
    ensures alpha <= beta ==> WithinWindow(MinimaxValue(ad, curBoard, curTurn, curDepth, turn), alpha, beta, r)
    decreases PlyDepth - curDepth, 1
  {
    if curDepth == PlyDepth {
      r := EvalFunc(ad, curBoard, turn);
      return;
    }
    var lvm := ad.validMoves(curBoard, curTurn);
    var lSz := |lvm|;
    if lSz == 0 {
      r := EvalFunc(ad, curBoard, turn);
      return;
    } else if curTurn == turn {
      r := MaxNode(ad, curBoard, alpha, beta, curTurn, curDepth, turn);
    } else {
      r := MinNode(ad, curBoard, alpha, beta, curTurn, curDepth, turn);
    }
  }

  /** The loop of `alphaBeta` at a node where `turn` moves: raises the running
      `alpha'` with each child's value and returns `beta` as soon as it reaches
      `beta`, or `alpha'` after the last move.  The source updates its `alpha`
      parameter in place; the fall-through `return INT_MAX` is unreachable. */
  method MaxNode(ad: Adapter, curBoard: Board, alpha: int, beta: int, curTurn: Turn, curDepth: nat, turn: Turn)
    returns (r: int)
    requires curDepth < PlyDepth && |ad.validMoves(curBoard, curTurn)| > 0 && curTurn == turn
    ensures alpha <= beta ==> alpha <= r <= beta
    ensures alpha <= beta ==>
      WithinWindow(BestOfFirst(ad, curBoard, curTurn, curDepth, turn, |ad.validMoves(curBoard, curTurn)|), alpha, beta, r)
    decreases PlyDepth - curDepth, 0
  {
    var lvm := ad.validMoves(curBoard, curTurn);
    var lSz := |lvm|;
    var alpha' := alpha;
    var i := 0;
    while i < lSz
      invariant 0 <= i < lSz
      invariant i == 0 ==> alpha' == alpha
      invariant alpha <= beta && i > 0 ==>
        && alpha' < beta
        && BestOfFirst(ad, curBoard, curTurn, curDepth, turn, i) < beta
        && alpha' == Max(alpha, BestOfFirst(ad, curBoard, curTurn, curDepth, turn, i))
    {
      var newBoard := ad.makeMove(curBoard, curTurn, lvm[i]);
      var v := AlphaBeta(ad, newBoard, alpha', beta, Other(curTurn), curDepth + 1, turn);
      if alpha <= beta {
        MaxNodeStep(ad, curBoard, curTurn, curDepth, turn, i, alpha, beta, alpha', v);
      }
      alpha' := Max(alpha', v);
      if alpha' >= beta {
        return beta;
      }
      if i == lSz - 1 {
        return alpha';
      }
      i := i + 1;
    }
    assert false;
    return IntMax;
  }

  /** The loop of `alphaBeta` at a node where the opponent moves: lowers the running
      `beta'` and returns `alpha` as soon as `beta'` falls to it, or `beta'` after the
      last move.  The fall-through `return INT_MIN` is unreachable. */
  method MinNode(ad: Adapter, curBoard: Board, alpha: int, beta: int, curTurn: Turn, curDepth: nat, turn: Turn)
    returns (r: int)
    requires curDepth < PlyDepth && |ad.validMoves(curBoard, curTurn)| > 0 && curTurn != turn
    ensures alpha <= beta ==> alpha <= r <= beta
    ensures alpha <= beta ==>
      WithinWindow(BestOfFirst(ad, curBoard, curTurn, curDepth, turn, |ad.validMoves(curBoard, curTurn)|), alpha, beta, r)
    decreases PlyDepth - curDepth, 0
  {
    var lvm := ad.validMoves(curBoard, curTurn);
    var lSz := |lvm|;
    var beta' := beta;
    var i := 0;
    while i < lSz
      invariant 0 <= i < lSz
      invariant i == 0 ==> beta' == beta
      invariant alpha <= beta && i > 0 ==>
        && alpha < beta'
        && alpha < BestOfFirst(ad, curBoard, curTurn, curDepth, turn, i)
        && beta' == Min(beta, BestOfFirst(ad, curBoard, curTurn, curDepth, turn, i))
    {
      var newBoard := ad.makeMove(curBoard, curTurn, lvm[i]);
      var v := AlphaBeta(ad, newBoard, alpha, beta', Other(curTurn), curDepth + 1, turn);
      if alpha <= beta {
        MinNodeStep(ad, curBoard, curTurn, curDepth, turn, i, alpha, beta, beta', v);
      }
      beta' := Min(beta', v);
      if alpha >= beta' {
        return alpha;
      }
      if i == lSz - 1 {
        return beta';
      }
      i := i + 1;
    }
    assert false;
    return IntMin;
  }
}
