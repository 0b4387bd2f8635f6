/** The normalised sub-heuristics of the evaluator: corner control and mobility,
    both of the form `100 * (mine - theirs) / (mine + theirs + 1)` with C++
    integer division. */
module Heuristics {
  import opened OthelloBoard

  function Abs(x: int): (a: nat)
    ensures a == x || a == -x
  {
    if x < 0 then -x else x
  }

  /** C++ `/` on `int`, which truncates toward zero (Dafny's `/` is Euclidean).
      The quotient has the sign of the dividend; its magnitude is given by
      `TruncDivMagnitude`. */
  function TruncDiv(a: int, d: int): (q: int)
    requires d > 0
    ensures (a >= 0 ==> q >= 0) && (a <= 0 ==> q <= 0)
  {
    if a >= 0 then a / d else -((-a) / d)
  }

  /** The magnitude of a truncated quotient is the floor of |a| / d. */
  lemma TruncDivMagnitude(a: int, d: int)
    requires d > 0
    ensures Abs(TruncDiv(a, d)) * d <= Abs(a) < (Abs(TruncDiv(a, d)) + 1) * d
  {
  }

  /** Truncating division is odd in its dividend; Euclidean division is not. */
  lemma TruncDivNeg(a: int, d: int)
    requires d > 0
    ensures TruncDiv(-a, d) == -TruncDiv(a, d)
  {
  }

  /** The normalised difference `100 * (mine - theirs) / (mine + theirs + 1)`;
      the `+ 1` keeps the divisor positive. */
  function Ratio(mine: nat, theirs: nat): (r: int)
    ensures -99 <= r <= 99
    ensures mine == theirs ==> r == 0
    ensures (mine >= theirs ==> r >= 0) && (mine <= theirs ==> r <= 0)
    ensures mine + theirs < 100 ==> (mine > theirs ==> r > 0) && (mine < theirs ==> r < 0)
  {
    var d := mine + theirs + 1;
    var q := TruncDiv(100 * (mine - theirs), d);
    TruncDivMagnitude(100 * (mine - theirs), d);
    assert Abs(q) < 100 by {
      if Abs(q) >= 100 {
        MulMonotone(100, Abs(q), d);
      }
    }
    assert mine + theirs < 100 && mine != theirs ==> q != 0;
    q
  }

  lemma MulMonotone(x: int, y: int, d: nat)
    requires x <= y
    ensures x * d <= y * d
  {
  }

  /** Swapping the two players negates the normalised difference. */
  lemma RatioAntisymmetric(mine: nat, theirs: nat)
    ensures Ratio(theirs, mine) == -Ratio(mine, theirs)
  {
    TruncDivNeg(100 * (mine - theirs), mine + theirs + 1);
  }

  /** With at most four items in play the ratio never leaves [-80, 80]. */
  lemma RatioOfFour(mine: nat, theirs: nat)
    requires mine + theirs <= 4
    ensures -80 <= Ratio(mine, theirs) <= 80
    ensures mine == 4 ==> Ratio(mine, theirs) == 80
  {
    var d := mine + theirs + 1;
    var q := Ratio(mine, theirs);
    TruncDivMagnitude(100 * (mine - theirs), d);
    if Abs(q) > 80 {
      MulMonotone(81, Abs(q), d);
    }
    if mine == 4 {
      assert 100 * (mine - theirs) == 400 && d == 5;
    }
  }

  // ---------------------------------------------------------------- corners

  /** The corners in the order the source visits them: dx = {0, 7} outer, dy = {0, 7} inner. */
  const Corners: seq<(int, int)> := [(0, 0), (0, BoardSize - 1), (BoardSize - 1, 0), (BoardSize - 1, BoardSize - 1)]

  /** Number of the first `k` corners that hold `c`. */
  function CornerCount(b: Board, c: Cell, k: nat): (n: nat)
    requires k <= |Corners|
    ensures n <= k
  {
    if k == 0 then 0
    else CornerCount(b, c, k - 1) + (if b[Corners[k - 1].0][Corners[k - 1].1] == c then 1 else 0)
  }

  /** The two colours together hold at most `k` of the first `k` corners. */
  lemma {:induction false} CornerCountDisjoint(b: Board, t: Turn, k: nat)
    requires k <= |Corners|
    ensures CornerCount(b, t, k) + CornerCount(b, Other(t), k) <= k
  {
    if k > 0 {
      CornerCountDisjoint(b, t, k - 1);
    }
  }

  /** The corner score of `evaluateCorner`: corners held by `turn` against corners
      held by its opponent. */
  function CornerScore(b: Board, turn: Turn): (r: int)
    ensures -80 <= r <= 80
  {
    CornerCountDisjoint(b, turn, 4);
    RatioOfFour(CornerCount(b, turn, 4), CornerCount(b, Other(turn), 4));
    Ratio(CornerCount(b, turn, 4), CornerCount(b, Other(turn), 4))
  }

  /** `evaluateCorner`: counts the corners of each side in two nested loops over
      the coordinate arrays `dx` and `dy`, then normalises the difference. */
  method EvaluateCorner(board: Board, turn: Turn) returns (r: int)
    ensures r == CornerScore(board, turn)
  {
    var myNumCor, otherCor := 0, 0;
    var dx := [0, BoardSize - 1];
    var dy := [0, BoardSize - 1];
    for i := 0 to 2
      invariant myNumCor == CornerCount(board, turn, 2 * i)
      invariant otherCor == CornerCount(board, Other(turn), 2 * i)
    {
      for j := 0 to 2
        invariant myNumCor == CornerCount(board, turn, 2 * i + j)
        invariant otherCor == CornerCount(board, Other(turn), 2 * i + j)
      {
        var pos1, pos2 := dx[i], dy[j];
        if board[pos1][pos2] == turn {
          myNumCor := myNumCor + 1;
        } else if board[pos1][pos2] == Other(turn) {
          otherCor := otherCor + 1;
        }
      }
    }
    r := TruncDiv(100 * (myNumCor - otherCor), myNumCor + otherCor + 1);
  }

  /** The corner score reads the four corner cells and nothing else. */
  lemma CornerScoreReadsCorners(b: Board, b': Board, turn: Turn)
    requires forall k :: 0 <= k < |Corners| ==> b[Corners[k].0][Corners[k].1] == b'[Corners[k].0][Corners[k].1]
    ensures CornerScore(b, turn) == CornerScore(b', turn)
  {
    CornerCountFrame(b, b', turn, 4);
    CornerCountFrame(b, b', Other(turn), 4);
  }

  lemma {:induction false} CornerCountFrame(b: Board, b': Board, c: Cell, k: nat)
    requires k <= |Corners|
    requires forall n :: 0 <= n < k ==> b[Corners[n].0][Corners[n].1] == b'[Corners[n].0][Corners[n].1]
    ensures CornerCount(b, c, k) == CornerCount(b', c, k)
  {
    if k > 0 {
      CornerCountFrame(b, b', c, k - 1);
    }
  }

  /** Swapping the perspective negates the corner score. */
  lemma CornerScoreAntisymmetric(b: Board, turn: Turn)
    ensures CornerScore(b, Other(turn)) == -CornerScore(b, turn)
  {
    OtherInvolution(turn);
    RatioAntisymmetric(CornerCount(b, turn, 4), CornerCount(b, Other(turn), 4));
  }

  /** Holding all four corners gives exactly 80 (= 100 * 4 / 5). */
  lemma AllCornersScore(b: Board, turn: Turn)
    requires forall k :: 0 <= k < |Corners| ==> b[Corners[k].0][Corners[k].1] == turn
    ensures CornerScore(b, turn) == 80
  {
    CornerCountAll(b, turn, 4);
    CornerCountDisjoint(b, turn, 4);
    RatioOfFour(4, CornerCount(b, Other(turn), 4));
  }

  lemma {:induction false} CornerCountAll(b: Board, c: Cell, k: nat)
    requires k <= |Corners|
    requires forall n :: 0 <= n < k ==> b[Corners[n].0][Corners[n].1] == c
    ensures CornerCount(b, c, k) == k
  {
    if k > 0 {
      CornerCountAll(b, c, k - 1);
    }
  }

  /** With no corner taken the corner score is 0. */
  lemma NoCornersScore(b: Board, turn: Turn)
    requires forall k :: 0 <= k < |Corners| ==> b[Corners[k].0][Corners[k].1] == Empty
    ensures CornerScore(b, turn) == 0
  {
    CornerCountNone(b, turn, 4);
    CornerCountNone(b, Other(turn), 4);
  }

  lemma {:induction false} CornerCountNone(b: Board, t: Turn, k: nat)
    requires k <= |Corners|
    requires forall n :: 0 <= n < k ==> b[Corners[n].0][Corners[n].1] == Empty
    ensures CornerCount(b, t, k) == 0
  {
    if k > 0 {
      CornerCountNone(b, t, k - 1);
    }
  }

  // --------------------------------------------------------------- mobility

  /** `evaluateMobility`: the number of legal moves of `turn` against those of its
      opponent, normalised. */
  function EvaluateMobility(ad: Adapter, b: Board, turn: Turn): (r: int)
    ensures -99 <= r <= 99
    ensures |ad.validMoves(b, turn)| == |ad.validMoves(b, Other(turn))| ==> r == 0
  {
    Ratio(|ad.validMoves(b, turn)|, |ad.validMoves(b, Other(turn))|)
  }

  /** Swapping the perspective negates the mobility score. */
  lemma MobilityAntisymmetric(ad: Adapter, b: Board, turn: Turn)
    ensures EvaluateMobility(ad, b, Other(turn)) == -EvaluateMobility(ad, b, turn)
  {
    OtherInvolution(turn);
    RatioAntisymmetric(|ad.validMoves(b, turn)|, |ad.validMoves(b, Other(turn))|);
  }
}
