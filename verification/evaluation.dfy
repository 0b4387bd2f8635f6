/** `evalFunc`: the phase-weighted blend of the sub-heuristics used at the leaves
    of the search. */
module Evaluator {
  import opened OthelloBoard
  import opened Heuristics

  /** One row of the phase table. */
  datatype Weights = Weights(corner: int, mobility: int, coinDiff: int, parity: int, stability: int)

  /** The five sub-heuristic values of a position, seen from one player. */
  datatype Terms = Terms(corner: int, mobility: int, coinDiff: int, parity: int, stability: int)

  /** The phase table, indexed by the number of discs on the board: opening below
      20, midgame from 20 to 58, endgame above 58. */
  function PhaseWeights(cnt: int): Weights
  {
    if cnt < 20 then Weights(1000, 50, 0, 0, 5)
    else if cnt <= 58 then Weights(1000, 20, 10, 100, 50)
    else Weights(1000, 100, 500, 500, 500)
  }

  /** The weighted sum of the terms. */
  function Score(w: Weights, t: Terms): int
  {
    w.corner * t.corner + w.mobility * t.mobility + w.coinDiff * t.coinDiff
    + w.parity * t.parity + w.stability * t.stability
  }

  /** The parity term `eP`: +1 when the number of empty cells is odd, -1 otherwise.
      (C++ `%` and Dafny `%` agree on whether the remainder is zero.) */
  function Parity(cnt: int): (p: int)
    ensures p == 1 || p == -1
  {
    if (BoardSize * BoardSize - cnt) % 2 != 0 then 1 else -1
  }

  /** The parity term flips with every disc placed. */
  lemma ParityAlternates(cnt: int)
    ensures Parity(cnt + 1) == -Parity(cnt)
  {
  }

  /** `myCoins` and `otherCoins` as `evalFunc` reads them. */
  function MyCoins(b: Board, turn: Turn): nat
  {
    if turn == Black then CoinCount(b, Black) else CoinCount(b, Red)
  }

  function OtherCoins(b: Board, turn: Turn): nat
  {
    if turn == Black then CoinCount(b, Red) else CoinCount(b, Black)
  }

  /** `cnt`, the number of discs on the board. */
  function DiscCount(b: Board): (cnt: nat)
    ensures cnt <= 64
  {
    CoinTotalBound(b);
    CoinCount(b, Black) + CoinCount(b, Red)
  }

  /** The sub-heuristics at a position.  The stability term is 0: the source
      computes `stab = 0` and leaves the `evalStability` call commented out. */
  function TermsOf(ad: Adapter, b: Board, turn: Turn): (t: Terms)
    ensures t.stability == 0
    ensures -80 <= t.corner <= 80 && -99 <= t.mobility <= 99 && -99 <= t.coinDiff <= 99
    ensures t.parity == 1 || t.parity == -1
  {
    Terms(CornerScore(b, turn), EvaluateMobility(ad, b, turn),
          Ratio(MyCoins(b, turn), OtherCoins(b, turn)), Parity(DiscCount(b)), 0)
  }

  /** The largest magnitude an evaluation can reach (endgame: 1000 * 80 + 100 * 99
      + 500 * 99 + 500 * 1); far inside the 32-bit range. */
  const EvalBound: int := 139900

  /** The leaf value of the search: the active phase's weights applied to the terms. */
  function Evaluation(ad: Adapter, b: Board, turn: Turn): (r: int)
    ensures -EvalBound <= r <= EvalBound
    ensures IntMin < r < IntMax
  {
    Score(PhaseWeights(DiscCount(b)), TermsOf(ad, b, turn))
  }

  /** `evalFunc`, branch for branch. */
  method EvalFunc(ad: Adapter, board: Board, turn: Turn) returns (r: int)
    ensures r == Evaluation(ad, board, turn)
  {
    var myCoins: int, otherCoins: int := 0, 0;
    if turn == Black {
      myCoins := CoinCount(board, Black);
      otherCoins := CoinCount(board, Red);
    } else {
      myCoins := CoinCount(board, Red);
      otherCoins := CoinCount(board, Black);
    }
    var cnt := myCoins + otherCoins;
    var stab := 0;
    var eCD := TruncDiv(100 * (myCoins - otherCoins), myCoins + otherCoins + 1);
    var remCoins := BoardSize * BoardSize - cnt;
    var eP := if remCoins % 2 != 0 then 1 else -1;
    var corner := EvaluateCorner(board, turn);
    assert myCoins == MyCoins(board, turn) && otherCoins == OtherCoins(board, turn);
    assert cnt == DiscCount(board) && eP == Parity(cnt);
    assert eCD == Ratio(myCoins, otherCoins);
    if cnt < 20 {
      r := 1000 * corner + 50 * EvaluateMobility(ad, board, turn) + 5 * stab;
    } else if cnt <= 58 {
      r := 1000 * corner + 20 * EvaluateMobility(ad, board, turn) + 10 * eCD + 100 * eP + 50 * stab;
    } else {
      r := 1000 * corner + 100 * EvaluateMobility(ad, board, turn) + 500 * eCD + 500 * eP + 500 * stab;
    }
  }

  /** The phase weights change exactly when the disc count goes from 19 to 20 and
      from 58 to 59; the corner weight is 1000 in every phase. */
  lemma PhaseBoundaries(cnt: int)
    ensures PhaseWeights(cnt).corner == 1000
    ensures PhaseWeights(cnt + 1) != PhaseWeights(cnt) <==> cnt == 19 || cnt == 58
  {
  }

  /** The corner, mobility and coin terms change sign with the perspective; the
      parity term does not, so the two players' evaluations sum to twice the
      weighted parity term. */
  lemma EvaluationSkew(ad: Adapter, b: Board, turn: Turn)
    ensures Evaluation(ad, b, turn) + Evaluation(ad, b, Other(turn))
         == 2 * PhaseWeights(DiscCount(b)).parity * Parity(DiscCount(b))
  {
    CornerScoreAntisymmetric(b, turn);
    MobilityAntisymmetric(ad, b, turn);
    RatioAntisymmetric(MyCoins(b, turn), OtherCoins(b, turn));
    assert MyCoins(b, Other(turn)) == OtherCoins(b, turn) && OtherCoins(b, Other(turn)) == MyCoins(b, turn);
    var mine, theirs := TermsOf(ad, b, turn), TermsOf(ad, b, Other(turn));
    assert theirs == Terms(-mine.corner, -mine.mobility, -mine.coinDiff, mine.parity, 0);
    ScoreOfNegatedTerms(PhaseWeights(DiscCount(b)), mine);
  }

  /** Negating every term but parity (with stability 0) leaves twice the parity part. */
  lemma ScoreOfNegatedTerms(w: Weights, t: Terms)
    requires t.stability == 0
    ensures Score(w, t) + Score(w, Terms(-t.corner, -t.mobility, -t.coinDiff, t.parity, 0)) == 2 * w.parity * t.parity
  {
  }

  /** In the opening the parity weight is 0, so the evaluation is zero-sum. */
  lemma OpeningZeroSum(ad: Adapter, b: Board, turn: Turn)
    requires DiscCount(b) < 20
    ensures Evaluation(ad, b, Other(turn)) == -Evaluation(ad, b, turn)
  {
    EvaluationSkew(ad, b, turn);
  }
}
