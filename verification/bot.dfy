/** `MyBot::play`: the root of the search.  Every legal move is tried, the
    position after it is searched with the full window, and the first move of
    greatest value is kept. */
module Bot {
  import opened OthelloBoard
  import opened Evaluator
  import opened Search

  /** The value `play` gives each of its legal moves, in move order: the minimax
      value of the position after the move, searched `PlyDepth` plies deep with
      the opponent to move. */
  function RootValues(ad: Adapter, b: Board, turn: Turn): (vs: seq<int>)
    ensures |vs| == |ad.validMoves(b, turn)|
    ensures forall k :: 0 <= k < |vs| ==> -EvalBound <= vs[k] <= EvalBound
  {
    var ms := ad.validMoves(b, turn);
    var vs := seq(|ms|, k requires 0 <= k < |ms| => MinimaxValue(ad, ad.makeMove(b, turn, ms[k]), Other(turn), 0, turn));
    assert forall k :: 0 <= k < |vs| ==> vs[k] == MinimaxValue(ad, ad.makeMove(b, turn, ms[k]), Other(turn), 0, turn);
    vs
  }

  /** The first index at which `s` reaches its maximum. */
  function FirstArgMax(s: seq<int>): (k: nat)
    requires |s| > 0
    ensures k < |s|
    ensures forall j :: 0 <= j < |s| ==> s[j] <= s[k]
    ensures forall j :: 0 <= j < k ==> s[j] < s[k]
  {
    if |s| == 1 then 0
    else
      var k := FirstArgMax(s[..|s| - 1]);
      if s[|s| - 1] > s[k] then |s| - 1 else k
  }

  /** Extending the sequence by one value moves the first maximum to the new
      position exactly when the new value is strictly greater. */
  lemma FirstArgMaxExtend(s: seq<int>, i: nat)
    requires i < |s|
    ensures i > 0 ==> FirstArgMax(s[..i + 1]) == if s[i] > s[FirstArgMax(s[..i])] then i else FirstArgMax(s[..i])
    ensures i == 0 ==> FirstArgMax(s[..i + 1]) == 0
  {
    assert s[..i + 1][..i] == s[..i];
  }

  /** With the window (INT_MIN, INT_MAX) the search of a child returns its exact
      minimax value, because every evaluation lies strictly inside the window. */
  lemma FullWindowIsExact(v: int, r: int)
    requires -EvalBound <= v <= EvalBound
    requires WithinWindow(v, IntMin, IntMax, r)
    ensures r == v
  {
  }

  /** `play`: keeps the move with the strictly greatest search value seen so far,
      starting from `(-1, -1)` and `INT_MIN`.  The result is the placeholder exactly
      when there is no legal move, and otherwise the first legal move of greatest
      minimax value. */
  method Play(ad: Adapter, board: Board, turn: Turn) returns (m: Move)
    ensures m == NoMove <==> |ad.validMoves(board, turn)| == 0
    ensures |ad.validMoves(board, turn)| > 0 ==>
      m == ad.validMoves(board, turn)[FirstArgMax(RootValues(ad, board, turn))]
  {
    var fiMove := NoMove;
    var val := IntMin;
    var posMoves := ad.validMoves(board, turn);
    var numMoves := |posMoves|;
    ghost var values := RootValues(ad, board, turn);
    ghost var best := 0;
    for i := 0 to numMoves
      invariant i == 0 ==> fiMove == NoMove && val == IntMin
      invariant i > 0 ==> best == FirstArgMax(values[..i]) && val == values[best] && fiMove == posMoves[best]
    {
      var newBoard := ad.makeMove(board, turn, posMoves[i]);
      var vith := AlphaBeta(ad, newBoard, IntMin, IntMax, Other(turn), 0, turn);
      FullWindowIsExact(values[i], vith);
      FirstArgMaxExtend(values, i);
      if vith > val {
        val := vith;
        fiMove := posMoves[i];
        best := i;
      }
    }
    assert numMoves > 0 ==> values[..numMoves] == values;
    m := fiMove;
  }
}
