/** The board abstraction the bot is written against (Desdemona's OthelloBoard,
    Turn and Move).  Only the grid and the disc counts are defined here; legal-move
    generation and move application are foreign code, so they enter the model as
    the two functions of an `Adapter` value that every operation receives. */
module OthelloBoard {

  const BoardSize: nat := 8

  /** The C++ `int` bounds the search uses as its initial window. */
  const IntMin: int := -0x8000_0000
  const IntMax: int := 0x7fff_ffff

  datatype Cell = Empty | Black | Red

  /** A turn is one of the two disc colours (in Desdemona a Turn is a Coin). */
  type Turn = c: Cell | c != Empty witness Black

  /** The opponent of `t`. */
  function Other(t: Turn): (o: Turn)
    ensures o != t
  {
    if t == Black then Red else Black
  }

  lemma OtherInvolution(t: Turn)
    ensures Other(Other(t)) == t
  {
  }

  predicate OnBoard(i: int, j: int)
  {
    0 <= i < BoardSize && 0 <= j < BoardSize
  }

  predicate IsGrid(g: seq<seq<Cell>>)
  {
    |g| == BoardSize && forall i :: 0 <= i < |g| ==> |g[i]| == BoardSize
  }

  /** An 8x8 grid of cells; `b[i][j]` is `board.get(i, j)`. */
  type Board = g: seq<seq<Cell>> | IsGrid(g) witness seq(8, _ => seq(8, _ => Empty))

  datatype Move = Move(x: int, y: int)

  /** The placeholder `Move(-1, -1)` that `play` returns when it has no move. */
  const NoMove: Move := Move(-1, -1)

  /** A move that names a cell of the board: what move generation produces. */
  type Square = m: Move | OnBoard(m.x, m.y) witness Move(0, 0)

  /** The foreign part of OthelloBoard: `getValidMoves` (its order is the search
      order) and `makeMove` applied to a copy of the board. */
  datatype Adapter = Adapter(validMoves: (Board, Turn) -> seq<Square>,
                             makeMove: (Board, Turn, Square) -> Board)

  /** Number of cells of `row` holding `c`. */
  function CountIn(row: seq<Cell>, c: Cell): (n: nat)
    ensures n <= |row|
  {
    if row == [] then 0
    else CountIn(row[..|row| - 1], c) + (if row[|row| - 1] == c then 1 else 0)
  }

  /** Number of cells of the first `m` rows holding `c`. */
  function CountRows(b: Board, c: Cell, m: nat): (n: nat)
    requires m <= BoardSize
    ensures n <= 8 * m
  {
    if m == 0 then 0 else CountRows(b, c, m - 1) + CountIn(b[m - 1], c)
  }

  /** `getBlackCount` / `getRedCount`: the discs of colour `c` on the board. */
  function CoinCount(b: Board, c: Turn): (n: nat)
    ensures n <= 64
  {
    CountRows(b, c, BoardSize)
  }

  lemma {:induction false} CountInDisjoint(row: seq<Cell>)
    ensures CountIn(row, Black) + CountIn(row, Red) <= |row|
  {
    if row != [] {
      CountInDisjoint(row[..|row| - 1]);
    }
  }

  lemma {:induction false} CountRowsDisjoint(b: Board, m: nat)
    requires m <= BoardSize
    ensures CountRows(b, Black, m) + CountRows(b, Red, m) <= 8 * m
  {
    if m > 0 {
      CountRowsDisjoint(b, m - 1);
      CountInDisjoint(b[m - 1]);
    }
  }

  /** The two colours together never hold more than the 64 cells, so the number of
      empty cells `64 - cnt` used by the parity term is never negative. */
  lemma CoinTotalBound(b: Board)
    ensures CoinCount(b, Black) + CoinCount(b, Red) <= 64
  {
    CountRowsDisjoint(b, BoardSize);
  }
}
