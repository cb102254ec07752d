/**
 * The board: an 8x8 grid of cells, each empty or holding one piece, read
 * through a few predicates about what stands on a square.
 */
module Board {
  import opened Pieces
  import opened Geometry

  predicate IsBoard(board: array2<Cell>) {
    board.Length0 == 8 && board.Length1 == 8
  }

  /** `q` is a square of the board and nothing stands on it. */
  predicate EmptyAt(board: array2<Cell>, q: Square)
    requires IsBoard(board)
    reads board
  {
    OnBoard(q) && board[q.row, q.col].None?
  }

  /** A piece of colour `c` stands on `q`. */
  predicate OwnAt(board: array2<Cell>, q: Square, c: Colour)
    requires IsBoard(board)
    reads board
  {
    OnBoard(q) && board[q.row, q.col].Some? && board[q.row, q.col].value.colour == c
  }

  /** A piece of the side opposing `c` stands on `q`. */
  predicate EnemyAt(board: array2<Cell>, q: Square, c: Colour)
    requires IsBoard(board)
    reads board
  {
    OnBoard(q) && board[q.row, q.col].Some? && board[q.row, q.col].value.colour != c
  }
}
