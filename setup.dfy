/** The starting position (main.py, create_board). */
module Setup {
  import opened Options
  import opened Pieces
  import opened Board

  /** The order of the pieces along each back rank, from column 0 to column 7. */
  const BackRank: seq<Kind> := [Rook, Knight, Bishop, Queen, King, Bishop, Knight, Rook]

  /** What stands on (r, c) at the start: black on rows 0 and 1, white on rows 6 and 7. */
  function InitialCell(r: int, c: int): Cell
    requires 0 <= r < 8 && 0 <= c < 8
  {
    if r == 0 then Some(Piece(Black, BackRank[c]))
    else if r == 1 then Some(Piece(Black, Pawn))
    else if r == 6 then Some(Piece(White, Pawn))
    else if r == 7 then Some(Piece(White, BackRank[c]))
    else None
  }

  /**
   * create_board: start from an empty grid, put the pawns on rows 1 and 6,
   * then fill the back ranks, rows 0 and 7.
   */
  method CreateBoard() returns (board: array2<Cell>)
    ensures fresh(board) && IsBoard(board)
    ensures forall r, c :: 0 <= r < 8 && 0 <= c < 8 ==> board[r, c] == InitialCell(r, c)
  {
    board := new Cell[8, 8]((r, c) => None);
    for i := 0 to 8
      invariant forall r, c :: 0 <= r < 8 && 0 <= c < 8 ==>
        board[r, c] == if (r == 1 || r == 6) && c < i then InitialCell(r, c) else None
    {
      board[1, i] := Some(Piece(Black, Pawn));
      board[6, i] := Some(Piece(White, Pawn));
    }
    for i := 0 to 8
      invariant forall r, c :: 0 <= r < 8 && 0 <= c < 8 ==>
        board[r, c] == if r == 1 || r == 6 || ((r == 0 || r == 7) && c < i) then InitialCell(r, c) else None
    {
      board[0, i] := Some(Piece(Black, BackRank[i]));
      board[7, i] := Some(Piece(White, BackRank[i]));
    }
  }

  /** The name stored in a cell, as the game keeps it: a piece's name, or nothing. */
  function CellName(cell: Cell): Option<string> {
    match cell
    case None => None
    case Some(p) => Some(Name(p))
  }

  /**
   * The starting position spelled with the game's piece names: the back
   * ranks read "br bn bb bq bk bb bn br" and "wr wn wb wq wk wb wn wr", the
   * pawn rows are all "bp" and all "wp", and rows 2 to 5 are empty.
   */
  lemma InitialLayoutByName(r: int, c: int)
    requires 0 <= r < 8 && 0 <= c < 8
    ensures CellName(InitialCell(r, c)) ==
      if r == 0 then Some(["br", "bn", "bb", "bq", "bk", "bb", "bn", "br"][c])
      else if r == 1 then Some("bp")
      else if r == 6 then Some("wp")
      else if r == 7 then Some(["wr", "wn", "wb", "wq", "wk", "wb", "wn", "wr"][c])
      else None
  {
  }

  /** The piece on (r, c) with its colour swapped. */
  function Mirrored(cell: Cell): Cell {
    match cell
    case None => None
    case Some(p) => Some(Piece(Opponent(p.colour), p.kind))
  }

  /** The two sides start as mirror images: row r of one is row 7 - r of the other. */
  lemma InitialLayoutMirrored(r: int, c: int)
    requires 0 <= r < 8 && 0 <= c < 8
    ensures InitialCell(7 - r, c) == Mirrored(InitialCell(r, c))
  {
  }
}
