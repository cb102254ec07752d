/**
 * Pieces: a colour and a kind, and the two-letter names ("wp", "bk", ...)
 * the game uses to identify them (main.py, class Piece).
 */
module Pieces {
  import opened Options

  datatype Colour = White | Black

  datatype Kind = Pawn | Rook | Knight | Bishop | Queen | King

  datatype Piece = Piece(colour: Colour, kind: Kind)

  /** A board cell: empty, or exactly one piece. */
  type Cell = Option<Piece>

  /** The side that moves after `c`. */
  function Opponent(c: Colour): Colour {
    match c
    case White => Black
    case Black => White
  }

  function ColourLetter(c: Colour): char {
    match c
    case White => 'w'
    case Black => 'b'
  }

  function KindLetter(k: Kind): char {
    match k
    case Pawn => 'p'
    case Rook => 'r'
    case Knight => 'n'
    case Bishop => 'b'
    case Queen => 'q'
    case King => 'k'
  }

  /** The name under which the game stores a piece on the board. */
  function Name(p: Piece): string {
    [ColourLetter(p.colour), KindLetter(p.kind)]
  }

  function ColourOfLetter(ch: char): Option<Colour> {
    if ch == 'w' then Some(White)
    else if ch == 'b' then Some(Black)
    else None
  }

  function KindOfLetter(ch: char): Option<Kind> {
    if ch == 'p' then Some(Pawn)
    else if ch == 'r' then Some(Rook)
    else if ch == 'n' then Some(Knight)
    else if ch == 'b' then Some(Bishop)
    else if ch == 'q' then Some(Queen)
    else if ch == 'k' then Some(King)
    else None
  }

  /**
   * Building a piece from its name: the colour is the first letter and the
   * kind the second. A name shorter than two letters has no piece, and so
   * has one whose letters name no colour or no kind.
   */
  function FromName(name: string): (r: Option<Piece>)
    ensures r.Some? <==> |name| >= 2 && name[0] in "wb" && name[1] in "prnbqk"
    ensures r.Some? ==> Name(r.value) == name[..2]
  {
    if |name| < 2 then None
    else match (ColourOfLetter(name[0]), KindOfLetter(name[1]))
      case (Some(c), Some(k)) => Some(Piece(c, k))
      case _ => None
  }

  /** Every piece is recovered from its own name. */
  lemma NameRoundTrip(p: Piece)
    ensures FromName(Name(p)) == Some(p)
  {
  }

  /** Distinct pieces have distinct names, so a name identifies its piece. */
  lemma NamesDistinct(p: Piece, q: Piece)
    ensures Name(p) == Name(q) <==> p == q
  {
  }
}
