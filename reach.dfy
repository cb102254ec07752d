/**
 * A move generator for the same rules, written independently of the move
 * check: the squares a piece standing on a square can reach, built from the
 * rays a sliding piece travels, the fixed jumps of a knight or king, and the
 * few squares a pawn can step to. The check and the generator agree.
 */
module Reach {
  import opened Options
  import opened Pieces
  import opened Geometry
  import opened Board
  import opened Moves

  /** `q` is on the board and holds no piece of colour `c`. */
  predicate Enterable(board: array2<Cell>, q: Square, c: Colour)
    requires IsBoard(board)
    reads board
  {
    OnBoard(q) && !OwnAt(board, q, c)
  }

  /**
   * The squares a sliding piece of colour `c` on `s` reaches in direction
   * (dr, dc), from the `k`-th step on: every empty square up to the first
   * occupied one, and that one too when it holds an opposing piece.
   */
  function RayFrom(board: array2<Cell>, c: Colour, s: Square, dr: int, dc: int, k: nat): set<Square>
    requires IsBoard(board)
    reads board
    decreases 8 - k
  {
    var q := Along(s, dr, dc, k);
    if 8 <= k || !OnBoard(q) then {}
    else if board[q.row, q.col].None? then {q} + RayFrom(board, c, s, dr, dc, k + 1)
    else if board[q.row, q.col].value.colour != c then {q}
    else {}
  }

  function Ray(board: array2<Cell>, c: Colour, s: Square, dr: int, dc: int): set<Square>
    requires IsBoard(board)
    reads board
  {
    RayFrom(board, c, s, dr, dc, 1)
  }

  function Orthogonals(board: array2<Cell>, c: Colour, s: Square): set<Square>
    requires IsBoard(board)
    reads board
  {
    Ray(board, c, s, 1, 0) + Ray(board, c, s, -1, 0) + Ray(board, c, s, 0, 1) + Ray(board, c, s, 0, -1)
  }

  function Diagonals(board: array2<Cell>, c: Colour, s: Square): set<Square>
    requires IsBoard(board)
    reads board
  {
    Ray(board, c, s, 1, 1) + Ray(board, c, s, 1, -1) + Ray(board, c, s, -1, 1) + Ray(board, c, s, -1, -1)
  }

  const KnightJumps: set<(int, int)> :=
    {(2, 1), (1, 2), (-1, 2), (-2, 1), (-2, -1), (-1, -2), (1, -2), (2, -1)}

  const KingSteps: set<(int, int)> :=
    {(1, 0), (1, 1), (0, 1), (-1, 1), (-1, 0), (-1, -1), (0, -1), (1, -1)}

  /** The squares at the given offsets from `s` that a piece of colour `c` may enter. */
  function Jumps(board: array2<Cell>, c: Colour, s: Square, offsets: set<(int, int)>): set<Square>
    requires IsBoard(board)
    reads board
  {
    set o | o in offsets && Enterable(board, Sq(s.row + o.0, s.col + o.1), c) :: Sq(s.row + o.0, s.col + o.1)
  }

  /**
   * A pawn's squares: one ahead if empty; two ahead from the home row if
   * both are empty; one ahead diagonally on either side if an opposing
   * piece stands there.
   */
  function PawnSquares(board: array2<Cell>, c: Colour, s: Square): set<Square>
    requires IsBoard(board)
    reads board
  {
    var dir := Forward(c);
    var one := Sq(s.row + dir, s.col);
    var two := Sq(s.row + 2 * dir, s.col);
    var left := Sq(s.row + dir, s.col - 1);
    var right := Sq(s.row + dir, s.col + 1);
    (if EmptyAt(board, one) then {one} else {})
    + (if s.row == HomeRow(c) && EmptyAt(board, one) && EmptyAt(board, two) then {two} else {})
    + (if EnemyAt(board, left, c) then {left} else {})
    + (if EnemyAt(board, right, c) then {right} else {})
  }

  /** Every square piece `p` standing on `s` can move to. */
  function Destinations(p: Piece, s: Square, board: array2<Cell>): set<Square>
    requires IsBoard(board)
    reads board
  {
    match p.kind
    case Pawn => PawnSquares(board, p.colour, s)
    case Rook => Orthogonals(board, p.colour, s)
    case Bishop => Diagonals(board, p.colour, s)
    case Queen => Orthogonals(board, p.colour, s) + Diagonals(board, p.colour, s)
    case Knight => Jumps(board, p.colour, s, KnightJumps)
    case King => Jumps(board, p.colour, s, KingSteps)
  }

  /** Squares between two on-board squares of a walk are on the board. */
  lemma AlongStaysOnBoard(s: Square, dr: int, dc: int, j: int, n: int)
    requires IsStep(dr, dc) && OnBoard(s) && OnBoard(Along(s, dr, dc, n)) && 0 <= j <= n
    ensures OnBoard(Along(s, dr, dc, j))
  {
  }

  /**
   * Membership in a ray, without recursion: `e` lies on the ray, at least
   * `k` steps out, every square of the ray before it from step `k` on is
   * empty, and it holds no piece of the mover's colour.
   */
  lemma {:induction false} RayFromMember(board: array2<Cell>, c: Colour, s: Square,
                                        dr: int, dc: int, k: nat, e: Square)
    requires IsBoard(board) && OnBoard(s) && IsStep(dr, dc) && (dr, dc) != (0, 0) && 1 <= k
    ensures e in RayFrom(board, c, s, dr, dc, k) <==>
      var n := Distance(s, e);
      && k <= n && e == Along(s, dr, dc, n) && Enterable(board, e, c)
      && forall j :: k <= j < n ==> EmptyAt(board, Along(s, dr, dc, j))
    decreases 8 - k
  {
    var q := Along(s, dr, dc, k);
    var n := Distance(s, e);
    DistanceAlong(s, dr, dc, k);
    if k <= n && e == Along(s, dr, dc, n) && OnBoard(e) {
      AlongStaysOnBoard(s, dr, dc, k, n);
      DistanceAlong(s, dr, dc, n);
    }
    if 8 <= k || !OnBoard(q) {
    } else if board[q.row, q.col].None? {
      RayFromMember(board, c, s, dr, dc, k + 1, e);
      if e != q && k <= n && e == Along(s, dr, dc, n) {
        assert k < n;
      }
    } else {
      if k < n {
        assert !EmptyAt(board, Along(s, dr, dc, k));
      }
    }
  }

  /**
   * A sliding piece's ray in direction (dr, dc) reaches `e` exactly when
   * (dr, dc) is the step from `s` towards `e`, `e` is a different square it
   * may enter, and the path to it is clear.
   */
  lemma RayMember(board: array2<Cell>, c: Colour, s: Square, dr: int, dc: int, e: Square)
    requires IsBoard(board) && OnBoard(s) && IsStep(dr, dc) && (dr, dc) != (0, 0)
    ensures e in Ray(board, c, s, dr, dc) <==>
      && e != s && Aligned(s, e)
      && dr == Sign(e.row - s.row) && dc == Sign(e.col - s.col)
      && Enterable(board, e, c) && PathClear(board, s, e)
  {
    RayFromMember(board, c, s, dr, dc, 1, e);
    var n := Distance(s, e);
    if e in Ray(board, c, s, dr, dc) {
      WalkDirection(s, e, dr, dc);
    } else if e != s && Aligned(s, e) && dr == Sign(e.row - s.row) && dc == Sign(e.col - s.col) {
      WalkReachesEnd(s, e);
      if Enterable(board, e, c) && PathClear(board, s, e) {
        forall j | 1 <= j < n
          ensures EmptyAt(board, Along(s, dr, dc, j))
        {
          assert Toward(s, e, j) == Along(s, dr, dc, j);
        }
      }
    }
  }

  /** A rook, bishop or queen standing on `s` may move to `e` exactly when the generator lists `e`. */
  lemma SliderAgrees(p: Piece, s: Square, e: Square, board: array2<Cell>)
    requires IsBoard(board) && OnBoard(s) && OnBoard(e) && IsSlider(p.kind)
    requires board[s.row, s.col] == Some(p)
    ensures IsValidMove(p, s, e, board) <==> e in Destinations(p, s, board)
  {
    var c := p.colour;
    RayMember(board, c, s, 1, 0, e);
    RayMember(board, c, s, -1, 0, e);
    RayMember(board, c, s, 0, 1, e);
    RayMember(board, c, s, 0, -1, e);
    RayMember(board, c, s, 1, 1, e);
    RayMember(board, c, s, 1, -1, e);
    RayMember(board, c, s, -1, 1, e);
    RayMember(board, c, s, -1, -1, e);
  }

  /** A knight or king standing on `s` may move to `e` exactly when the generator lists `e`. */
  lemma JumperAgrees(p: Piece, s: Square, e: Square, board: array2<Cell>)
    requires IsBoard(board) && OnBoard(s) && OnBoard(e) && (p.kind == Knight || p.kind == King)
    ensures IsValidMove(p, s, e, board) <==> e in Destinations(p, s, board)
  {
  }

  /** A pawn standing anywhere may move to `e` exactly when the generator lists `e`. */
  lemma PawnAgrees(c: Colour, s: Square, e: Square, board: array2<Cell>)
    requires IsBoard(board) && OnBoard(s) && OnBoard(e)
    ensures IsValidMove(Piece(c, Pawn), s, e, board) <==> e in Destinations(Piece(c, Pawn), s, board)
  {
  }

  /**
   * The move check and the move generator agree: a piece standing on `s`
   * may move to the square `e` exactly when `e` is one of its destinations.
   */
  lemma CheckMatchesGenerator(p: Piece, s: Square, e: Square, board: array2<Cell>)
    requires IsBoard(board) && OnBoard(s) && OnBoard(e)
    requires board[s.row, s.col] == Some(p)
    ensures IsValidMove(p, s, e, board) <==> e in Destinations(p, s, board)
  {
    match p.kind
    case Pawn => PawnAgrees(p.colour, s, e, board);
    case Rook | Bishop | Queen => SliderAgrees(p, s, e, board);
    case Knight | King => JumperAgrees(p, s, e, board);
  }

  /** No piece is ever offered its own square as a destination. */
  lemma NeverStaysPut(p: Piece, s: Square, board: array2<Cell>)
    requires IsBoard(board) && OnBoard(s)
    ensures s !in Destinations(p, s, board)
  {
    match p.kind
    case Pawn =>
    case Rook | Bishop | Queen =>
      RayMember(board, p.colour, s, 1, 0, s);
      RayMember(board, p.colour, s, -1, 0, s);
      RayMember(board, p.colour, s, 0, 1, s);
      RayMember(board, p.colour, s, 0, -1, s);
      RayMember(board, p.colour, s, 1, 1, s);
      RayMember(board, p.colour, s, 1, -1, s);
      RayMember(board, p.colour, s, -1, 1, s);
      RayMember(board, p.colour, s, -1, -1, s);
    case Knight | King =>
  }
}
