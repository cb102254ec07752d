/**
 * Move legality (main.py, Piece.is_valid_move and Piece.clear_path):
 * whether a piece may go from one square to another on the current board,
 * by the rule of its kind and, for sliding pieces, an unobstructed path.
 */
module Moves {
  import opened Options
  import opened Pieces
  import opened Geometry
  import opened Board

  /**
   * One component of the step clear_path takes: the delta floor-divided by
   * its own size (at least 1), or 0 when there is no delta. Dafny's `/` with
   * a positive divisor rounds down like the source's `//`.
   */
  function UnitStep(from: int, to: int): (u: int)
    ensures u == Sign(to - from)
  {
    if to != from then (to - from) / Max(1, Abs(to - from)) else 0
  }

  /** Every square the walk from `start` visits before it reaches `end` is empty. */
  predicate PathClear(board: array2<Cell>, start: Square, end: Square)
    requires IsBoard(board)
    reads board
  {
    forall k :: 0 < k < Distance(start, end) ==> EmptyAt(board, Toward(start, end, k))
  }

  /**
   * clear_path: walk from `start` towards `end` one step at a time and
   * report an obstruction at the first occupied square before `end`. The
   * walk reaches `end` only for aligned squares, the only ones it is called with.
   */
  method ClearPath(start: Square, end: Square, board: array2<Cell>) returns (clear: bool)
    requires IsBoard(board) && OnBoard(start) && OnBoard(end)
    requires Aligned(start, end)
    ensures clear == PathClear(board, start, end)
  {
    var dx := UnitStep(start.row, end.row);
    var dy := UnitStep(start.col, end.col);
    var x, y := start.row + dx, start.col + dy;
    ghost var n := Distance(start, end);
    ghost var k := 1;
    WalkReachesEnd(start, end);
    if n > 0 {
      RemainingDistance(start, end, 1);
    }
    while (x, y) != (end.row, end.col)
      invariant 1 <= k && (k <= n || n == 0)
      invariant Sq(x, y) == Toward(start, end, k)
      invariant forall j :: 0 < j < k ==> EmptyAt(board, Toward(start, end, j))
      invariant n > 0 ==> Distance(Sq(x, y), end) == n - k
      decreases Distance(Sq(x, y), end)
    {
      if board[x, y].Some? {
        assert !EmptyAt(board, Toward(start, end, k));
        return false;
      }
      x, y, k := x + dx, y + dy, k + 1;
      RemainingDistance(start, end, k);
    }
    return true;
  }

  /** The row direction a pawn of colour `c` advances in. */
  function Forward(c: Colour): int {
    if c == White then -1 else 1
  }

  /** The row a pawn of colour `c` starts on and may advance two squares from. */
  function HomeRow(c: Colour): int {
    if c == White then 6 else 1
  }

  /** The pawn branch of is_valid_move, once self-capture has been ruled out. */
  predicate PawnMove(c: Colour, start: Square, end: Square, board: array2<Cell>)
    requires IsBoard(board) && OnBoard(start) && OnBoard(end)
    reads board
  {
    var target := board[end.row, end.col];
    var dir := Forward(c);
    (start.col == end.col && target.None? &&
      (end.row == start.row + dir ||
       (start.row == HomeRow(c) && end.row == start.row + 2 * dir &&
        board[start.row + dir, start.col].None?)))
    || (Abs(end.col - start.col) == 1 && end.row == start.row + dir &&
        target.Some? && target.value.colour != c)
  }

  /**
   * is_valid_move: a move onto a piece of the mover's own colour is refused
   * first; then the kind decides. The square `start` itself is never
   * consulted, so the result does not depend on `p` standing there.
   */
  function IsValidMove(p: Piece, start: Square, end: Square, board: array2<Cell>): (valid: bool)
    requires IsBoard(board) && OnBoard(start) && OnBoard(end)
    reads board
    ensures valid ==> !OwnAt(board, end, p.colour)
    ensures valid && board[start.row, start.col] == Some(p) ==> start != end
  {
    var dx, dy := end.row - start.row, end.col - start.col;
    if OwnAt(board, end, p.colour) then false
    else match p.kind
      case Pawn => PawnMove(p.colour, start, end, board)
      case Rook => (dx == 0 || dy == 0) && PathClear(board, start, end)
      case Bishop => Abs(dx) == Abs(dy) && PathClear(board, start, end)
      case Queen => (dx == 0 || dy == 0 || Abs(dx) == Abs(dy)) && PathClear(board, start, end)
      case Knight => (Abs(dx), Abs(dy)) in {(2, 1), (1, 2)}
      case King => Max(Abs(dx), Abs(dy)) == 1
  }

  predicate IsSlider(k: Kind) {
    k == Rook || k == Bishop || k == Queen
  }

  /** The geometric test a sliding piece applies before it looks at the path. */
  predicate SliderShape(k: Kind, start: Square, end: Square) {
    var dx, dy := end.row - start.row, end.col - start.col;
    match k
    case Rook => dx == 0 || dy == 0
    case Bishop => Abs(dx) == Abs(dy)
    case Queen => dx == 0 || dy == 0 || Abs(dx) == Abs(dy)
    case _ => false
  }

  /**
   * The squares whose contents can decide a move: the destination; for a
   * pawn, the square in front of it; for a sliding piece, the path.
   */
  function Footprint(p: Piece, start: Square, end: Square): (fp: set<Square>)
    ensures end in fp
    ensures start != end ==> start !in fp
    ensures p.kind == Knight || p.kind == King ==> fp == {end}
  {
    {end} +
    match p.kind
    case Pawn => {Sq(start.row + Forward(p.colour), start.col)}
    case Rook | Bishop | Queen => set k | 0 < k < Distance(start, end) :: Toward(start, end, k)
    case Knight | King => {}
  }

  /**
   * Path clearance in the words of the rule: every square strictly between
   * two aligned squares is empty.
   */
  lemma PathClearMeansBetweenEmpty(board: array2<Cell>, start: Square, end: Square)
    requires IsBoard(board) && Aligned(start, end)
    ensures PathClear(board, start, end) <==>
      forall q :: StrictlyBetween(start, q, end) ==> EmptyAt(board, q)
  {
    if PathClear(board, start, end) {
      forall q | StrictlyBetween(start, q, end)
        ensures EmptyAt(board, q)
      {
        BetweenIsWalk(start, q, end);
      }
    } else {
      var k :| 0 < k < Distance(start, end) && !EmptyAt(board, Toward(start, end, k));
      var q := Toward(start, end, k);
      DistanceAlong(start, Sign(end.row - start.row), Sign(end.col - start.col), k);
      BetweenIsWalk(start, q, end);
    }
  }

  /** The walk never looks at `end` itself: boards that differ only there agree on the path. */
  lemma PathClearSkipsEnd(b1: array2<Cell>, b2: array2<Cell>, start: Square, end: Square)
    requires IsBoard(b1) && IsBoard(b2) && Aligned(start, end)
    requires forall r, c :: 0 <= r < 8 && 0 <= c < 8 && Sq(r, c) != end ==> b1[r, c] == b2[r, c]
    ensures PathClear(b1, start, end) == PathClear(b2, start, end)
  {
  }

  /**
   * A sliding piece may move exactly when the move has its shape, the
   * destination holds no piece of its own colour, and every square strictly
   * between is empty.
   */
  lemma SlidingRule(p: Piece, start: Square, end: Square, board: array2<Cell>)
    requires IsBoard(board) && OnBoard(start) && OnBoard(end) && IsSlider(p.kind)
    ensures IsValidMove(p, start, end, board) <==>
      SliderShape(p.kind, start, end) && !OwnAt(board, end, p.colour) &&
      forall q :: StrictlyBetween(start, q, end) ==> EmptyAt(board, q)
  {
    if SliderShape(p.kind, start, end) {
      PathClearMeansBetweenEmpty(board, start, end);
    }
  }

  /**
   * The zero-length move of a sliding piece: with no piece of the mover's
   * colour on the square, rook, bishop and queen all accept it, because the
   * walk ends before it starts. It is refused only when the mover stands there.
   */
  lemma ZeroLengthSlide(p: Piece, s: Square, board: array2<Cell>)
    requires IsBoard(board) && OnBoard(s) && IsSlider(p.kind)
    ensures IsValidMove(p, s, s, board) <==> !OwnAt(board, s, p.colour)
  {
  }

  /**
   * The pawn's moves: straight ahead only onto empty squares, one step, or
   * two from its home row across an empty square; diagonally one step ahead
   * only onto an opposing piece; nothing else.
   */
  lemma PawnRules(c: Colour, start: Square, end: Square, board: array2<Cell>)
    requires IsBoard(board) && OnBoard(start) && OnBoard(end)
    ensures var dir := Forward(c);
      IsValidMove(Piece(c, Pawn), start, end, board) <==>
        || (end == Sq(start.row + dir, start.col) && EmptyAt(board, end))
        || (start.row == HomeRow(c) && end == Sq(start.row + 2 * dir, start.col) &&
            EmptyAt(board, Sq(start.row + dir, start.col)) && EmptyAt(board, end))
        || (end.row == start.row + dir && Abs(end.col - start.col) == 1 && EnemyAt(board, end, c))
  {
  }

  /**
   * Legality depends on the board only through the footprint: boards that
   * agree there give the same answer. In particular a knight or a king looks
   * only at its destination, and no piece looks at the square it leaves.
   */
  lemma ReadsOnlyFootprint(p: Piece, start: Square, end: Square, b1: array2<Cell>, b2: array2<Cell>)
    requires IsBoard(b1) && IsBoard(b2) && OnBoard(start) && OnBoard(end)
    requires forall q :: q in Footprint(p, start, end) && OnBoard(q) ==>
      b1[q.row, q.col] == b2[q.row, q.col]
    ensures IsValidMove(p, start, end, b1) == IsValidMove(p, start, end, b2)
  {
  }
}
