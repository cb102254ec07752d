/**
 * Squares of the 8x8 board and the straight lines through them: the walk a
 * sliding piece makes one square at a time, and which squares lie strictly
 * between two aligned squares.
 */
module Geometry {

  /** A square (row, col); row 0 is black's back rank, row 7 white's. */
  datatype Square = Sq(row: int, col: int)

  predicate OnBoard(q: Square) {
    0 <= q.row < 8 && 0 <= q.col < 8
  }

  function Abs(x: int): nat {
    if x < 0 then -x else x
  }

  function Min(a: int, b: int): int {
    if a <= b then a else b
  }

  function Max(a: int, b: int): int {
    if a <= b then b else a
  }

  function Sign(d: int): int {
    if d > 0 then 1 else if d < 0 then -1 else 0
  }

  /** `k` steps of a unit step `u` (one of -1, 0, 1). */
  function Scale(k: int, u: int): int {
    if u > 0 then k else if u < 0 then -k else 0
  }

  /** A direction a piece can step in: each component -1, 0 or 1. */
  predicate IsStep(dr: int, dc: int) {
    -1 <= dr <= 1 && -1 <= dc <= 1
  }

  /** The square reached from `s` after `k` steps of (dr, dc). */
  function Along(s: Square, dr: int, dc: int, k: int): Square {
    Sq(s.row + Scale(k, dr), s.col + Scale(k, dc))
  }

  /** The `k`-th square of the walk from `s` towards `e`, whose step is the sign of each delta. */
  function Toward(s: Square, e: Square, k: int): Square {
    Along(s, Sign(e.row - s.row), Sign(e.col - s.col), k)
  }

  /** King-step distance: the larger of the row and column deltas. */
  function Distance(s: Square, e: Square): nat {
    Max(Abs(e.row - s.row), Abs(e.col - s.col))
  }

  /** Same row, same column, or same diagonal. */
  predicate Aligned(s: Square, e: Square) {
    e.row == s.row || e.col == s.col || Abs(e.row - s.row) == Abs(e.col - s.col)
  }

  predicate OnDiagonal(a: Square, b: Square) {
    Abs(a.row - b.row) == Abs(a.col - b.col)
  }

  /**
   * `q` lies strictly inside the line segment from `s` to `e`, for aligned
   * `s` and `e`: on their row strictly between their columns, on their
   * column strictly between their rows, or on a diagonal through each of
   * them strictly between their rows.
   */
  predicate StrictlyBetween(s: Square, q: Square, e: Square) {
    if s.row == e.row then
      q.row == s.row && Min(s.col, e.col) < q.col < Max(s.col, e.col)
    else if s.col == e.col then
      q.col == s.col && Min(s.row, e.row) < q.row < Max(s.row, e.row)
    else
      OnDiagonal(s, q) && OnDiagonal(q, e) && Min(s.row, e.row) < q.row < Max(s.row, e.row)
  }

  /** A walk of `k` steps in a direction that moves at all covers distance `k`. */
  lemma DistanceAlong(s: Square, dr: int, dc: int, k: nat)
    requires IsStep(dr, dc) && (dr, dc) != (0, 0)
    ensures Distance(s, Along(s, dr, dc, k)) == k
  {
  }

  /**
   * The walk from `s` towards an aligned `e` reaches `e` after exactly
   * Distance(s, e) steps, not before, and stays on the board until then.
   */
  lemma WalkReachesEnd(s: Square, e: Square)
    requires Aligned(s, e)
    ensures Toward(s, e, Distance(s, e)) == e
    ensures forall k :: 0 <= k < Distance(s, e) ==> Toward(s, e, k) != e
    ensures OnBoard(s) && OnBoard(e) ==>
      forall k :: 0 <= k <= Distance(s, e) ==> OnBoard(Toward(s, e, k))
  {
  }

  /** After `k` steps of the walk towards an aligned `e`, `e` is Distance(s, e) - k steps away. */
  lemma RemainingDistance(s: Square, e: Square, k: nat)
    requires Aligned(s, e) && k <= Distance(s, e)
    ensures Distance(Toward(s, e, k), e) == Distance(s, e) - k
  {
  }

  /**
   * A walk in a direction that moves which ends on `e` is the walk towards
   * `e`: its direction is the sign of each delta and `e` is aligned with `s`.
   */
  lemma WalkDirection(s: Square, e: Square, dr: int, dc: int)
    requires IsStep(dr, dc) && (dr, dc) != (0, 0)
    requires Distance(s, e) >= 1 && e == Along(s, dr, dc, Distance(s, e))
    ensures dr == Sign(e.row - s.row) && dc == Sign(e.col - s.col)
    ensures Aligned(s, e)
  {
  }

  /**
   * The squares strictly between aligned `s` and `e` are exactly the squares
   * the walk from `s` visits before it reaches `e`.
   */
  lemma BetweenIsWalk(s: Square, q: Square, e: Square)
    requires Aligned(s, e)
    ensures StrictlyBetween(s, q, e) <==>
      0 < Distance(s, q) < Distance(s, e) && q == Toward(s, e, Distance(s, q))
  {
  }
}
