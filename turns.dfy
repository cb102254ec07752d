/**
 * The game around the move check (main.py, main): the board, the side to
 * move, and the square the player has selected. A click on a square either
 * selects a piece or, with a piece already selected, tries to move it there.
 */
module Turns {
  import opened Options
  import opened Pieces
  import opened Geometry
  import opened Board
  import opened Moves
  import opened Setup

  class Game {
    var board: array2<Cell>
    var turn: Colour
    var selected: Option<Square>

    ghost predicate Valid()
      reads this
    {
      IsBoard(board) && (selected.Some? ==> OnBoard(selected.value))
    }

    /** A selected square holds a piece of the side to move. */
    ghost predicate SelectionHeld()
      requires Valid()
      reads this, board
    {
      selected.Some? ==> OwnAt(board, selected.value, turn)
    }

    /** The game starts from the initial position, white to move, nothing selected. */
    constructor ()
      ensures Valid() && SelectionHeld() && fresh(board)
      ensures turn == White && selected == None
      ensures forall r, c :: 0 <= r < 8 && 0 <= c < 8 ==> board[r, c] == InitialCell(r, c)
    {
      var initial := CreateBoard();
      board := initial;
      turn := White;
      selected := None;
    }

    /**
     * A click on (row, col). With nothing selected, the square becomes
     * selected if it holds a piece of the side to move. With a square
     * selected that holds a piece, the piece moves there if it belongs to
     * the side to move and the move is legal: the destination receives it,
     * the source is emptied and the turn passes; either way the selection
     * is dropped. A selection whose square is empty is kept.
     */
    method Click(row: int, col: int)
      requires Valid() && 0 <= row < 8 && 0 <= col < 8
      modifies this, board
      ensures Valid() && board == old(board)
      ensures old(SelectionHeld()) ==> SelectionHeld()
      ensures old(selected).None? ==>
        && unchanged(board) && turn == old(turn)
        && selected == if old(OwnAt(board, Sq(row, col), turn)) then Some(Sq(row, col)) else None
      ensures old(selected).Some? && old(board[selected.value.row, selected.value.col]).None? ==>
        unchanged(board) && turn == old(turn) && selected == old(selected)
      ensures old(selected).Some? && old(board[selected.value.row, selected.value.col]).Some? ==>
        var s, e := old(selected).value, Sq(row, col);
        var p := old(board[s.row, s.col]).value;
        var moved := p.colour == old(turn) && old(IsValidMove(p, s, e, board));
        && selected == None
        && turn == (if moved then Opponent(old(turn)) else old(turn))
        && (moved ==>
              && s != e && board[e.row, e.col] == Some(p) && board[s.row, s.col] == None
              && forall r, c :: 0 <= r < 8 && 0 <= c < 8 && Sq(r, c) != s && Sq(r, c) != e ==>
                   board[r, c] == old(board[r, c]))
        && (!moved ==> unchanged(board))
    {
      var piece := board[row, col];
      if selected.Some? {
        var s := selected.value;
        var name := board[s.row, s.col];
        if name.Some? {
          var p := name.value;
          if p.colour == turn && IsValidMove(p, s, Sq(row, col), board) {
            board[row, col] := name;
            board[s.row, s.col] := None;
            turn := Opponent(turn);
          }
          selected := None;
        }
      } else if piece.Some? && piece.value.colour == turn {
        selected := Some(Sq(row, col));
      }
    }
  }

  /**
   * An opening played through clicks: white's king pawn advances two
   * squares, black's attempt to push a pawn three squares is refused, black
   * answers with its own king pawn, and white's bishop then crosses the
   * squares the pawn vacated.
   */
  method OpeningSequence() {
    var g := new Game();
    assert g.board[6, 4] == Some(Piece(White, Pawn)) && g.board[5, 4] == None && g.board[4, 4] == None;
    assert g.board[1, 3] == Some(Piece(Black, Pawn)) && g.board[1, 4] == Some(Piece(Black, Pawn));
    assert g.board[2, 4] == None && g.board[3, 4] == None;
    assert g.board[7, 5] == Some(Piece(White, Bishop)) && g.board[5, 3] == None && g.board[4, 2] == None;
    g.Click(6, 4);
    assert g.selected == Some(Sq(6, 4));
    g.Click(4, 4);
    assert g.turn == Black && g.selected == None;
    assert g.board[4, 4] == Some(Piece(White, Pawn)) && g.board[6, 4] == None;
    assert g.board[1, 3] == Some(Piece(Black, Pawn)) && g.board[1, 4] == Some(Piece(Black, Pawn));
    assert g.board[2, 4] == None && g.board[3, 4] == None;
    assert g.board[7, 5] == Some(Piece(White, Bishop)) && g.board[5, 3] == None && g.board[4, 2] == None;

    g.Click(1, 3);
    assert g.selected == Some(Sq(1, 3));
    g.Click(4, 3);
    assert g.turn == Black && g.selected == None;

    g.Click(1, 4);
    assert g.selected == Some(Sq(1, 4));
    g.Click(3, 4);
    assert g.turn == White && g.board[3, 4] == Some(Piece(Black, Pawn));
    assert g.board[6, 4] == None;
    assert g.board[7, 5] == Some(Piece(White, Bishop)) && g.board[5, 3] == None && g.board[4, 2] == None;

    g.Click(7, 5);
    assert g.selected == Some(Sq(7, 5));
    forall k | 0 < k < 3
      ensures EmptyAt(g.board, Toward(Sq(7, 5), Sq(4, 2), k))
    {
      if k == 1 {
        assert Toward(Sq(7, 5), Sq(4, 2), k) == Sq(6, 4);
      } else {
        assert Toward(Sq(7, 5), Sq(4, 2), k) == Sq(5, 3);
      }
    }
    g.Click(4, 2);
    assert g.turn == Black && g.board[4, 2] == Some(Piece(White, Bishop));
  }
}
