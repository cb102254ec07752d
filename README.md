# MiniChess move engine in Dafny

A model of the logic of MiniChess, a two-player chess board played with the
mouse (`main.py`). The model covers three parts:

- **Move legality**: `Piece.is_valid_move` and `Piece.clear_path`.
  - A move onto a piece of the mover's own colour is always refused.
  - Pawns step forward onto empty squares, one square, or two from their home row.
  - Pawns capture one square diagonally forward.
  - Rooks, bishops and queens slide along unobstructed lines.
  - Knights and kings jump to fixed offsets.
- **The starting position**: `create_board`.
- **The click handler of the game loop**:
  - A first click selects a piece of the side to move.
  - A second click tries to move it there.
  - A legal move overwrites the destination, empties the source and passes the turn.
  - The selection is then dropped, whether or not the piece moved.

Modules, one per concern:

- `Options`: the optional value used for cells and parse results.
- `Pieces`: colours and kinds. Also the two-letter names the game stores on the board (`"wp"`, `"bk"`, …), and parsing them (`Piece.__init__`).
- `Geometry`: squares, the step-by-step walk from one square towards another, and which squares lie strictly between two aligned squares.
- `Board`: the 8×8 `array2` of cells and what stands on a square.
- `Moves`: `IsValidMove` (is_valid_move, a function that only reads the board) and `ClearPath` (clear_path, the `while` loop).
  - `ClearPath` is proved against `PathClear`.
  - Lemmas state each piece rule in its own words.
- `Reach`: a move generator for the same rules, written separately from `IsValidMove`. It uses rays for sliding pieces, offset sets for knight and king, and at most four squares for a pawn. `CheckMatchesGenerator` proves that the move check and the generator agree.
- `Setup`: `CreateBoard` fills an 8×8 array with loops, like create_board. It is proved equal to `InitialCell`, which is checked against the piece names the source writes out.
- `Turns`: class `Game` holding `board`, `turn` and `selected`.
  - `Click` is the body of the mouse-button branch, taking the clicked square as (row, col).
  - `OpeningSequence` is a verified client that plays a short opening through clicks.

Some behaviours are kept as the code has them:

- **Zero-length slides.** The rook's shape test is an inclusive "or" (main.py:59). The bishop's test `|dx| == |dy|` also holds for no move at all. The walk of clear_path ends before it starts when `start == end`. So rook, bishop and queen accept a zero-length move whenever no piece of their own colour stands on the square (`ZeroLengthSlide`). When the mover really stands on `start`, the self-capture test refuses the move. The game only ever calls the check in that situation.
- **Selection on an empty square.** The click handler keeps the selection when the selected square turns out to be empty. The model has this branch too. `Game.Click` preserves `SelectionHeld` (the selected square holds a piece of the side to move), so the branch is never taken in play.

## Model

| member | source | states |
|---|---|---|
| `Pieces.FromName` | main.py:19-22 | A name yields a piece exactly when it has at least two letters, the first naming a colour (w/b) and the second a kind (p r n b q k). The piece's own name is then the name's first two letters. |
| `Pieces.NameRoundTrip` | main.py:19-22 | Parsing a piece's name gives back that piece. |
| `Pieces.NamesDistinct` | main.py:19-22 | Two pieces have the same name exactly when they are the same piece. |
| `Moves.UnitStep` | main.py:86-87 | The step of clear_path (the delta floor-divided by its size, or 0) is the sign of the delta. |
| `Moves.ClearPath` | main.py:78-94 | The loop returns true exactly when every square the walk visits before `end` is empty. It terminates for aligned squares and changes nothing. |
| `Geometry.WalkReachesEnd` | main.py:88-89 | The walk towards an aligned `end` reaches it after exactly Distance steps, never earlier, and stays on the board. So the loop exits. |
| `Geometry.BetweenIsWalk` | main.py:86-93 | The squares strictly between aligned `start` and `end` are exactly the squares the walk visits before `end`. |
| `Moves.PathClearMeansBetweenEmpty` | main.py:84-94 | For aligned squares, the path is clear exactly when every square strictly between start and end is empty. |
| `Moves.PathClearSkipsEnd` | main.py:88-94 | Path clearance never depends on the square `end` itself. |
| `Moves.IsValidMove` | main.py:24-76 | A legal move never lands on a piece of the mover's own colour. When the mover stands on `start`, a legal move has `end != start`. |
| `Moves.SlidingRule` | main.py:58-68 | A rook, bishop or queen move is legal exactly when its shape holds, the destination holds no own piece, and every square strictly between is empty. Rook: same row or column. Bishop: equal deltas in size. Queen: either. |
| `Moves.ZeroLengthSlide` | main.py:33-94 | A zero-length rook, bishop or queen move is legal exactly when no piece of the mover's colour stands on the square. |
| `Moves.PawnRules` | main.py:38-56 | A pawn move is legal exactly in three cases. One step forward onto an empty square. Two steps from the home row (6 white, 1 black) with both squares empty. One step diagonally forward onto an opposing piece. |
| `Moves.Footprint` | main.py:30-76 | The squares a move's legality can depend on. The destination is always among them; the start square never is, for a real move. For a knight or king the destination is the only one. |
| `Moves.ReadsOnlyFootprint` | main.py:24-94 | Two boards that agree on the footprint give the same legality. So knights and kings look only at the destination, and no piece looks at the square it leaves. |
| `Reach.RayFromMember` | main.py:88-94 | A square is on a sliding ray from step `k` on exactly when it is that many steps out, enterable, and every square before it from step `k` is empty. |
| `Reach.RayMember` | main.py:58-94 | A ray in direction (dr, dc) reaches `e` exactly when (dr, dc) is the step towards `e`, `e` is a different aligned square the mover may enter, and the path is clear. |
| `Reach.SliderAgrees` | main.py:58-68 | For a rook, bishop or queen standing on `start`, legality equals membership in the union of its rays (four orthogonal, four diagonal, or all eight). |
| `Reach.JumperAgrees` | main.py:70-74 | Knight legality equals membership among the eight (±1, ±2)/(±2, ±1) jumps onto squares without an own piece. King legality: the same for the eight neighbours. |
| `Reach.PawnAgrees` | main.py:38-56 | Pawn legality equals membership among the pawn's at most four squares. These are: one forward, two forward from home, and the two forward diagonals holding an opponent. |
| `Reach.CheckMatchesGenerator` | main.py:24-76 | For any piece standing on `start`, the move check accepts `end` exactly when the move generator lists `end`. |
| `Reach.NeverStaysPut` | main.py:33-36 | No piece is ever offered its own square as a destination. |
| `Setup.CreateBoard` | main.py:142-149 | The new 8×8 board holds the initial layout on every square. |
| `Setup.InitialLayoutByName` | main.py:142-149 | The layout spelled in names. Row 0 is `br bn bb bq bk bb bn br`, row 1 all `bp`, row 6 all `wp`, row 7 `wr wn wb wq wk wb wn wr`, and rows 2-5 are empty. |
| `Setup.InitialLayoutMirrored` | main.py:142-149 | Row r of one side is row 7 - r of the other with colours swapped. |
| `Turns.Game.constructor` | main.py:155-158 | The game starts on the initial board, white to move, with nothing selected. |
| `Turns.Game.Click` | main.py:174-188 | A first click selects the square only when it holds a piece of the side to move; otherwise nothing changes. A second click with an empty selected square changes nothing. Otherwise the selection is cleared. A legal move by the side to move puts the piece on the destination and empties the source, leaves every other square alone, and flips the turn once. Any other attempt leaves board and turn unchanged. The selection invariant is preserved. |

## Left out

- Pygame start-up and `load_images` (main.py:5, 97-104): library calls and reading image files.
- `draw_board`, `highlight_square` and `draw_pieces` (main.py:107-139): drawing only.
- The window set-up, the draw-and-poll loop, quitting and `KeyboardInterrupt` handling (main.py:152-169, 191-196): event plumbing and process exit.
- The mapping from mouse pixels to a square (main.py:172-173): `Click` takes the square itself.
- Check, checkmate, castling, en passant, promotion and the end of the game: the code has none of them.
- Pieces.FromName: names whose letters are not w/b and p r n b q k give no piece. The source would build a piece from any two letters, and an unknown kind would be refused by the final `return False` (main.py:76). Only the twelve names ever reach the board, so the model keeps `Kind` to the six kinds and has no such piece. A name shorter than two letters raises IndexError (main.py:21-22); the model returns None instead. A name with an unknown colour letter and a known kind is not refused by the source: main.py:39-40 treat every colour other than "w" as black, so "xp" would move like a black pawn; the model has no such piece.
- Moves.IsValidMove: the squares must be on the board. Python would let a negative index wrap around, but the game only passes on-board squares.
- Moves.ClearPath: requires aligned squares. For other squares the walk never reaches `end` and ends in False or an IndexError; it is only called for aligned ones.
- Setup.CreateBoard: the source replaces rows 0 and 7 by new lists. The model writes the cells of one 8×8 array, so aliasing between rows is not modelled.
- Cells hold a piece value rather than its name string. `Pieces.Name`/`FromName` relate the two.
