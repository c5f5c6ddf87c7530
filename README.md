# Chess game object and opening board

This project models the game object of a small Tk chess program (`chess.py`, class
`Chess`). The model covers two things:

- the state its constructor sets up: the time limit, the clock table, whose turn it is, the selected piece, the running flag and the board;
- the board builder `_initialize_board`.

The board builder first allocates an 8 x 8 grid of empty squares. It then fills the grid in
place, in this order:

1. white pawns on row 6;
2. White's back rank on row 7;
3. black pawns on row 1;
4. Black's back rank on row 0.

Each back rank reads rook, knight, bishop, queen, king, bishop, knight, rook. Each piece is
the string tag `"<kind>_<colour>"`, for example `"p_white"` or `"k_black"`. An empty square
is `None`.

The project has three modules:

- `Pieces` (`pieces.dfy`): the piece as a value, `Piece(kind, colour)`. `Tag` renders it as the program's string tag. `ParseTag` reads a tag back, so each tag names one piece, and `CellTag` renders a square. `WhiteTags` and `BlackTags` spell out the twelve tags.
- `Position` (`position.dfy`): the opening position as a reference value. `StartCell(r, c)` gives one square. `StartingGrid()` gives the whole board as 8 rows of 8 squares. The module proves what the opening position promises:
  - the pawn ranks and the back ranks, spelled as tags;
  - the empty middle rows;
  - one king per side, each on its own square;
  - colour mirror symmetry;
  - the counts: 16 pieces per side, 32 occupied squares, and 8/2/2/2/1/1 pawns, knights, bishops, rooks, queens and kings per side.
- `Game` (`chess.dfy`): class `Chess` with the fields the constructor sets. The board is an `array2`. `InitializeBoard` fills it with the same two loops and the same indexed writes as the original, and is proved to leave exactly `StartCell(r, c)` on every square. The constructor is proved to leave the opening position in `board`, and:
  - both clocks at the time limit;
  - White to move;
  - nothing selected;
  - the game running.

`InitializeBoard` is a `static` method: the original never reads `self` in it, and the
constructor needs its result before the object exists. The original writes each back rank as
its own run of five assignments (rows 7 and 0). The model writes both runs through the one
helper `PlaceBackRank`, called with row 7 and White, then row 0 and Black, so that each run is
proved on its own.

The original's clock table is keyed by the strings `"white"` and `"black"`. Its current player is the string `"white"`. The model uses the `Colour` datatype both for the clock table's keys and for the current player; `ColourName` gives the string, and the constructor states `ColourName(currentPlayer) == "white"`.

`chess.py` has no move generation, check detection, castling, en passant, promotion or end-of-game detection; the model covers only what that file does.

## Model

| member | source | states |
|---|---|---|
| Pieces.TagRoundTrip | chess.py:18-31 | reading the tag of any piece gives back that same piece |
| Pieces.ParseTagExact | chess.py:18-31 | a string that reads as a piece is exactly that piece's tag |
| Pieces.TagInjective | chess.py:18-31 | two pieces have the same tag if and only if they are the same piece |
| Pieces.WhiteTags | chess.py:18-23 | the six white pieces are tagged "p_white", "n_white", "b_white", "r_white", "q_white" and "k_white" |
| Pieces.BlackTags | chess.py:26-31 | the six black pieces are tagged "p_black", "n_black", "b_black", "r_black", "q_black" and "k_black" |
| Pieces.Tag | chess.py:18-31 | the tag of a piece: its kind letter, an underscore, then "white" or "black" |
| Position.StartCell | chess.py:15-31 | what the opening position holds on each square: the reference the lemmas below are about |
| Position.PawnRanks | chess.py:17-26 | every square of row 6 holds "p_white" and every square of row 1 holds "p_black" |
| Position.BackRanks | chess.py:19-31 | row 7 reads r, n, b, q, k, b, n, r with suffix "_white"; row 0 reads the same kinds with suffix "_black"; in particular (0,1) is "n_black" and (7,2) is "b_white", as the tests expect |
| Position.EmptyMiddle | chess.py:15-31 | a square is empty exactly when its row is 2 to 5; rows 0, 1, 6 and 7 are full |
| Position.OneKingEach | chess.py:23-31 | "k_white" stands at (7,4) and on no other square; "k_black" stands at (0,4) and on no other square |
| Position.MirrorSymmetry | chess.py:17-31 | square (7-r, c) holds the piece at (r, c) with its colour exchanged; (r, c) holds a white piece of kind k if and only if (7-r, c) holds a black piece of kind k |
| Position.SixteenEach | chess.py:17-31 | each side has exactly 16 pieces on the opening board |
| Position.ThirtyTwoOccupied | chess.py:15-31 | exactly 32 squares of the opening board are occupied |
| Position.BackRankKinds | chess.py:19-23 | a back rank holds no pawn, two rooks, two knights, two bishops, one queen and one king |
| Position.PieceCounts | chess.py:17-31 | each side has exactly 8 pawns, 2 knights, 2 bishops, 2 rooks, 1 queen and 1 king; so each colour has one king |
| Game.Chess.InitializeBoard | chess.py:14-33 | returns a newly allocated buffer of exactly 8 rows of 8 squares (the allocation of line 15), whose square (r, c) is `StartCell(r, c)` for every square; the loop invariants track every square after each column of pawns |
| Game.Chess.PlaceBackRank | chess.py:19-31 | writes rook, knight, bishop, queen, king, bishop, knight, rook of one side into one row and leaves every other square as it was |
| Game.Chess.constructor | chess.py:4-12 | `timeLimit` is the argument (180 when none is given); both clock entries equal it; the current player is White ("white"); nothing is selected; the game is running; the board is a fresh buffer holding `StartCell(r, c)` on every square |

## Left out

- The Tk window (`tk.Tk()` and its title) is presentation only, so it is not modelled.
- Clocks are not modelled as running. `player_time` is only assigned in this code and never counts down here.
- The game methods the accompanying tests call are not in `chess.py`, so there is no code to model them against: move generation, rook and bishop validation, making a move, attack detection, mate and stalemate detection, the `PieceNotOnBoard` error, `path` and the settings dialog.
- The tests expect a default time limit of 600 and empty squares written `"No_piece"`. The code uses 180 and `None`, and the model follows the code.
- Python attributes are untyped. The model types `time_limit` as an integer and `selected_piece` as an optional piece; this code only ever sets `selected_piece` to `None`.
