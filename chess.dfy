/** The game object: the clock settings, whose turn it is, the current selection, whether
    the game is running, and the board, an 8 x 8 buffer filled in place with the opening
    position. */
module Game {
  import opened Pieces
  import opened Position

  /** The time limit a game gets when none is given. */
  const DefaultTimeLimit: int := 180

  class Chess {
    var timeLimit: int
    /** Time left for each side, keyed by side (the names "white" and "black" in the game). */
    var playerTime: map<Colour, int>
    var currentPlayer: Colour
    /** The piece the player has picked up, if any. */
    var selectedPiece: Option<Piece>
    var gameOnRun: bool
    var board: array2<Option<Piece>>

    /** The board buffer has eight rows of eight squares. */
    ghost predicate Valid()
      reads this
    {
      board.Length0 == 8 && board.Length1 == 8
    }

    /** The board, row by row. */
    ghost function Cells(): Grid
      reads this, board
      requires Valid()
    {
      var a := board;
      seq(8, r requires 0 <= r < 8 reads a => seq(8, c requires 0 <= c < 8 reads a => a[r, c]))
    }

    /** A new game: both clocks at the time limit, White to move, nothing selected, the game
        running, and the board in the opening position. */
    constructor (timeLimit: int := DefaultTimeLimit)
      ensures Valid() && fresh(board)
      ensures this.timeLimit == timeLimit
      ensures playerTime == map[White := timeLimit, Black := timeLimit]
      ensures playerTime[White] == playerTime[Black] == timeLimit
      ensures currentPlayer == White && ColourName(currentPlayer) == "white"
      ensures selectedPiece == None
      ensures gameOnRun
      ensures forall r, c :: OnBoard(r, c) ==> board[r, c] == StartCell(r, c)
      ensures Cells() == StartingGrid()
    {
      this.timeLimit := timeLimit;
      playerTime := map[White := timeLimit, Black := timeLimit];
      currentPlayer := White;
      selectedPiece := None;
      gameOnRun := true;
      var b := InitializeBoard();
      board := b;
      new;
      assert Cells() == StartingGrid() by {
        forall r | 0 <= r < 8 ensures Cells()[r] == StartingGrid()[r] { }
      }
    }

    /** Builds a fresh 8 x 8 board holding the opening position: it starts all empty, then
        row 6 gets white pawns, row 7 White's back rank, row 1 black pawns and row 0 Black's
        back rank. */
    static method InitializeBoard() returns (b: array2<Option<Piece>>)
      ensures fresh(b)
      ensures b.Length0 == 8 && b.Length1 == 8
      ensures forall r, c :: OnBoard(r, c) ==> b[r, c] == StartCell(r, c)
    {
      b := new Option<Piece>[8, 8]((r, c) => None);

      for col := 0 to 8
        invariant forall r, c :: OnBoard(r, c) ==>
          b[r, c] == if r == 6 && c < col then Some(Piece(Pawn, White)) else None
      {
        b[6, col] := Some(Piece(Pawn, White));
      }
      PlaceBackRank(b, 7, White);

      for col := 0 to 8
        invariant forall r, c :: OnBoard(r, c) ==>
          b[r, c] == if r == 1 && c < col then Some(Piece(Pawn, Black))
                     else if r >= 6 then StartCell(r, c)
                     else None
      {
        b[1, col] := Some(Piece(Pawn, Black));
      }
      PlaceBackRank(b, 0, Black);
    }

    /** Writes one side's back rank into row `row`: rooks in the corners, then knights,
        bishops, the queen on column 3 and the king on column 4. Every other square is left
        as it was. */
    static method PlaceBackRank(b: array2<Option<Piece>>, row: int, side: Colour)
      requires b.Length0 == 8 && b.Length1 == 8 && 0 <= row < 8
      modifies b
      ensures forall r, c :: OnBoard(r, c) ==>
        b[r, c] == if r == row then Some(Piece(BackRank[c], side)) else old(b[r, c])
    {
      b[row, 0], b[row, 7] := Some(Piece(Rook, side)), Some(Piece(Rook, side));
      b[row, 1], b[row, 6] := Some(Piece(Knight, side)), Some(Piece(Knight, side));
      b[row, 2], b[row, 5] := Some(Piece(Bishop, side)), Some(Piece(Bishop, side));
      b[row, 3] := Some(Piece(Queen, side));
      b[row, 4] := Some(Piece(King, side));
    }
  }
}
