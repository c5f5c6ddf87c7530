/** The standard opening position as a value, and what it promises: the shape of the
    board, the pawn ranks, the back ranks, the empty middle, one king per side, colour
    mirror symmetry and the piece counts. */
module Position {
  import opened Pieces

  /** A board read row by row: row 0 is Black's back rank, row 7 White's. */
  type Grid = seq<seq<Option<Piece>>>

  /** The order of the pieces on a back rank, from column 0 to column 7. */
  const BackRank: seq<Kind> := [Rook, Knight, Bishop, Queen, King, Bishop, Knight, Rook]

  predicate OnBoard(r: int, c: int)
  {
    0 <= r < 8 && 0 <= c < 8
  }

  /** What the opening position holds at row `r`, column `c`. */
  function StartCell(r: int, c: int): Option<Piece>
    requires OnBoard(r, c)
  {
    if r == 0 then Some(Piece(BackRank[c], Black))
    else if r == 1 then Some(Piece(Pawn, Black))
    else if r == 6 then Some(Piece(Pawn, White))
    else if r == 7 then Some(Piece(BackRank[c], White))
    else None
  }

  /** The opening position as eight rows of eight squares. */
  function StartingGrid(): (g: Grid)
    ensures |g| == 8
    ensures forall r :: 0 <= r < 8 ==> |g[r]| == 8
    ensures forall r, c :: OnBoard(r, c) ==> g[r][c] == StartCell(r, c)
  {
    seq(8, r requires 0 <= r < 8 => seq(8, c requires 0 <= c < 8 => StartCell(r, c)))
  }

  /** The same square with the colours exchanged. */
  function Mirrored(cell: Option<Piece>): (m: Option<Piece>)
    ensures m.None? <==> cell.None?
    ensures m.Some? ==> m.value.kind == cell.value.kind && m.value.colour == Opponent(cell.value.colour)
  {
    match cell
    case None => None
    case Some(p) => Some(Piece(p.kind, Opponent(p.colour)))
  }

  // ---------------------------------------------------------------------------
  // Where each piece stands

  /** Row 6 is all white pawns and row 1 all black pawns. */
  lemma PawnRanks(c: int)
    requires 0 <= c < 8
    ensures CellTag(StartCell(6, c)) == Some("p_white")
    ensures CellTag(StartCell(1, c)) == Some("p_black")
  {
    assert StartCell(6, c) == Some(Piece(Pawn, White));
    assert StartCell(1, c) == Some(Piece(Pawn, Black));
    WhiteTags();
    BlackTags();
  }

  /** Row 7 reads r, n, b, q, k, b, n, r with suffix "_white", and row 0 the same kinds with
      suffix "_black". */
  lemma BackRanks()
    ensures seq(8, c requires 0 <= c < 8 => CellTag(StartCell(7, c))) ==
      [Some("r_white"), Some("n_white"), Some("b_white"), Some("q_white"),
       Some("k_white"), Some("b_white"), Some("n_white"), Some("r_white")]
    ensures seq(8, c requires 0 <= c < 8 => CellTag(StartCell(0, c))) ==
      [Some("r_black"), Some("n_black"), Some("b_black"), Some("q_black"),
       Some("k_black"), Some("b_black"), Some("n_black"), Some("r_black")]
    ensures CellTag(StartCell(0, 1)) == Some("n_black")
    ensures CellTag(StartCell(7, 2)) == Some("b_white")
  {
    WhiteTags();
    BlackTags();
  }

  /** Rows 2 to 5 are empty, and every other row is full. */
  lemma EmptyMiddle(r: int, c: int)
    requires OnBoard(r, c)
    ensures StartCell(r, c).None? <==> 2 <= r <= 5
  {
  }

  /** Each side has one king: White's only at (7, 4), Black's only at (0, 4). */
  lemma OneKingEach(r: int, c: int)
    requires OnBoard(r, c)
    ensures StartCell(r, c) == Some(Piece(King, White)) <==> r == 7 && c == 4
    ensures StartCell(r, c) == Some(Piece(King, Black)) <==> r == 0 && c == 4
  {
  }

  /** Colour mirror symmetry: the square (7 - r, c) holds the piece at (r, c) with its colour
      exchanged, so (r, c) holds a white piece of kind k exactly when (7 - r, c) holds a black one. */
  lemma MirrorSymmetry(r: int, c: int, k: Kind)
    requires OnBoard(r, c)
    ensures StartCell(7 - r, c) == Mirrored(StartCell(r, c))
    ensures StartCell(r, c) == Some(Piece(k, White)) <==> StartCell(7 - r, c) == Some(Piece(k, Black))
  {
  }

  // ---------------------------------------------------------------------------
  // Counting squares

  /** Which squares to count. */
  datatype Query = OfColour(colour: Colour) | Exactly(piece: Piece) | Occupied

  predicate Matches(q: Query, cell: Option<Piece>)
  {
    match q
    case OfColour(colour) => cell.Some? && cell.value.colour == colour
    case Exactly(p) => cell == Some(p)
    case Occupied => cell.Some?
  }

  /** The number of squares of `cells` that `q` selects. */
  function Count(cells: seq<Option<Piece>>, q: Query): (n: nat)
    ensures n <= |cells|
    ensures n == |cells| ==> forall i :: 0 <= i < |cells| ==> Matches(q, cells[i])
  {
    if cells == [] then 0
    else (if Matches(q, cells[0]) then 1 else 0) + Count(cells[1..], q)
  }

  /** The number of squares of the whole board that `q` selects. */
  function CountGrid(g: Grid, q: Query): nat
  {
    if g == [] then 0 else Count(g[0], q) + CountGrid(g[1..], q)
  }

  lemma {:induction false} CountNone(cells: seq<Option<Piece>>, q: Query)
    requires forall i :: 0 <= i < |cells| ==> !Matches(q, cells[i])
    ensures Count(cells, q) == 0
  {
    if cells != [] {
      CountNone(cells[1..], q);
    }
  }

  lemma {:induction false} CountAll(cells: seq<Option<Piece>>, q: Query)
    requires forall i :: 0 <= i < |cells| ==> Matches(q, cells[i])
    ensures Count(cells, q) == |cells|
  {
    if cells != [] {
      CountAll(cells[1..], q);
    }
  }

  /** A board whose rows all count zero counts zero. */
  lemma {:induction false} CountGridZero(g: Grid, q: Query)
    requires forall r :: 0 <= r < |g| ==> Count(g[r], q) == 0
    ensures CountGrid(g, q) == 0
  {
    if g != [] {
      CountGridZero(g[1..], q);
    }
  }

  /** A board whose rows count zero except row `i` counts what row `i` counts. */
  lemma {:induction false} CountGridOne(g: Grid, q: Query, i: int)
    requires 0 <= i < |g|
    requires forall r :: 0 <= r < |g| && r != i ==> Count(g[r], q) == 0
    ensures CountGrid(g, q) == Count(g[i], q)
  {
    if i == 0 {
      CountGridZero(g[1..], q);
    } else {
      CountGridOne(g[1..], q, i - 1);
    }
  }

  /** A board whose rows count zero except rows `i` and `j` counts what those two rows count. */
  lemma {:induction false} CountGridTwo(g: Grid, q: Query, i: int, j: int)
    requires 0 <= i < j < |g|
    requires forall r :: 0 <= r < |g| && r != i && r != j ==> Count(g[r], q) == 0
    ensures CountGrid(g, q) == Count(g[i], q) + Count(g[j], q)
  {
    if i == 0 {
      CountGridOne(g[1..], q, j - 1);
    } else {
      CountGridTwo(g[1..], q, i - 1, j - 1);
    }
  }

  /** Every occupied square holds a white or a black piece. */
  lemma {:induction false} OccupiedByColour(cells: seq<Option<Piece>>)
    ensures Count(cells, Occupied) == Count(cells, OfColour(White)) + Count(cells, OfColour(Black))
  {
    if cells != [] {
      OccupiedByColour(cells[1..]);
    }
  }

  lemma {:induction false} OccupiedGridByColour(g: Grid)
    ensures CountGrid(g, Occupied) == CountGrid(g, OfColour(White)) + CountGrid(g, OfColour(Black))
  {
    if g != [] {
      OccupiedByColour(g[0]);
      OccupiedGridByColour(g[1..]);
    }
  }

  /** Counting the back rank of one side for one kind gives the number of times that kind
      appears in `BackRank`. */
  lemma {:induction false} CountBackRank(ks: seq<Kind>, row: seq<Option<Piece>>, side: Colour, k: Kind)
    requires |row| == |ks|
    requires forall i :: 0 <= i < |ks| ==> row[i] == Some(Piece(ks[i], side))
    ensures Count(row, Exactly(Piece(k, side))) == multiset(ks)[k]
  {
    if ks != [] {
      CountBackRank(ks[1..], row[1..], side, k);
      assert ks == [ks[0]] + ks[1..];
    }
  }

  /** What each row of the opening position holds, by colour. */
  lemma RowColours(r: int)
    requires 0 <= r < 8
    ensures |StartingGrid()[r]| == 8
    ensures r < 2 ==> forall c :: 0 <= c < 8 ==> Matches(OfColour(Black), StartingGrid()[r][c])
    ensures 2 <= r < 6 ==> forall c :: 0 <= c < 8 ==> StartingGrid()[r][c].None?
    ensures 6 <= r ==> forall c :: 0 <= c < 8 ==> Matches(OfColour(White), StartingGrid()[r][c])
  {
  }

  /** The row of a side's back rank and the row of its pawns. */
  function HomeRow(side: Colour): int { if side == White then 7 else 0 }
  function PawnRow(side: Colour): int { if side == White then 6 else 1 }

  /** Row `r` of the opening position holds eight pieces of `side` if it is one of that
      side's two rows, and none otherwise. */
  lemma RowColourCount(r: int, side: Colour)
    requires 0 <= r < 8
    ensures Count(StartingGrid()[r], OfColour(side)) ==
      if r == HomeRow(side) || r == PawnRow(side) then 8 else 0
  {
    RowColours(r);
    if r == HomeRow(side) || r == PawnRow(side) {
      CountAll(StartingGrid()[r], OfColour(side));
    } else {
      CountNone(StartingGrid()[r], OfColour(side));
    }
  }

  /** Each side has sixteen pieces. */
  lemma SixteenEach(side: Colour)
    ensures CountGrid(StartingGrid(), OfColour(side)) == 16
  {
    var g := StartingGrid();
    forall r | 0 <= r < 8 && r != HomeRow(side) && r != PawnRow(side)
      ensures Count(g[r], OfColour(side)) == 0
    {
      RowColourCount(r, side);
    }
    RowColourCount(HomeRow(side), side);
    RowColourCount(PawnRow(side), side);
    if side == White {
      CountGridTwo(g, OfColour(side), PawnRow(side), HomeRow(side));
    } else {
      CountGridTwo(g, OfColour(side), HomeRow(side), PawnRow(side));
    }
  }

  /** 32 squares are occupied at the start. */
  lemma ThirtyTwoOccupied()
    ensures CountGrid(StartingGrid(), Occupied) == 32
  {
    OccupiedGridByColour(StartingGrid());
    SixteenEach(White);
    SixteenEach(Black);
  }

  /** How many pieces of a kind each side starts with. */
  function StandardCount(k: Kind): nat
  {
    match k
    case Pawn => 8
    case Knight => 2
    case Bishop => 2
    case Rook => 2
    case Queen => 1
    case King => 1
  }

  /** A back rank holds no pawn and the standard number of every other kind. */
  lemma BackRankKinds(k: Kind)
    ensures multiset(BackRank)[k] == if k == Pawn then 0 else StandardCount(k)
  {
  }

  /** How many copies of one piece each row of the opening position holds. */
  lemma {:induction false} RowPieceCount(r: int, k: Kind, side: Colour)
    requires 0 <= r < 8
    ensures Count(StartingGrid()[r], Exactly(Piece(k, side))) ==
      if r == HomeRow(side) then (if k == Pawn then 0 else StandardCount(k))
      else if r == PawnRow(side) && k == Pawn then 8
      else 0
  {
    var row := StartingGrid()[r];
    var q := Exactly(Piece(k, side));
    if r == HomeRow(side) {
      CountBackRank(BackRank, row, side, k);
      BackRankKinds(k);
    } else if r == PawnRow(side) && k == Pawn {
      CountAll(row, q);
    } else {
      CountNone(row, q);
    }
  }

  /** Each side starts with eight pawns, two rooks, two knights, two bishops, one queen and
      one king; in particular exactly one king of each colour is on the board. */
  lemma PieceCounts(k: Kind, side: Colour)
    ensures CountGrid(StartingGrid(), Exactly(Piece(k, side))) == StandardCount(k)
  {
    var g := StartingGrid();
    var q := Exactly(Piece(k, side));
    forall r | 0 <= r < 8 && r != HomeRow(side) && r != PawnRow(side)
      ensures Count(g[r], q) == 0
    {
      RowPieceCount(r, k, side);
    }
    RowPieceCount(HomeRow(side), k, side);
    RowPieceCount(PawnRow(side), k, side);
    if side == White {
      CountGridTwo(g, q, PawnRow(side), HomeRow(side));
    } else {
      CountGridTwo(g, q, HomeRow(side), PawnRow(side));
    }
  }
}
