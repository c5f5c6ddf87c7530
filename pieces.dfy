/** Pieces and their string tags.
    A piece on the board is written as "<kind>_<colour>", for example "p_white" or "k_black";
    an empty square holds nothing (`None`). */
module Pieces {

  datatype Option<+T> = None | Some(value: T)

  datatype Colour = White | Black

  datatype Kind = Pawn | Knight | Bishop | Rook | Queen | King

  datatype Piece = Piece(kind: Kind, colour: Colour)

  /** The other side. */
  function Opponent(c: Colour): (o: Colour)
    ensures o != c
  {
    if c == White then Black else White
  }

  /** The name the game uses for a side: the suffix of a tag and the key of the clock table. */
  function ColourName(c: Colour): string
  {
    match c
    case White => "white"
    case Black => "black"
  }

  /** The one-letter prefix of a tag. */
  function KindLetter(k: Kind): char
  {
    match k
    case Pawn => 'p'
    case Knight => 'n'
    case Bishop => 'b'
    case Rook => 'r'
    case Queen => 'q'
    case King => 'k'
  }

  /** The tag of a piece, "<letter>_<colour name>". */
  function Tag(p: Piece): string
  {
    [KindLetter(p.kind), '_'] + ColourName(p.colour)
  }

  /** The tag of a square: `None` for an empty square. */
  function CellTag(cell: Option<Piece>): (t: Option<string>)
    ensures t.None? <==> cell.None?
  {
    match cell
    case None => None
    case Some(p) => Some(Tag(p))
  }

  function ParseKind(ch: char): (k: Option<Kind>)
    ensures k.Some? ==> KindLetter(k.value) == ch
  {
    match ch
    case 'p' => Some(Pawn)
    case 'n' => Some(Knight)
    case 'b' => Some(Bishop)
    case 'r' => Some(Rook)
    case 'q' => Some(Queen)
    case 'k' => Some(King)
    case _ => None
  }

  function ParseColour(s: string): (c: Option<Colour>)
    ensures c.Some? ==> ColourName(c.value) == s
  {
    if s == "white" then Some(White)
    else if s == "black" then Some(Black)
    else None
  }

  /** Reads a tag back into a piece; `None` for any string that is not the tag of a piece. */
  function ParseTag(s: string): Option<Piece>
  {
    if |s| < 2 || s[1] != '_' then None
    else match (ParseKind(s[0]), ParseColour(s[2..]))
      case (Some(k), Some(c)) => Some(Piece(k, c))
      case _ => None
  }

  /** Every tag reads back as the piece it was made from. */
  lemma TagRoundTrip(p: Piece)
    ensures ParseTag(Tag(p)) == Some(p)
  {
  }

  /** A string that reads as a piece is exactly that piece's tag. */
  lemma ParseTagExact(s: string, p: Piece)
    requires ParseTag(s) == Some(p)
    ensures Tag(p) == s
  {
  }

  /** Two pieces share a tag exactly when they are the same piece, so a tag names one piece. */
  lemma TagInjective(p: Piece, q: Piece)
    ensures Tag(p) == Tag(q) <==> p == q
  {
    if Tag(p) == Tag(q) {
      TagRoundTrip(p);
      TagRoundTrip(q);
    }
  }

  /** The six white tags. */
  lemma WhiteTags()
    ensures Tag(Piece(Pawn, White)) == "p_white"
    ensures Tag(Piece(Knight, White)) == "n_white"
    ensures Tag(Piece(Bishop, White)) == "b_white"
    ensures Tag(Piece(Rook, White)) == "r_white"
    ensures Tag(Piece(Queen, White)) == "q_white"
    ensures Tag(Piece(King, White)) == "k_white"
  {
  }

  /** The six black tags. */
  lemma BlackTags()
    ensures Tag(Piece(Pawn, Black)) == "p_black"
    ensures Tag(Piece(Knight, Black)) == "n_black"
    ensures Tag(Piece(Bishop, Black)) == "b_black"
    ensures Tag(Piece(Rook, Black)) == "r_black"
    ensures Tag(Piece(Queen, Black)) == "q_black"
    ensures Tag(Piece(King, Black)) == "k_black"
  {
  }
}
