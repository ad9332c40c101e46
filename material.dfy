/** `calcular_material` (main.py): the material a player still has on the board. */
module Material {
  import opened Wrappers
  import opened Chess

  /** Value of a piece kind: pawn 1, knight 3, bishop 3, rook 5, queen 9; the
      king is never counted. */
  function PieceValue(k: Kind): (v: nat)
    ensures v == 0 <==> k == King
    ensures v <= 9
  {
    match k
    case Pawn => 1
    case Knight => 3
    case Bishop => 3
    case Rook => 5
    case Queen => 9
    case King => 0
  }

  /** What one square adds to `colour`'s material. */
  function SquarePoints(square: Option<Piece>, colour: Color): (p: nat)
    ensures p > 0 <==> square.Some? && square.value.color == colour && square.value.kind != King
    ensures p > 0 ==> p == PieceValue(square.value.kind)
    ensures p <= 9
  {
    if square.Some? && square.value.color == colour && square.value.kind != King
    then PieceValue(square.value.kind)
    else 0
  }

  /** Material of `colour` over a run of squares, summed from the first; at
      most a queen's worth per square. */
  function MaterialOf(squares: seq<Option<Piece>>, colour: Color): (m: nat)
    ensures m <= 9 * |squares|
  {
    if squares == [] then 0
    else MaterialOf(squares[..|squares| - 1], colour) + SquarePoints(squares[|squares| - 1], colour)
  }

  /** The colour a player plays: white when `whitePlayer`. */
  function PlayerColor(whitePlayer: bool): Color {
    if whitePlayer then White else Black
  }

  /** `calcular_material`: walks the 64 squares and adds the value of every
      non-king piece of the player's colour. */
  method CountMaterial(board: Board, whitePlayer: bool) returns (points: nat)
    ensures points == MaterialOf(board, PlayerColor(whitePlayer))
  {
    var colour := if whitePlayer then White else Black;
    points := 0;
    var square := 0;
    while square < 64
      invariant 0 <= square <= 64
      invariant points == MaterialOf(board[..square], colour)
    {
      var piece := board[square];
      if piece.Some? && piece.value.color == colour && piece.value.kind != King {
        points := points + PieceValue(piece.value.kind);
      }
      assert board[..square + 1][..square] == board[..square];
      square := square + 1;
    }
    assert board[..64] == board;
  }

  /** Replacing the occupant of one square changes the material by exactly the
      difference of what the old and the new occupant are worth to `colour`. */
  lemma {:induction false} MaterialUpdate(squares: seq<Option<Piece>>, i: nat, x: Option<Piece>, colour: Color)
    requires i < |squares|
    ensures MaterialOf(squares[i := x], colour) + SquarePoints(squares[i], colour)
            == MaterialOf(squares, colour) + SquarePoints(x, colour)
  {
    var n := |squares| - 1;
    var updated := squares[i := x];
    if i == n {
      assert updated[..n] == squares[..n];
    } else {
      assert updated[..n] == squares[..n][i := x];
      MaterialUpdate(squares[..n], i, x, colour);
    }
  }

  /** Putting a non-king piece of `colour` on an empty square raises its
      material by that piece's value. */
  lemma PlaceOwnPiece(board: Board, i: nat, p: Piece)
    requires i < 64 && board[i] == None
    requires p.kind != King
    ensures MaterialOf(board[i := Some(p)], p.color) == MaterialOf(board, p.color) + PieceValue(p.kind)
  {
    MaterialUpdate(board, i, Some(p), p.color);
  }

  /** Kings and the opponent's pieces never change a player's material. */
  lemma PlaceUncountedPiece(board: Board, i: nat, p: Piece, colour: Color)
    requires i < 64 && board[i] == None
    requires p.color != colour || p.kind == King
    ensures MaterialOf(board[i := Some(p)], colour) == MaterialOf(board, colour)
  {
    MaterialUpdate(board, i, Some(p), colour);
  }

  lemma {:induction false} MaterialConcat(a: seq<Option<Piece>>, b: seq<Option<Piece>>, colour: Color)
    ensures MaterialOf(a + b, colour) == MaterialOf(a, colour) + MaterialOf(b, colour)
  {
    if b == [] {
      assert a + b == a;
    } else {
      var n := |b| - 1;
      assert (a + b)[..|a + b| - 1] == a + b[..n];
      MaterialConcat(a, b[..n], colour);
    }
  }

  /** Eight squares of a back rank: rook, knight, bishop, queen, king, bishop, knight, rook. */
  function BackRank(colour: Color): seq<Option<Piece>> {
    [Some(Piece(Rook, colour)), Some(Piece(Knight, colour)), Some(Piece(Bishop, colour)), Some(Piece(Queen, colour)),
     Some(Piece(King, colour)), Some(Piece(Bishop, colour)), Some(Piece(Knight, colour)), Some(Piece(Rook, colour))]
  }

  function PawnRank(colour: Color): seq<Option<Piece>> {
    seq(8, _ => Some(Piece(Pawn, colour)))
  }


  /** The standard starting position, rank 1 first. */
  function StartingBoard(): Board {
    BackRank(White) + PawnRank(White) + EmptySquares(32) + PawnRank(Black) + BackRank(Black)
  }

  function EmptySquares(n: nat): seq<Option<Piece>> {
    seq(n, _ => None)
  }

  lemma {:induction false} EmptyHasNoMaterial(n: nat, colour: Color)
    ensures MaterialOf(EmptySquares(n), colour) == 0
  {
    if n > 0 {
      assert EmptySquares(n)[..n - 1] == EmptySquares(n - 1);
      EmptyHasNoMaterial(n - 1, colour);
    }
  }

  lemma {:induction false} PawnsMaterial(n: nat, pawnColour: Color, colour: Color)
    ensures MaterialOf(seq(n, _ => Some(Piece(Pawn, pawnColour))), colour) == if pawnColour == colour then n else 0
  {
    if n > 0 {
      assert seq(n, _ => Some(Piece(Pawn, pawnColour)))[..n - 1] == seq(n - 1, _ => Some(Piece(Pawn, pawnColour)));
      PawnsMaterial(n - 1, pawnColour, colour);
    }
  }

  /** Adding the squares of a run one at a time. */
  lemma MaterialPrefixStep(squares: seq<Option<Piece>>, k: nat, colour: Color)
    requires k < |squares|
    ensures MaterialOf(squares[..k + 1], colour) == MaterialOf(squares[..k], colour) + SquarePoints(squares[k], colour)
  {
    assert squares[..k + 1][..k] == squares[..k];
  }

  /** The material of four squares, one at a time. */
  lemma FourSquares(r: seq<Option<Piece>>, colour: Color)
    requires |r| == 4
    ensures MaterialOf(r, colour) == SquarePoints(r[0], colour) + SquarePoints(r[1], colour)
                                     + SquarePoints(r[2], colour) + SquarePoints(r[3], colour)
  {
    assert r[..0] == [];
    MaterialPrefixStep(r, 0, colour);
    MaterialPrefixStep(r, 1, colour);
    MaterialPrefixStep(r, 2, colour);
    MaterialPrefixStep(r, 3, colour);
    assert r[..4] == r;
  }

  lemma BackRankMaterial(rankColour: Color, colour: Color)
    ensures MaterialOf(BackRank(rankColour), colour) == if rankColour == colour then 31 else 0
  {
    var r := BackRank(rankColour);
    assert r == r[..4] + r[4..];
    MaterialConcat(r[..4], r[4..], colour);
    FourSquares(r[..4], colour);
    FourSquares(r[4..], colour);
  }

  /** Each side starts with 39 points of material: eight pawns, two knights,
      two bishops, two rooks and a queen. */
  lemma StartingMaterial(colour: Color)
    ensures MaterialOf(StartingBoard(), colour) == 39
  {
    var w1, w2, e, b2, b1 := BackRank(White), PawnRank(White), EmptySquares(32), PawnRank(Black), BackRank(Black);
    MaterialConcat(w1, w2, colour);
    MaterialConcat(w1 + w2, e, colour);
    MaterialConcat(w1 + w2 + e, b2, colour);
    MaterialConcat(w1 + w2 + e + b2, b1, colour);
    BackRankMaterial(White, colour);
    BackRankMaterial(Black, colour);
    PawnsMaterial(8, White, colour);
    PawnsMaterial(8, Black, colour);
    EmptyHasNoMaterial(32, colour);
  }
}
