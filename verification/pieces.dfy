/** Colours, roles and the six pieces of Tak (`Role`, `Piece` and `Color` in board.rs). */
module Pieces {

  datatype Color = White | Black {
    /** `!color` */
    function Opposite(): (r: Color)
      ensures r != this
    {
      if this == White then Black else White
    }

    /** `Color::multiplier`: +1 for white, -1 for black. */
    function Multiplier(): (r: int)
      ensures r == 1 || r == -1
      ensures (r == 1) <==> this == White
    {
      if this == White then 1 else -1
    }
  }

  datatype Role = Flat | Wall | Cap

  datatype Piece = WhiteFlat | BlackFlat | WhiteWall | BlackWall | WhiteCap | BlackCap {

    function Role(): Role
    {
      match this
      case WhiteFlat | BlackFlat => Flat
      case WhiteWall | BlackWall => Wall
      case WhiteCap | BlackCap => Cap
    }

    function Color(): Color
    {
      match this
      case WhiteFlat | WhiteWall | WhiteCap => White
      case BlackFlat | BlackWall | BlackCap => Black
    }

    /** Flats and capstones count towards roads; walls do not. */
    predicate IsRoadPiece()
    {
      this == WhiteFlat || this == WhiteCap || this == BlackFlat || this == BlackCap
    }

    function FlipColor(): (r: Piece)
      ensures r.Role() == Role() && r.Color() == Color().Opposite()
    {
      match this
      case WhiteFlat => BlackFlat
      case BlackFlat => WhiteFlat
      case WhiteWall => BlackWall
      case BlackWall => WhiteWall
      case WhiteCap => BlackCap
      case BlackCap => WhiteCap
    }

    /** The discriminant used to index the per-piece zobrist keys. */
    function Index(): (r: nat)
      ensures r < 6
    {
      match this
      case WhiteFlat => 0
      case BlackFlat => 1
      case WhiteWall => 2
      case BlackWall => 3
      case WhiteCap => 4
      case BlackCap => 5
    }
  }

  function FromRoleColor(role: Role, color: Color): (r: Piece)
    ensures r.Role() == role && r.Color() == color
  {
    match (role, color)
    case (Flat, White) => WhiteFlat
    case (Wall, White) => WhiteWall
    case (Cap, White) => WhiteCap
    case (Flat, Black) => BlackFlat
    case (Wall, Black) => BlackWall
    case (Cap, Black) => BlackCap
  }

  /** A piece is determined by its role and colour, so `from_role_color` inverts `role`/`color`. */
  lemma FromRoleColorOfPiece(p: Piece)
    ensures FromRoleColor(p.Role(), p.Color()) == p
  {
  }

  lemma RoadPieceIsFlatOrCap(p: Piece)
    ensures p.IsRoadPiece() <==> p.Role() != Wall
  {
  }

  lemma FlipColorInvolution(p: Piece)
    ensures p.FlipColor().FlipColor() == p
  {
  }
}
