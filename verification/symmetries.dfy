/**
 * The symmetries of a position (`flip_board_y`, `flip_board_x`, `rotate_board`, `flip_colors`,
 * `symmetries` and `symmetries_with_swapped_colors` in board.rs) as maps on `Position` values.
 * A board map moves every stack to another square and keeps everything else, the hash
 * included; the colour swap flips every piece, swaps the reserves and the side to move, and
 * also keeps the hash of the board it was cloned from. The `Board` methods that build these
 * boards square by square are proved against these maps in board.dfy.
 */
module Symmetries {
  import opened Pieces
  import opened Squares
  import opened Stacks
  import opened Spreads
  import opened Positions
  import opened Seqs

  /** The three ways `flip_board_y`, `flip_board_x` and `rotate_board` rearrange the squares. */
  datatype Symmetry = FlipY | FlipX | Rotate

  /**
   * The square whose stack the map copies to rank `y`, file `x`: `flip_board_y` reads it from
   * rank `s - y - 1`, `flip_board_x` from file `s - x - 1`, and `rotate_board` from rank
   * `s - x - 1`, file `y`.
   */
  function SourceAt(s: nat, m: Symmetry, y: nat, x: nat): (r: nat)
    requires y < s && x < s
    ensures r < s * s
  {
    match m
    case FlipY => FromRankFile(s, s - y - 1, x)
    case FlipX => FromRankFile(s, y, s - x - 1)
    case Rotate => FromRankFile(s, s - x - 1, y)
  }

  /** The same for a square; a square off the board maps to itself. */
  function Source(s: nat, m: Symmetry, sq: nat): (r: nat)
    ensures r < s * s <==> sq < s * s
  {
    if 0 < s && sq < s * s then
      RankFileOf(s, sq);
      SourceAt(s, m, Rank(s, sq), File(s, sq))
    else sq
  }

  /** The square the stack on `sq` is copied to. */
  function Target(s: nat, m: Symmetry, sq: nat): (r: nat)
    ensures r < s * s <==> sq < s * s
  {
    if m == Rotate && 0 < s && sq < s * s then
      RankFileOf(s, sq);
      FromRankFile(s, File(s, sq), s - 1 - Rank(s, sq))
    else Source(s, m, sq)
  }

  /** Where the maps take a square, in ranks and files. */
  lemma SourceRankFile(s: nat, m: Symmetry, sq: nat)
    requires sq < s * s
    ensures Source(s, m, sq) < s * s && Target(s, m, sq) < s * s
    ensures Rank(s, sq) < s && File(s, sq) < s
    ensures m == FlipY ==> Rank(s, Source(s, m, sq)) == s - 1 - Rank(s, sq) && File(s, Source(s, m, sq)) == File(s, sq)
    ensures m == FlipX ==> Rank(s, Source(s, m, sq)) == Rank(s, sq) && File(s, Source(s, m, sq)) == s - 1 - File(s, sq)
    ensures m == Rotate ==> Rank(s, Source(s, m, sq)) == s - 1 - File(s, sq) && File(s, Source(s, m, sq)) == Rank(s, sq)
    ensures m == Rotate ==> Rank(s, Target(s, m, sq)) == File(s, sq) && File(s, Target(s, m, sq)) == s - 1 - Rank(s, sq)
    ensures m != Rotate ==> Target(s, m, sq) == Source(s, m, sq)
  {
    RankFileOf(s, sq);
  }

  /** Every square receives the stack of exactly one square: `Target` undoes `Source`. */
  lemma SourceTarget(s: nat, m: Symmetry, sq: nat)
    requires sq < s * s
    ensures Source(s, m, Target(s, m, sq)) == sq && Target(s, m, Source(s, m, sq)) == sq
  {
    SourceRankFile(s, m, sq);
    SourceRankFile(s, m, Target(s, m, sq));
    SourceRankFile(s, m, Source(s, m, sq));
    SameRankFile(s, Source(s, m, Target(s, m, sq)), sq);
    SameRankFile(s, Target(s, m, Source(s, m, sq)), sq);
  }

  lemma SourceBijection(s: nat, m: Symmetry)
    ensures Bijection(s * s, sq => Source(s, m, sq), sq => Target(s, m, sq))
  {
    forall sq: nat | sq < s * s
      ensures Source(s, m, Target(s, m, sq)) == sq && Target(s, m, Source(s, m, sq)) == sq
    {
      SourceTarget(s, m, sq);
    }
  }

  /** The squares of `cells` rearranged by `m`: square `sq` gets the stack of `Source(s, m, sq)`. */
  function Remap(s: nat, m: Symmetry, cells: seq<seq<Piece>>): (r: seq<seq<Piece>>)
    requires |cells| == s * s
    ensures |r| == s * s
    ensures forall y, x :: 0 <= y < s && 0 <= x < s ==> r[FromRankFile(s, y, x)] == cells[SourceAt(s, m, y, x)]
  {
    Permute(cells, sq => Source(s, m, sq))
  }

  /** `flip_board_y`, `flip_board_x` or `rotate_board`: a clone whose stacks are rearranged. */
  function Transform(s: nat, m: Symmetry, p: Position): (r: Position)
    requires |p.cells| == s * s
  {
    p.(cells := Remap(s, m, p.cells))
  }

  /** The stack on `sq` after the map is the one on its source square. */
  lemma TransformAt(s: nat, m: Symmetry, p: Position, sq: nat)
    requires |p.cells| == s * s && sq < s * s
    ensures Transform(s, m, p).cells[sq] == p.cells[Source(s, m, sq)]
  {
  }

  // ---------------------------------------------------------------------------
  // The board maps

  /** Mirroring twice in the same axis gives the position back. */
  lemma FlipInvolution(s: nat, m: Symmetry, p: Position)
    requires |p.cells| == s * s && m != Rotate
    ensures Transform(s, m, Transform(s, m, p)) == p
  {
    var q := Transform(s, m, Transform(s, m, p));
    forall sq | 0 <= sq < s * s
      ensures q.cells[sq] == p.cells[sq]
    {
      SourceTarget(s, m, sq);
    }
  }

  /** Four quarter turns bring every square back. */
  lemma RotateSquareFour(s: nat, sq: nat)
    requires sq < s * s
    ensures Source(s, Rotate, Source(s, Rotate, Source(s, Rotate, Source(s, Rotate, sq)))) == sq
  {
    var a := Source(s, Rotate, sq);
    var b := Source(s, Rotate, a);
    var c := Source(s, Rotate, b);
    SourceRankFile(s, Rotate, sq);
    SourceRankFile(s, Rotate, a);
    SourceRankFile(s, Rotate, b);
    SourceRankFile(s, Rotate, c);
    SameRankFile(s, Source(s, Rotate, c), sq);
  }

  /** Four quarter turns give the position back. */
  lemma RotateFour(s: nat, p: Position)
    requires |p.cells| == s * s
    ensures Transform(s, Rotate, Transform(s, Rotate, Transform(s, Rotate, Transform(s, Rotate, p)))) == p
  {
    var p4 := Transform(s, Rotate, Transform(s, Rotate, Transform(s, Rotate, Transform(s, Rotate, p))));
    forall sq | 0 <= sq < s * s
      ensures p4.cells[sq] == p.cells[sq]
    {
      RotateSquareFour(s, sq);
    }
  }

  /** A half turn takes every square where the two mirror images one after the other take it. */
  lemma RotateSquareTwice(s: nat, sq: nat)
    requires sq < s * s
    ensures Source(s, Rotate, Source(s, Rotate, sq)) == Source(s, FlipY, Source(s, FlipX, sq))
  {
    var a := Source(s, Rotate, sq);
    var b := Source(s, FlipX, sq);
    SourceRankFile(s, Rotate, sq);
    SourceRankFile(s, FlipX, sq);
    SourceRankFile(s, Rotate, a);
    SourceRankFile(s, FlipY, b);
    SameRankFile(s, Source(s, Rotate, a), Source(s, FlipY, b));
  }

  /** A half turn is the two mirror images one after the other. */
  lemma RotateTwice(s: nat, p: Position)
    requires |p.cells| == s * s
    ensures Transform(s, Rotate, Transform(s, Rotate, p)) == Transform(s, FlipX, Transform(s, FlipY, p))
  {
    var q := Transform(s, Rotate, Transform(s, Rotate, p));
    var q' := Transform(s, FlipX, Transform(s, FlipY, p));
    forall sq | 0 <= sq < s * s
      ensures q.cells[sq] == q'.cells[sq]
    {
      RotateSquareTwice(s, sq);
    }
  }

  /** Rearranging the squares keeps the number of pieces on the board. */
  lemma {:induction false} PiecesOnBoardPermute(cells: seq<seq<Piece>>, g: nat -> nat, h: nat -> nat)
    requires Bijection(|cells|, g, h)
    ensures PiecesOnBoard(Permute(cells, g)) == PiecesOnBoard(cells)
    decreases |cells|
  {
    if |cells| > 0 {
      var n := |cells| - 1;
      var k, g', h' := PermuteLast(cells, g, h);
      PiecesOnBoardPermute(cells[..n], g', h');
      var zs := Permute(cells[..n], g');
      var ys := Permute(cells, g);
      assert ys[..n] == ys[..|ys| - 1];
      if k < n {
        PiecesOnBoardUpdate(zs, k, cells[n]);
        assert ys[..n] == zs[k := cells[n]];
      } else {
        assert ys[..n] == zs;
      }
    }
  }

  /**
   * `q` holds the stacks of `p`, possibly on other squares, and agrees with `p` on every
   * other field; a well-formed `p` with every piece accounted for makes `q` so too.
   */
  predicate Keeps(s: nat, p: Position, q: Position)
  {
    && |q.cells| == |p.cells|
    && multiset(q.cells) == multiset(p.cells)
    && q == p.(cells := q.cells)
    && (ValidCells(s, p.cells) ==> ValidCells(s, q.cells))
    && (Conserved(s, p) ==> Conserved(s, q))
  }

  lemma KeepsTransitive(s: nat, p: Position, q: Position, r: Position)
    requires Keeps(s, p, q) && Keeps(s, q, r)
    ensures Keeps(s, p, r)
  {
  }

  /**
   * A board map moves the stacks and nothing else: the stacks on the board are the same
   * multiset, every field but the squares is kept (the hash too), and a well-formed board with
   * every piece accounted for stays so.
   */
  lemma TransformKeeps(s: nat, m: Symmetry, p: Position)
    requires |p.cells| == s * s
    ensures PiecesOnBoard(Transform(s, m, p).cells) == PiecesOnBoard(p.cells)
    ensures Keeps(s, p, Transform(s, m, p))
  {
    var q := Transform(s, m, p);
    SourceBijection(s, m);
    PermuteMultiset(p.cells, sq => Source(s, m, sq), sq => Target(s, m, sq));
    PiecesOnBoardPermute(p.cells, sq => Source(s, m, sq), sq => Target(s, m, sq));
    if ValidCells(s, p.cells) {
      forall sq | 0 <= sq < s * s
        ensures StackShape(q.cells[sq])
      {
        TransformAt(s, m, p, sq);
      }
    }
  }

  // ---------------------------------------------------------------------------
  // Swapping the colours

  /** Every piece of a stack with its colour swapped, bottom to top. */
  function FlipStack(ps: seq<Piece>): (r: seq<Piece>)
    ensures |r| == |ps|
    ensures forall i :: 0 <= i < |ps| ==> r[i].Role() == ps[i].Role() && r[i].Color() == ps[i].Color().Opposite()
  {
    seq(|ps|, i requires 0 <= i < |ps| => ps[i].FlipColor())
  }

  /** Every stack with its colours swapped. */
  function FlipCells(cells: seq<seq<Piece>>): (r: seq<seq<Piece>>)
    ensures |r| == |cells|
  {
    seq(|cells|, i requires 0 <= i < |cells| => FlipStack(cells[i]))
  }

  /**
   * `flip_colors`: every stack with its colours swapped, the two players' reserves exchanged
   * and the other side to move. The clone's hash, move list and hash history are kept.
   */
  function ColorsFlipped(p: Position): (r: Position)
  {
    p.(cells := FlipCells(p.cells),
       toMove := p.toMove.Opposite(),
       whiteStones := p.blackStones, blackStones := p.whiteStones,
       whiteCaps := p.blackCaps, blackCaps := p.whiteCaps)
  }

  /** The inner loop of `flip_colors`: the flipped pieces pushed bottom to top onto an empty stack. */
  method FlippedStack(st: Stack) returns (r: Stack)
    requires st.Valid()
    ensures r.Valid() && r.Pieces() == FlipStack(st.Pieces())
  {
    ghost var ps := st.Pieces();
    r := EmptyStack;
    for i := 0 to st.height
      invariant r.Valid() && r.height == i
      invariant r.Pieces() == FlipStack(ps[..i])
    {
      GetPieces(st, i);
      var piece := st.Get(i).value.FlipColor();
      PushFlipped(r, ps, i);
      r := r.Push(piece);
    }
    assert ps[..st.height] == ps;
  }

  /**
   * Pushing the next flipped piece extends the flipped stack: the piece it flattens is already
   * a flat, since only the top of a stack can be a wall or a capstone.
   */
  lemma PushFlipped(r: Stack, ps: seq<Piece>, i: nat)
    requires r.Valid() && r.height == i < |ps| <= MaxHeight && r.Pieces() == FlipStack(ps[..i])
    requires forall j :: 0 <= j < |ps| - 1 ==> ps[j].Role() == Flat
    ensures r.Push(ps[i].FlipColor()).Pieces() == FlipStack(ps[..i + 1])
  {
    PushPieces(r, ps[i].FlipColor());
    if i > 0 {
      FromRoleColorOfPiece(r.Pieces()[i - 1]);
    }
    assert ps[..i + 1] == ps[..i] + [ps[i]];
  }

  lemma {:induction false} PiecesOnBoardFlip(cells: seq<seq<Piece>>)
    ensures PiecesOnBoard(FlipCells(cells)) == PiecesOnBoard(cells)
  {
    if cells != [] {
      var n := |cells| - 1;
      PiecesOnBoardFlip(cells[..n]);
      assert FlipCells(cells)[..n] == FlipCells(cells[..n]);
    }
  }

  /** Swapping the colours twice gives the position back. */
  lemma ColorsFlippedInvolution(p: Position)
    ensures ColorsFlipped(ColorsFlipped(p)) == p
  {
    var q := ColorsFlipped(ColorsFlipped(p));
    forall i | 0 <= i < |p.cells|
      ensures q.cells[i] == p.cells[i]
    {
      forall j | 0 <= j < |p.cells[i]|
        ensures q.cells[i][j] == p.cells[i][j]
      {
        FlipColorInvolution(p.cells[i][j]);
      }
    }
  }

  /**
   * The colour swap keeps the stacks well formed and every piece accounted for; each player
   * now has what the other had left, and the hash is the one the position had before.
   */
  lemma ColorsFlippedKeeps(s: nat, p: Position)
    ensures |ColorsFlipped(p).cells| == |p.cells|
    ensures forall i, j :: 0 <= i < |p.cells| && 0 <= j < |p.cells[i]| ==>
      ColorsFlipped(p).cells[i][j] == p.cells[i][j].FlipColor()
    ensures forall c, role :: Reserve(ColorsFlipped(p), c, role) == Reserve(p, c.Opposite(), role)
    ensures ColorsFlipped(p).toMove == p.toMove.Opposite() && ColorsFlipped(p).hash == p.hash
    ensures ValidCells(s, p.cells) ==> ValidCells(s, ColorsFlipped(p).cells)
    ensures Conserved(s, p) ==> Conserved(s, ColorsFlipped(p))
  {
    PiecesOnBoardFlip(p.cells);
  }

  /** Swapping the colours commutes with each board map. */
  lemma ColorsFlippedTransform(s: nat, m: Symmetry, p: Position)
    requires |p.cells| == s * s
    ensures ColorsFlipped(Transform(s, m, p)) == Transform(s, m, ColorsFlipped(p))
  {
    var q := ColorsFlipped(Transform(s, m, p));
    var q' := Transform(s, m, ColorsFlipped(p));
    assert q.cells == q'.cells;
  }

  // ---------------------------------------------------------------------------
  // All symmetries

  /**
   * `symmetries`: the position, its two mirror images, its three quarter turns, and the two
   * mirror images of its first quarter turn.
   */
  function SymmetriesOf(s: nat, p: Position): (r: seq<Position>)
    requires |p.cells| == s * s
    ensures |r| == 8 && r[0] == p
  {
    var rot := Transform(s, Rotate, p);
    [p, Transform(s, FlipX, p), Transform(s, FlipY, p), rot, Transform(s, Rotate, rot),
     Transform(s, Rotate, Transform(s, Rotate, rot)), Transform(s, FlipX, rot), Transform(s, FlipY, rot)]
  }

  /** Each position followed by its colour swap, as the `flat_map` of `symmetries_with_swapped_colors` lays them out. */
  function WithSwappedColors(ps: seq<Position>): (r: seq<Position>)
    ensures |r| == 2 * |ps|
    ensures forall i :: 0 <= i < |ps| ==> r[2 * i] == ps[i] && r[2 * i + 1] == ColorsFlipped(ps[i])
  {
    if ps == [] then []
    else
      var rest := WithSwappedColors(ps[1..]);
      assert forall i :: 1 <= i < |ps| ==> ps[1..][i - 1] == ps[i];
      [ps[0], ColorsFlipped(ps[0])] + rest
  }

  /** `symmetries_with_swapped_colors`: the eight symmetries, each with and without its colours swapped. */
  function WithSwappedColorsOf(s: nat, p: Position): (r: seq<Position>)
    requires |p.cells| == s * s
    ensures |r| == 16
  {
    WithSwappedColors(SymmetriesOf(s, p))
  }

  /** Every symmetry holds the same stacks and keeps every field but the squares. */
  lemma SymmetriesKeep(s: nat, p: Position)
    requires |p.cells| == s * s
    ensures forall q :: q in SymmetriesOf(s, p) ==> Keeps(s, p, q)
  {
    var rot := Transform(s, Rotate, p);
    var rot2 := Transform(s, Rotate, rot);
    var rot3 := Transform(s, Rotate, rot2);
    TransformKeeps(s, FlipX, p);
    TransformKeeps(s, FlipY, p);
    TransformKeeps(s, Rotate, p);
    TransformKeeps(s, Rotate, rot);
    KeepsTransitive(s, p, rot, rot2);
    TransformKeeps(s, Rotate, rot2);
    KeepsTransitive(s, p, rot2, rot3);
    TransformKeeps(s, FlipX, rot);
    KeepsTransitive(s, p, rot, Transform(s, FlipX, rot));
    TransformKeeps(s, FlipY, rot);
    KeepsTransitive(s, p, rot, Transform(s, FlipY, rot));
    assert Keeps(s, p, p);
  }

  /** A position and its colour swap, for each of `ps`, all keep what every one of `ps` keeps. */
  lemma {:induction false} WithSwappedColorsValid(s: nat, p: Position, ps: seq<Position>)
    requires forall q :: q in ps ==> Keeps(s, p, q)
    ensures forall q :: q in WithSwappedColors(ps) ==>
      (ValidCells(s, p.cells) ==> ValidCells(s, q.cells)) && (Conserved(s, p) ==> Conserved(s, q))
  {
    if ps != [] {
      assert ps[0] in ps;
      ColorsFlippedKeeps(s, ps[0]);
      WithSwappedColorsValid(s, p, ps[1..]);
      assert WithSwappedColors(ps) == [ps[0], ColorsFlipped(ps[0])] + WithSwappedColors(ps[1..]);
    }
  }

  /**
   * Of the sixteen, the even ones are the eight symmetries and the odd ones their colour
   * swaps, with the other side to move; all keep the stacks well formed and every piece
   * accounted for.
   */
  lemma WithSwappedColorsKeep(s: nat, p: Position)
    requires |p.cells| == s * s
    ensures forall i :: 0 <= i < 8 ==>
      WithSwappedColorsOf(s, p)[2 * i] == SymmetriesOf(s, p)[i]
      && WithSwappedColorsOf(s, p)[2 * i + 1] == ColorsFlipped(SymmetriesOf(s, p)[i])
    ensures forall q :: q in WithSwappedColorsOf(s, p) ==>
      (ValidCells(s, p.cells) ==> ValidCells(s, q.cells)) && (Conserved(s, p) ==> Conserved(s, q))
  {
    SymmetriesKeep(s, p);
    WithSwappedColorsValid(s, p, SymmetriesOf(s, p));
  }
}
