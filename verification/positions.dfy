/**
 * A whole position as a value (the fields of `Board` in board.rs, with each square as its pieces
 * from the bottom up), and what `do_move` and `reverse_move` do to it. The `Board` class is
 * proved to follow `DoSpec` and `UndoSpec`; the theorems about playing and taking back moves
 * are stated here.
 */
module Positions {
  import opened Pieces
  import opened Squares
  import opened Stacks
  import opened Zobrist
  import opened Moves
  import opened Spreads

  /** `starting_stones`: the stones (flats and walls) each player starts with. */
  function StartingStones(s: nat): nat
  {
    if s == 3 then 10
    else if s == 4 then 16
    else if s == 5 then 21
    else if s == 6 then 30
    else if s == 7 then 40
    else if s == 8 then 50
    else 0
  }

  /** `starting_capstones`: the capstones each player starts with. */
  function StartingCaps(s: nat): nat
  {
    if s == 3 || s == 4 then 0
    else if s == 5 || s == 6 then 1
    else if s == 7 || s == 8 then 2
    else 0
  }

  datatype Position = Position(
    cells: seq<seq<Piece>>,
    toMove: Color,
    whiteStones: nat,
    blackStones: nat,
    whiteCaps: nat,
    blackCaps: nat,
    halfMoves: nat,
    moves: seq<Move>,
    hash: bv64,
    hashHistory: seq<bv64>)

  /** `Board::default`: an empty board, White to move, full reserves, the hash of White to move. */
  function Start(s: nat, keys: Keys): Position
  {
    Position(EmptyCells(s * s), White, StartingStones(s), StartingStones(s),
             StartingCaps(s), StartingCaps(s), 0, [], keys.toMove(White), [])
  }

  /** The pieces of one kind a player has left: stones for flats and walls, capstones for caps. */
  function Reserve(p: Position, c: Color, role: Role): nat
  {
    match (c, role)
    case (White, Cap) => p.whiteCaps
    case (Black, Cap) => p.blackCaps
    case (White, _) => p.whiteStones
    case (Black, _) => p.blackStones
  }

  /** The position with that reserve set to `v`. */
  function SetReserve(p: Position, c: Color, role: Role, v: nat): (r: Position)
    ensures Reserve(r, c, role) == v
  {
    var caps := role == Cap;
    Position(p.cells, p.toMove,
             if c == White && !caps then v else p.whiteStones,
             if c == Black && !caps then v else p.blackStones,
             if c == White && caps then v else p.whiteCaps,
             if c == Black && caps then v else p.blackCaps,
             p.halfMoves, p.moves, p.hash, p.hashHistory)
  }

  /** All four reserves together. */
  function Reserves(p: Position): nat
  {
    p.whiteStones + p.blackStones + p.whiteCaps + p.blackCaps
  }

  /** On the first two plies each player places a flat of the opponent's colour. */
  function ColorToPlace(p: Position): Color
  {
    if p.halfMoves > 1 then p.toMove else p.toMove.Opposite()
  }

  /** XOR of the hashes of the squares on a path, as the `MoveIterator` loops fold them in. */
  function PathHash(keys: Keys, cells: seq<seq<Piece>>, path: seq<nat>): bv64
    requires forall k :: 0 <= k < |path| ==> path[k] < |cells|
  {
    XorAt(SquareHashes(keys, cells), path)
  }

  /** The last three lines of both `do_move` and `reverse_move`: the side to move changes. */
  function SwapSide(keys: Keys, h: bv64, c: Color): bv64
  {
    Xor(Xor(h, keys.toMove(c)), keys.toMove(c.Opposite()))
  }

  // ---------------------------------------------------------------------------
  // do_move

  /**
   * What `do_move` needs in order not to place a piece without panicking: the square on the
   * board, room for the old top's bit, and a piece of that kind left to take from the reserve
   * (an unsigned byte).
   */
  predicate PlaceOk(s: nat, p: Position, role: Role, sq: nat)
  {
    && ValidCells(s, p.cells) && sq < s * s
    && |p.cells[sq]| < MaxHeight && Reserve(p, ColorToPlace(p), role) > 0
  }

  /**
   * What `do_move` needs in order to spread without panicking: every step finds its neighbour
   * and enough pieces, and there are at most seven movements.
   */
  predicate SpreadMoveOk(s: nat, p: Position, sq: nat, d: Direction, takes: seq<nat>)
  {
    && ValidCells(s, p.cells) && sq < s * s
    && |takes| <= MaxMovements && SpreadOk(s, p.cells, sq, d, takes)
  }

  predicate MoveOk(s: nat, p: Position, m: Move)
  {
    match m
    case Place(role, sq) => PlaceOk(s, p, role, sq)
    case Spread(sq, d, takes) => SpreadMoveOk(s, p, sq, d, takes)
  }

  /**
   * What the `debug_assert`s of `do_move` and the move generator add: a placement on an empty
   * square, a spread that follows the rules.
   */
  predicate MoveLegal(s: nat, p: Position, m: Move)
  {
    && MoveOk(s, p, m)
    && match m
       case Place(_, sq) => p.cells[sq] == []
       case Spread(sq, d, takes) => SpreadLegal(s, p.cells, sq, d, takes)
  }

  /** The end of every move: record it, count the ply, and hand the move to the other side. */
  function Finish(keys: Keys, p: Position, m: Move): Position
  {
    p.(moves := p.moves + [m], halfMoves := p.halfMoves + 1,
       toMove := p.toMove.Opposite(), hash := SwapSide(keys, p.hash, p.toMove))
  }

  /**
   * `do_move` on a placement, before the turn ends: push the piece (of the colour
   * `ColorToPlace` picks), spend it from the reserve, add its key to the hash, clear the hash
   * history.
   */
  function AfterPlace(s: nat, keys: Keys, p: Position, role: Role, sq: nat): (r: Position)
    requires PlaceOk(s, p, role, sq)
    ensures ValidCells(s, r.cells)
  {
    var c := ColorToPlace(p);
    var piece := FromRoleColor(role, c);
    var ps := FlattenTop(p.cells[sq]) + [piece];
    assert StackShape(ps) by { AppendShape(p.cells[sq], [piece]); }
    var p1 := SetReserve(p, c, role, Reserve(p, c, role) - 1);
    p1.(cells := p.cells[sq := ps], hash := Xor(p.hash, keys.topStones(sq, piece)), hashHistory := [])
  }

  /** A placement is the push onto the square, then the reserve spent, then the hash update. */
  lemma AfterPlaceSteps(s: nat, keys: Keys, p: Position, role: Role, sq: nat)
    requires PlaceOk(s, p, role, sq)
    ensures var c := ColorToPlace(p);
            var piece := FromRoleColor(role, c);
            var p1 := p.(cells := p.cells[sq := FlattenTop(p.cells[sq]) + [piece]]);
            var p2 := SetReserve(p1, c, role, Reserve(p1, c, role) - 1);
            AfterPlace(s, keys, p, role, sq) == p2.(hash := Xor(p2.hash, keys.topStones(sq, piece)), hashHistory := [])
  {
  }

  /** `do_move` on a placement. */
  function PlaceSpec(s: nat, keys: Keys, p: Position, role: Role, sq: nat): (r: Position)
    requires PlaceOk(s, p, role, sq)
    ensures ValidCells(s, r.cells)
  {
    Finish(keys, AfterPlace(s, keys, p, role, sq), Place(role, sq))
  }

  /**
   * `do_move` on a spread, before the turn ends: record the hash in the history, run the steps,
   * and re-hash the squares of the path before and after.
   */
  function AfterSpread(s: nat, keys: Keys, p: Position, sq: nat, d: Direction, takes: seq<nat>): (r: Position)
    requires SpreadMoveOk(s, p, sq, d, takes)
    ensures ValidCells(s, r.cells)
  {
    var after := SpreadCells(s, p.cells, sq, d, takes);
    var path := Path(s, sq, d, |takes|);
    var h := Xor(Xor(p.hash, PathHash(keys, p.cells, path)), PathHash(keys, after, path));
    p.(cells := after, hash := h, hashHistory := p.hashHistory + [p.hash])
  }

  /** `do_move` on a spread. */
  function SpreadSpec(s: nat, keys: Keys, p: Position, sq: nat, d: Direction, takes: seq<nat>): (r: Position)
    requires SpreadMoveOk(s, p, sq, d, takes)
    ensures ValidCells(s, r.cells)
  {
    Finish(keys, AfterSpread(s, keys, p, sq, d, takes), Spread(sq, d, takes))
  }

  /**
   * The reverse of a spread: from the square it ended on, back the other way, with the counts
   * in reverse order, and whether it flattened a wall.
   */
  function SpreadReverse(s: nat, cells: seq<seq<Piece>>, sq: nat, d: Direction, takes: seq<nat>): ReverseMove
    requires ValidCells(s, cells) && sq < s * s && SpreadOk(s, cells, sq, d, takes)
  {
    RevSpread(SpreadEnd(s, sq, d, takes), d.Reverse(), Reversed(takes), SpreadFlattens(s, cells, sq, d, takes))
  }

  /** `do_move`: the new position and the move that undoes it. */
  function DoSpec(s: nat, keys: Keys, p: Position, m: Move): (r: (Position, ReverseMove))
    requires MoveOk(s, p, m)
    ensures ValidCells(s, r.0.cells)
  {
    match m
    case Place(role, sq) => (PlaceSpec(s, keys, p, role, sq), RevPlace(sq))
    case Spread(sq, d, takes) => (SpreadSpec(s, keys, p, sq, d, takes), SpreadReverse(s, p.cells, sq, d, takes))
  }

  // ---------------------------------------------------------------------------
  // reverse_move

  /** What `reverse_move` needs to take back a placement: a ply to take back and a piece to pop. */
  predicate UnplaceOk(s: nat, p: Position, sq: nat)
  {
    ValidCells(s, p.cells) && p.halfMoves > 0 && sq < s * s && |p.cells[sq]| > 0
  }

  /**
   * What `reverse_move` needs to take back a spread: a ply to take back, steps that can run and,
   * when it restores a wall, a piece to turn back.
   */
  predicate UnspreadOk(s: nat, p: Position, sq: nat, d: Direction, takes: seq<nat>, flattens: bool)
  {
    && ValidCells(s, p.cells) && p.halfMoves > 0
    && sq < s * s && SpreadOk(s, p.cells, sq, d, takes)
    && (flattens ==> |SpreadCells(s, p.cells, sq, d, takes)[sq]| > 0)
  }

  predicate UndoOk(s: nat, p: Position, rm: ReverseMove)
  {
    match rm
    case RevPlace(sq) => UnplaceOk(s, p, sq)
    case RevSpread(sq, d, takes, flattens) => UnspreadOk(s, p, sq, d, takes, flattens)
  }

  /** Drops the last element, as `Vec::pop` does, doing nothing to an empty list. */
  function DropLast<T>(xs: seq<T>): (r: seq<T>)
    ensures xs != [] ==> xs == r + [xs[|xs| - 1]]
    ensures xs == [] ==> r == []
  {
    if xs == [] then [] else xs[..|xs| - 1]
  }

  /** `replace_top` with a wall of the top piece's colour (the wall a spread had flattened). */
  function RestoreWall(ps: seq<Piece>): (r: seq<Piece>)
    requires |ps| > 0
    ensures |r| == |ps| && r[..|ps| - 1] == ps[..|ps| - 1]
    ensures r[|ps| - 1] == FromRoleColor(Wall, ps[|ps| - 1].Color())
  {
    ps[..|ps| - 1] + [FromRoleColor(Wall, ps[|ps| - 1].Color())]
  }

  /** The cells after a reverse spread, with the flattened wall stood back up. */
  function UndoSpreadCells(s: nat, cells: seq<seq<Piece>>, sq: nat, d: Direction, takes: seq<nat>, flattens: bool): (r: seq<seq<Piece>>)
    requires ValidCells(s, cells) && sq < s * s && SpreadOk(s, cells, sq, d, takes)
    requires flattens ==> |SpreadCells(s, cells, sq, d, takes)[sq]| > 0
    ensures ValidCells(s, r)
  {
    var mid := SpreadCells(s, cells, sq, d, takes);
    if flattens then mid[sq := RestoreWall(mid[sq])] else mid
  }

  /**
   * The end of every `reverse_move`: the move list and the hash history lose their last entry,
   * the ply count drops and the side to move changes back.
   */
  function Unfinish(keys: Keys, p: Position): Position
    requires p.halfMoves > 0
  {
    p.(moves := DropLast(p.moves), hashHistory := DropLast(p.hashHistory), halfMoves := p.halfMoves - 1,
       toMove := p.toMove.Opposite(), hash := SwapSide(keys, p.hash, p.toMove))
  }

  /** `reverse_move` on a placement, before the common end: pop the piece, remove its key, return it to its reserve. */
  function AfterUnplace(s: nat, keys: Keys, p: Position, sq: nat): (r: Position)
    requires UnplaceOk(s, p, sq)
    ensures ValidCells(s, r.cells) && r.halfMoves == p.halfMoves
  {
    var ps := p.cells[sq];
    var piece := ps[|ps| - 1];
    var p1 := SetReserve(p, piece.Color(), piece.Role(), Reserve(p, piece.Color(), piece.Role()) + 1);
    p1.(cells := p.cells[sq := ps[..|ps| - 1]], hash := Xor(p.hash, keys.topStones(sq, piece)))
  }

  function UnplaceSpec(s: nat, keys: Keys, p: Position, sq: nat): (r: Position)
    requires UnplaceOk(s, p, sq)
    ensures ValidCells(s, r.cells)
  {
    Unfinish(keys, AfterUnplace(s, keys, p, sq))
  }

  /** `reverse_move` on a spread, before the common end: re-hash the path around the steps and the wall restore. */
  function AfterUnspread(s: nat, keys: Keys, p: Position, sq: nat, d: Direction, takes: seq<nat>, flattens: bool): (r: Position)
    requires UnspreadOk(s, p, sq, d, takes, flattens)
    ensures ValidCells(s, r.cells) && r.halfMoves == p.halfMoves
  {
    var fin := UndoSpreadCells(s, p.cells, sq, d, takes, flattens);
    var path := Path(s, sq, d, |takes|);
    p.(cells := fin, hash := Xor(Xor(p.hash, PathHash(keys, p.cells, path)), PathHash(keys, fin, path)))
  }

  function UnspreadSpec(s: nat, keys: Keys, p: Position, sq: nat, d: Direction, takes: seq<nat>, flattens: bool): (r: Position)
    requires UnspreadOk(s, p, sq, d, takes, flattens)
    ensures ValidCells(s, r.cells)
  {
    Unfinish(keys, AfterUnspread(s, keys, p, sq, d, takes, flattens))
  }

  /** `reverse_move`. */
  function UndoSpec(s: nat, keys: Keys, p: Position, rm: ReverseMove): (r: Position)
    requires UndoOk(s, p, rm)
    ensures ValidCells(s, r.cells)
  {
    match rm
    case RevPlace(sq) => UnplaceSpec(s, keys, p, sq)
    case RevSpread(sq, d, takes, flattens) => UnspreadSpec(s, keys, p, sq, d, takes, flattens)
  }

  // ---------------------------------------------------------------------------
  // The incremental hash

  /** Handing the move over swaps the side-to-move key of a hash computed from scratch. */
  lemma SwapSideHash(keys: Keys, a: bv64, c: Color)
    ensures SwapSide(keys, Xor(keys.toMove(c), a), c) == Xor(keys.toMove(c.Opposite()), a)
  {
    var k, k' := keys.toMove(c), keys.toMove(c.Opposite());
    XorComm(k, a);
    XorCancel(a, k);
    XorComm(a, k');
  }

  /** A placement on an empty square keeps the hash equal to the one computed from scratch. */
  lemma DoPlaceKeepsHash(s: nat, keys: Keys, p: Position, role: Role, sq: nat)
    requires PlaceOk(s, p, role, sq) && p.cells[sq] == []
    requires p.hash == HashOf(keys, p.cells, p.toMove)
    ensures var q := PlaceSpec(s, keys, p, role, sq);
            q.hash == HashOf(keys, q.cells, q.toMove)
  {
    var q := PlaceSpec(s, keys, p, role, sq);
    var piece := FromRoleColor(role, ColorToPlace(p));
    assert FlattenTop(p.cells[sq]) + [piece] == [piece];
    assert q.cells == p.cells[sq := [piece]];
    var key := keys.topStones(sq, piece);
    HashOfUpdate(keys, p.cells, sq, [piece], p.toMove);
    XorZero(key);
    assert HashOf(keys, q.cells, p.toMove) == Xor(p.hash, key);
    SwapSideHash(keys, XorAll(SquareHashes(keys, q.cells)), p.toMove);
  }

  /** A spread keeps the hash equal to the one computed from scratch. */
  lemma DoSpreadKeepsHash(s: nat, keys: Keys, p: Position, sq: nat, d: Direction, takes: seq<nat>)
    requires SpreadMoveOk(s, p, sq, d, takes)
    requires p.hash == HashOf(keys, p.cells, p.toMove)
    ensures var q := SpreadSpec(s, keys, p, sq, d, takes);
            q.hash == HashOf(keys, q.cells, q.toMove)
  {
    var q := SpreadSpec(s, keys, p, sq, d, takes);
    var after := SpreadCells(s, p.cells, sq, d, takes);
    assert q.cells == after;
    SpreadPathDistinct(s, p.cells, sq, d, takes);
    SpreadFrame(s, p.cells, sq, d, takes);
    HashOfChanges(keys, p.cells, after, Path(s, sq, d, |takes|), p.toMove);
    SwapSideHash(keys, XorAll(SquareHashes(keys, q.cells)), p.toMove);
  }

  /**
   * `do_move` keeps the incremental hash equal to `zobrist_hash_from_scratch`, for every move it
   * accepts, provided a placement goes on an empty square as its `debug_assert` demands.
   */
  lemma DoKeepsHash(s: nat, keys: Keys, p: Position, m: Move)
    requires MoveOk(s, p, m) && (m.Place? ==> p.cells[m.square] == [])
    requires p.hash == HashOf(keys, p.cells, p.toMove)
    ensures var q := DoSpec(s, keys, p, m).0;
            q.hash == HashOf(keys, q.cells, q.toMove)
  {
    match m
    case Place(role, sq) => DoPlaceKeepsHash(s, keys, p, role, sq);
    case Spread(sq, d, takes) => DoSpreadKeepsHash(s, keys, p, sq, d, takes);
  }

  /** Taking back the only piece on a square keeps the hash equal to the one computed from scratch. */
  lemma UndoPlaceKeepsHash(s: nat, keys: Keys, p: Position, sq: nat)
    requires UnplaceOk(s, p, sq) && |p.cells[sq]| == 1
    requires p.hash == HashOf(keys, p.cells, p.toMove)
    ensures var q := UnplaceSpec(s, keys, p, sq);
            q.hash == HashOf(keys, q.cells, q.toMove)
  {
    var q := UnplaceSpec(s, keys, p, sq);
    var piece := p.cells[sq][0];
    assert q.cells == p.cells[sq := []];
    var key := keys.topStones(sq, piece);
    HashOfUpdate(keys, p.cells, sq, [], p.toMove);
    XorZero(key);
    assert HashOf(keys, q.cells, p.toMove) == Xor(p.hash, key);
    SwapSideHash(keys, XorAll(SquareHashes(keys, q.cells)), p.toMove);
  }

  /** Taking back a spread keeps the hash equal to the one computed from scratch. */
  lemma UndoSpreadKeepsHash(s: nat, keys: Keys, p: Position, sq: nat, d: Direction, takes: seq<nat>, flattens: bool)
    requires UnspreadOk(s, p, sq, d, takes, flattens)
    requires p.hash == HashOf(keys, p.cells, p.toMove)
    ensures var q := UnspreadSpec(s, keys, p, sq, d, takes, flattens);
            q.hash == HashOf(keys, q.cells, q.toMove)
  {
    var q := UnspreadSpec(s, keys, p, sq, d, takes, flattens);
    var fin := UndoSpreadCells(s, p.cells, sq, d, takes, flattens);
    assert q.cells == fin;
    SpreadPathDistinct(s, p.cells, sq, d, takes);
    SpreadFrame(s, p.cells, sq, d, takes);
    HashOfChanges(keys, p.cells, fin, Path(s, sq, d, |takes|), p.toMove);
    SwapSideHash(keys, XorAll(SquareHashes(keys, q.cells)), p.toMove);
  }

  /**
   * `reverse_move` keeps the incremental hash equal to `zobrist_hash_from_scratch`, provided a
   * placement it takes back is the only piece on its square.
   */
  lemma UndoKeepsHash(s: nat, keys: Keys, p: Position, rm: ReverseMove)
    requires UndoOk(s, p, rm) && (rm.RevPlace? ==> |p.cells[rm.square]| == 1)
    requires p.hash == HashOf(keys, p.cells, p.toMove)
    ensures var q := UndoSpec(s, keys, p, rm);
            q.hash == HashOf(keys, q.cells, q.toMove)
  {
    match rm
    case RevPlace(sq) => UndoPlaceKeepsHash(s, keys, p, sq);
    case RevSpread(sq, d, takes, flattens) => UndoSpreadKeepsHash(s, keys, p, sq, d, takes, flattens);
  }

  // ---------------------------------------------------------------------------
  // Taking a move back

  /** `PartialEq for Board`: equal cells, side to move, reserves and ply count. */
  predicate SameGame(a: Position, b: Position)
  {
    && a.cells == b.cells && a.toMove == b.toMove
    && a.whiteStones == b.whiteStones && a.blackStones == b.blackStones
    && a.whiteCaps == b.whiteCaps && a.blackCaps == b.blackCaps
    && a.halfMoves == b.halfMoves
  }

  /**
   * Taking back a placement on an empty square restores the position and its hash; the moves
   * list loses the placement, and the hash history stays empty, since the placement cleared it.
   */
  lemma UndoDoPlace(s: nat, keys: Keys, p: Position, role: Role, sq: nat)
    requires PlaceOk(s, p, role, sq) && p.cells[sq] == [] && p.hash == HashOf(keys, p.cells, p.toMove)
    ensures var q := PlaceSpec(s, keys, p, role, sq);
            && UnplaceOk(s, q, sq)
            && var u := UnplaceSpec(s, keys, q, sq);
               SameGame(u, p) && u.moves == p.moves && u.hash == p.hash && u.hashHistory == []
  {
    var q := PlaceSpec(s, keys, p, role, sq);
    var piece := FromRoleColor(role, ColorToPlace(p));
    assert FlattenTop(p.cells[sq]) + [piece] == [piece];
    assert q.cells[sq] == [piece];
    var u := UnplaceSpec(s, keys, q, sq);
    assert u.cells == q.cells[sq := []];
    assert u.cells == p.cells;
    DoPlaceKeepsHash(s, keys, p, role, sq);
    UndoPlaceKeepsHash(s, keys, q, sq);
  }

  /** Standing a flattened wall back up gives the wall back. */
  lemma RestoreFlattenedWall(ps: seq<Piece>)
    requires TopIs(ps, Wall)
    ensures RestoreWall(FlattenTop(ps)) == ps
  {
    var n := |ps|;
    FromRoleColorOfPiece(ps[n - 1]);
    assert RestoreWall(FlattenTop(ps))[n - 1] == ps[n - 1];
    assert RestoreWall(FlattenTop(ps))[..n - 1] == ps[..n - 1];
    assert ps == ps[..n - 1] + [ps[n - 1]];
  }

  /** After a legal spread, the reverse spread's wall restore turns the end square back. */
  lemma UndoDoSpreadCells(s: nat, cells: seq<seq<Piece>>, sq: nat, d: Direction, takes: seq<nat>)
    requires ValidCells(s, cells) && sq < s * s && SpreadLegal(s, cells, sq, d, takes)
    ensures SpreadOk(s, cells, sq, d, takes)
    ensures var after := SpreadCells(s, cells, sq, d, takes);
            var e := SpreadEnd(s, sq, d, takes);
            var flattens := SpreadFlattens(s, cells, sq, d, takes);
            && SpreadOk(s, after, e, d.Reverse(), Reversed(takes))
            && (flattens ==> |SpreadCells(s, after, e, d.Reverse(), Reversed(takes))[e]| > 0)
            && UndoSpreadCells(s, after, e, d.Reverse(), Reversed(takes), flattens) == cells
  {
    SpreadInverse(s, cells, sq, d, takes);
    LegalSpreadFlattens(s, cells, sq, d, takes);
    var e := SpreadEnd(s, sq, d, takes);
    assert !TopIs(cells[e], Cap) by { assert e == Path(s, sq, d, |takes|)[|takes|]; }
    RestoreEnd(cells, e, SpreadFlattens(s, cells, sq, d, takes));
  }

  /** Putting back the wall a spread flattened, or nothing, restores the end square. */
  lemma RestoreEnd(cells: seq<seq<Piece>>, e: nat, flattens: bool)
    requires e < |cells| && !TopIs(cells[e], Cap) && (flattens <==> TopIs(cells[e], Wall))
    ensures var back := cells[e := FlattenTop(cells[e])];
            && (flattens ==> |back[e]| > 0)
            && (if flattens then back[e := RestoreWall(back[e])] else back) == cells
  {
    var ps := cells[e];
    if flattens {
      RestoreFlattenedWall(ps);
    } else {
      FlattenTopFlat(ps);
    }
  }

  /**
   * Taking back a legal spread restores the position, its hash, the moves list and the hash
   * history.
   */
  lemma UndoDoSpread(s: nat, keys: Keys, p: Position, sq: nat, d: Direction, takes: seq<nat>)
    requires SpreadMoveOk(s, p, sq, d, takes) && SpreadLegal(s, p.cells, sq, d, takes)
    requires p.hash == HashOf(keys, p.cells, p.toMove)
    ensures var q := SpreadSpec(s, keys, p, sq, d, takes);
            var rm := SpreadReverse(s, p.cells, sq, d, takes);
            && UnspreadOk(s, q, rm.square, rm.dir, rm.takes, rm.flattens)
            && var u := UnspreadSpec(s, keys, q, rm.square, rm.dir, rm.takes, rm.flattens);
               SameGame(u, p) && u.moves == p.moves && u.hash == p.hash && u.hashHistory == p.hashHistory
  {
    var q := SpreadSpec(s, keys, p, sq, d, takes);
    var rm := SpreadReverse(s, p.cells, sq, d, takes);
    UndoDoSpreadCells(s, p.cells, sq, d, takes);
    var u := UnspreadSpec(s, keys, q, rm.square, rm.dir, rm.takes, rm.flattens);
    assert u.cells == p.cells;
    DoSpreadKeepsHash(s, keys, p, sq, d, takes);
    UndoSpreadKeepsHash(s, keys, q, rm.square, rm.dir, rm.takes, rm.flattens);
  }

  /**
   * `reverse_move` undoes `do_move`: for a legal move from a position whose hash is up to date,
   * the reverse move it returns can be taken back, and taking it back restores the position
   * (as `Board`'s equality sees it), the hash and the moves list. The hash history comes back
   * too after a spread; after a placement it stays empty, because placing cleared it.
   */
  lemma UndoDo(s: nat, keys: Keys, p: Position, m: Move)
    requires MoveLegal(s, p, m) && p.hash == HashOf(keys, p.cells, p.toMove)
    ensures var (q, rm) := DoSpec(s, keys, p, m);
            && UndoOk(s, q, rm)
            && var u := UndoSpec(s, keys, q, rm);
               && SameGame(u, p) && u.moves == p.moves && u.hash == p.hash
               && u.hashHistory == (if m.Place? then [] else p.hashHistory)
  {
    match m
    case Place(role, sq) => UndoDoPlace(s, keys, p, role, sq);
    case Spread(sq, d, takes) => UndoDoSpread(s, keys, p, sq, d, takes);
  }

  // ---------------------------------------------------------------------------
  // The start of the game and what every move keeps

  /** An empty board hashes to the side-to-move key alone. */
  lemma {:induction false} EmptyBoardHash(keys: Keys, n: nat, c: Color)
    ensures HashOf(keys, EmptyCells(n), c) == keys.toMove(c)
  {
    EmptyXorAll(keys, n);
    XorZero(keys.toMove(c));
  }

  lemma {:induction false} EmptyXorAll(keys: Keys, n: nat)
    ensures XorAll(SquareHashes(keys, EmptyCells(n))) == 0
  {
    if n > 0 {
      assert SquareHashes(keys, EmptyCells(n))[..n - 1] == SquareHashes(keys, EmptyCells(n - 1));
      EmptyXorAll(keys, n - 1);
      XorZero(0);
    }
  }

  /** `Board::default` starts with the hash computed from scratch. */
  lemma StartHash(s: nat, keys: Keys)
    ensures var p := Start(s, keys);
            p.hash == HashOf(keys, p.cells, p.toMove)
  {
    EmptyBoardHash(keys, s * s, White);
  }

  /**
   * The count `do_move` checks with `debug_assert_eq`: the pieces on the board are exactly
   * those missing from the four reserves.
   */
  predicate Conserved(s: nat, p: Position)
  {
    PiecesOnBoard(p.cells) + Reserves(p) == 2 * (StartingStones(s) + StartingCaps(s))
  }

  /** The count holds at the start. */
  lemma StartConserved(s: nat, keys: Keys)
    ensures Conserved(s, Start(s, keys))
  {
    EmptyCount(s * s);
  }

  /**
   * `do_move` keeps the pieces on the board plus the reserves: a placement moves a piece from a
   * reserve to the board, a spread moves pieces between squares. So it keeps `Conserved`.
   */
  lemma DoConserves(s: nat, keys: Keys, p: Position, m: Move)
    requires MoveOk(s, p, m)
    ensures var q := DoSpec(s, keys, p, m).0;
            PiecesOnBoard(q.cells) + Reserves(q) == PiecesOnBoard(p.cells) + Reserves(p)
  {
    match m
    case Place(role, sq) =>
      var ps := FlattenTop(p.cells[sq]) + [FromRoleColor(role, ColorToPlace(p))];
      PiecesOnBoardUpdate(p.cells, sq, ps);
    case Spread(sq, d, takes) =>
      SpreadCount(s, p.cells, sq, d, takes);
  }

  /** `reverse_move` keeps the pieces on the board plus the reserves too. */
  lemma UndoConserves(s: nat, keys: Keys, p: Position, rm: ReverseMove)
    requires UndoOk(s, p, rm)
    ensures var q := UndoSpec(s, keys, p, rm);
            PiecesOnBoard(q.cells) + Reserves(q) == PiecesOnBoard(p.cells) + Reserves(p)
  {
    match rm
    case RevPlace(sq) =>
      var ps := p.cells[sq];
      PiecesOnBoardUpdate(p.cells, sq, ps[..|ps| - 1]);
    case RevSpread(sq, d, takes, flattens) =>
      SpreadCount(s, p.cells, sq, d, takes);
      var mid := SpreadCells(s, p.cells, sq, d, takes);
      if flattens {
        PiecesOnBoardUpdate(mid, sq, RestoreWall(mid[sq]));
      }
  }

  /**
   * The opening rule: from the start, the first two flats placed on two different squares are
   * Black's and then White's, each taken from its owner's reserve, and White is to move again.
   */
  lemma Opening(s: nat, keys: Keys, a: nat, b: nat)
    requires ValidSize(s) && a < s * s && b < s * s && a != b
    ensures PlaceOk(s, Start(s, keys), Flat, a)
    ensures var p1 := PlaceSpec(s, keys, Start(s, keys), Flat, a);
            && PlaceOk(s, p1, Flat, b)
            && var p2 := PlaceSpec(s, keys, p1, Flat, b);
               && p2.cells[a] == [BlackFlat] && p2.cells[b] == [WhiteFlat]
               && p2.toMove == White && p2.halfMoves == 2
               && p2.whiteStones == StartingStones(s) - 1 && p2.blackStones == StartingStones(s) - 1
               && p2.whiteCaps == StartingCaps(s) && p2.blackCaps == StartingCaps(s)
  {
    var p0 := Start(s, keys);
    assert ValidCells(s, p0.cells);
    var p1 := PlaceSpec(s, keys, p0, Flat, a);
    assert p1.cells[a] == [BlackFlat];
    assert p1.cells[b] == [];
  }
}
