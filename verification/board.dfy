/**
 * `Board` in board.rs: the squares as an array of stacks updated in place, the reserves, the ply
 * count, the moves played, the incremental hash and the hash history. Every method is proved
 * against the functions on `Position` values: `DoMove` follows `DoSpec` and `ReverseMove`
 * follows `UndoSpec`, so the theorems proved there (the two are inverses, the hash stays equal
 * to the one computed from scratch, pieces are conserved) hold of the class.
 */
module Boards {
  import opened Wrappers
  import opened Pieces
  import opened Squares
  import opened Stacks
  import opened Zobrist
  import opened Moves
  import opened Spreads
  import opened Positions
  import opened Symmetries

  /** The pieces of every stack, bottom to top. */
  function StackPieces(sts: seq<Stack>): (r: seq<seq<Piece>>)
    requires forall i :: 0 <= i < |sts| ==> sts[i].Valid()
    ensures |r| == |sts|
    ensures forall i :: 0 <= i < |sts| ==> r[i] == sts[i].Pieces() && StackShape(r[i])
  {
    var r := seq(|sts|, i requires 0 <= i < |sts| => sts[i].Pieces());
    assert forall i :: 0 <= i < |sts| ==> StackShape(r[i]) by {
      forall i | 0 <= i < |sts| {
        PiecesShape(sts[i]);
      }
    }
    r
  }

  /** Moving pieces between two stacks changes the pieces of those two squares and no others. */
  lemma StackPiecesUpdate(a: seq<Stack>, b: seq<Stack>, x: nat, y: nat)
    requires |a| == |b| && x < |a| && y < |a| && x != y
    requires forall i :: 0 <= i < |a| ==> a[i].Valid() && b[i].Valid()
    requires forall i :: 0 <= i < |a| && i != x && i != y ==> b[i] == a[i]
    ensures StackPieces(b) == StackPieces(a)[x := b[x].Pieces()][y := b[y].Pieces()]
  {
  }

  /** The piece `push` adds on top of the carried pieces buries a flat, which stays as it is. */
  lemma PushCarried(qs: seq<Piece>, ps: seq<Piece>, leave: nat, j: nat)
    requires StackShape(ps) && leave <= j < |ps|
    ensures FlattenTop(if j == leave then qs else FlattenTop(qs) + ps[leave..j]) + [ps[j]]
            == FlattenTop(qs) + ps[leave..j + 1]
  {
    assert ps[leave..j + 1] == ps[leave..j] + [ps[j]];
    if j > leave {
      var x := FlattenTop(qs) + ps[leave..j];
      var below := ps[j - 1];
      assert x[|x| - 1] == below && below.Role() == Flat;
      FromRoleColorOfPiece(below);
      assert x[..|x| - 1] + [x[|x| - 1]] == x;
      assert FlattenTop(x) == x;
      assert x + [ps[j]] == FlattenTop(qs) + (ps[leave..j] + [ps[j]]);
    }
  }

  /** `remove` at the carry point closes the gap the carried piece left. */
  lemma RemoveCarried(ps: seq<Piece>, leave: nat, j: nat)
    requires leave <= j < |ps|
    ensures (ps[..leave] + ps[j..])[..leave] + (ps[..leave] + ps[j..])[leave + 1..] == ps[..leave] + ps[j + 1..]
  {
  }

  /** A well-formed stack's pieces form a stack shape. */
  lemma PiecesShape(st: Stack)
    requires st.Valid()
    ensures StackShape(st.Pieces())
  {
  }

  /**
   * `zobrist_hash_for_square` on the stack of square `sq`: the top piece's key, then one key for
   * each whole byte of the layer word below the top.
   */
  method SquareHashFor(keys: Keys, sq: nat, st: Stack) returns (h: bv64)
    requires st.Valid()
    ensures h == SquareHash(keys, sq, st.Pieces())
  {
    h := 0;
    if st.top.Some? {
      var top := keys.topStones(sq, st.top.value);
      h := Xor(h, top);
      XorZero(top);
      var i := 0;
      while i < (st.height - 1) / 8
        invariant i <= (st.height - 1) / 8
        invariant h == Xor(top, WordKeys(keys, sq, st.layers, i))
      {
        var key := keys.stonesInStack(i, sq, LayerByte(st.layers, i));
        XorAssoc(top, WordKeys(keys, sq, st.layers, i), key);
        h := Xor(h, key);
        i := i + 1;
      }
      WordKeysOfPieces(keys, sq, st, i);
      SquareHashOfTop(keys, sq, st);
    }
  }

  /** The hash of a non-empty stack starts from the key of its top piece. */
  lemma SquareHashOfTop(keys: Keys, sq: nat, st: Stack)
    requires st.Valid() && st.top.Some?
    ensures SquareHash(keys, sq, st.Pieces()) ==
            Xor(keys.topStones(sq, st.top.value), LayerKeys(keys, sq, st.Pieces(), (st.height - 1) / 8))
  {
  }

  /**
   * The `MoveIterator` loops of `do_move` and `reverse_move`: the XOR of the hashes of the
   * squares on the path, which they fold into the hash.
   */
  method PathHashFor(keys: Keys, sts: seq<Stack>, path: seq<nat>, ghost hs: seq<bv64>) returns (h: bv64)
    requires HashesOf(keys, sts, hs) && forall k :: 0 <= k < |path| ==> path[k] < |sts|
    ensures h == XorAt(hs, path)
  {
    h := 0;
    var i := 0;
    while i < |path|
      invariant i <= |path| && h == XorAt(hs, path[..i])
    {
      var x := SquareHashFor(keys, path[i], sts[path[i]]);
      assert path[..i + 1][..i] == path[..i];
      h := Xor(h, x);
      i := i + 1;
    }
    assert path[..|path|] == path;
  }

  /**
   * `hs` holds the hash of every stack. The trigger keeps the fact from being unfolded for
   * every `hs[i]` in sight; it is used where a square's hash is computed.
   */
  ghost predicate HashesOf(keys: Keys, sts: seq<Stack>, hs: seq<bv64>)
  {
    && |hs| == |sts|
    && (forall i :: 0 <= i < |sts| ==> sts[i].Valid())
    && forall i {:trigger SquareHash(keys, i, sts[i].Pieces())} ::
         0 <= i < |sts| ==> hs[i] == SquareHash(keys, i, sts[i].Pieces())
  }

  /** The square loop of `zobrist_hash_from_scratch`: XOR of every square's hash. */
  method AllHashFor(keys: Keys, sts: seq<Stack>, ghost hs: seq<bv64>) returns (h: bv64)
    requires HashesOf(keys, sts, hs)
    ensures h == XorAll(hs)
  {
    h := 0;
    var sq := 0;
    while sq < |sts|
      invariant sq <= |sts|
      invariant h == XorAll(hs[..sq])
    {
      var x := SquareHashFor(keys, sq, sts[sq]);
      assert hs[..sq + 1][..sq] == hs[..sq];
      h := Xor(h, x);
      sq := sq + 1;
    }
    assert hs[..|sts|] == hs;
  }

  /** A step, written as the two square updates the carry loop makes. */
  lemma StepAsUpdates(s: nat, cells: seq<seq<Piece>>, from: nat, d: Direction, t: nat, a: seq<Piece>, b: seq<Piece>)
    requires ValidCells(s, cells) && from < s * s && StepOk(s, cells, from, d, t)
    requires a == cells[from][..|cells[from]| - t]
    requires b == if t == 0 then cells[GoDirection(s, from, d).value]
                  else FlattenTop(cells[GoDirection(s, from, d).value]) + cells[from][|cells[from]| - t..]
    ensures Step(s, cells, from, d, t) == cells[from := a][GoDirection(s, from, d).value := b]
  {
    if t == 0 {
      assert a == cells[from];
    }
  }

  /**
   * The carry loop after the pieces `ps[leave..j]` have moved: `src` keeps the rest and `dst`
   * has them on top of its old pieces `qs`, whose top was flattened by the first `push`.
   */
  ghost predicate Carried(src: Stack, dst: Stack, ps: seq<Piece>, qs: seq<Piece>, leave: nat, j: nat)
  {
    && leave <= j <= |ps|
    && src.Valid() && dst.Valid()
    && src.Pieces() == ps[..leave] + ps[j..]
    && dst.Pieces() == if j == leave then qs else FlattenTop(qs) + ps[leave..j]
  }

  /** The state the carry loop keeps: `Carried`, and room on `dst` for the `n - j` pieces still to come. */
  ghost predicate CarryLoop(src: Stack, dst: Stack, ps: seq<Piece>, qs: seq<Piece>, leave: nat, j: nat, n: nat)
  {
    && j <= n == |ps| && StackShape(ps)
    && Carried(src, dst, ps, qs, leave, j)
    && dst.height + (n - j) <= MaxHeight
  }

  /** One round of the carry loop: `get` the lowest carried piece, `push` it, `remove` it. */
  method CarryOne(src: Stack, dst: Stack, ghost ps: seq<Piece>, ghost qs: seq<Piece>, leave: nat, j: nat, ghost n: nat)
    returns (src': Stack, dst': Stack)
    requires CarryLoop(src, dst, ps, qs, leave, j, n) && j < n
    ensures CarryLoop(src', dst', ps, qs, leave, j + 1, n)
  {
    GetPieces(src, leave);
    var piece := src.Get(leave).value;
    PushPieces(dst, piece);
    PushCarried(qs, ps, leave, j);
    dst' := dst.Push(piece);
    RemovePieces(src, leave);
    RemoveCarried(ps, leave, j);
    src' := src.Remove(leave).0;
  }

  /**
   * The inner loop of a spread step: the pieces of `src` above the first `leave` go, one at a
   * time and bottom first, onto `dst`. Each `push` flattens the piece below it, which is the old
   * top of `dst` the first time and a carried flat after that.
   */
  method Carry(src: Stack, dst: Stack, leave: nat) returns (src': Stack, dst': Stack)
    requires src.Valid() && dst.Valid() && leave <= src.height && dst.height + (src.height - leave) <= MaxHeight
    ensures src'.Valid() && dst'.Valid()
    ensures src'.Pieces() == src.Pieces()[..leave]
    ensures dst'.Pieces() ==
              if leave == src.height then dst.Pieces() else FlattenTop(dst.Pieces()) + src.Pieces()[leave..]
  {
    CarriedStart(src, dst, leave);
    src', dst' := CarryRest(src, dst, src.Pieces(), dst.Pieces(), leave, src.height);
    CarriedEnd(src, dst, src', dst', src.Pieces(), dst.Pieces(), leave, src.height, src.height);
  }

  /** The carry loop proper, from the first piece to move to the top of `src`. */
  method CarryRest(src: Stack, dst: Stack, ghost ps: seq<Piece>, ghost qs: seq<Piece>, leave: nat, n: nat)
    returns (src': Stack, dst': Stack)
    requires CarryLoop(src, dst, ps, qs, leave, leave, n)
    ensures CarryLoop(src', dst', ps, qs, leave, n, n)
  {
    src', dst' := src, dst;
    var j := leave;
    while j < n
      invariant leave <= j <= n && CarryLoop(src', dst', ps, qs, leave, j, n)
    {
      src', dst' := CarryOne(src', dst', ps, qs, leave, j, n);
      j := j + 1;
    }
  }

  /** Before the carry loop nothing has moved. */
  lemma CarriedStart(src: Stack, dst: Stack, leave: nat)
    requires src.Valid() && dst.Valid() && leave <= src.height && dst.height + (src.height - leave) <= MaxHeight
    ensures CarryLoop(src, dst, src.Pieces(), dst.Pieces(), leave, leave, src.height)
  {
    var ps := src.Pieces();
    PiecesShape(src);
    assert ps[..leave] + ps[leave..] == ps;
  }

  /** After the carry loop every piece above `leave` has moved. */
  lemma CarriedEnd(src: Stack, dst: Stack, src': Stack, dst': Stack, ps: seq<Piece>, qs: seq<Piece>, leave: nat, j: nat, n: nat)
    requires src.Valid() && dst.Valid() && ps == src.Pieces() && qs == dst.Pieces() && n == src.height
    requires CarryLoop(src', dst', ps, qs, leave, j, n) && j >= n
    ensures src'.Valid() && dst'.Valid() && src'.Pieces() == src.Pieces()[..leave]
    ensures dst'.Pieces() == if leave == src.height then dst.Pieces() else FlattenTop(dst.Pieces()) + src.Pieces()[leave..]
  {
    assert leave <= j == n == |ps|;
    assert ps[j..] == [] && ps[leave..j] == ps[leave..];
    assert ps[..leave] + ps[j..] == ps[..leave];
  }

  lemma PrefixSnoc<T>(xs: seq<T>, k: nat)
    requires k < |xs|
    ensures xs[..k + 1] == xs[..k] + [xs[k]]
  {
  }

  /** A stack's top as a piece sequence: `TopIs` read off the explicit top piece. */
  lemma TopIsStack(st: Stack, role: Role)
    requires st.Valid()
    ensures TopIs(st.Pieces(), role) <==> st.top.Some? && st.top.value.Role() == role
  {
  }

  /**
   * Where the movement loop stands after `k` steps from `start`: it is at `from` on the board
   * `cur`, the remaining steps can run and give the spread's result and end square, and a wall
   * is flattened by the spread exactly when one has been already or one will be.
   */
  predicate SpreadProgress(s: nat, start: seq<seq<Piece>>, sq: nat, d: Direction, takes: seq<nat>,
                           cur: seq<seq<Piece>>, from: nat, k: nat, flattens: bool)
  {
    && ValidCells(s, start) && sq < s * s && SpreadOk(s, start, sq, d, takes)
    && ValidCells(s, cur) && from < s * s && k <= |takes|
    && SpreadOk(s, cur, from, d, takes[k..])
    && SpreadCells(s, cur, from, d, takes[k..]) == SpreadCells(s, start, sq, d, takes)
    && SpreadFlattens(s, start, sq, d, takes) == (flattens || SpreadFlattens(s, cur, from, d, takes[k..]))
    && SpreadEnd(s, sq, d, takes) == SpreadEnd(s, from, d, takes[k..])
  }

  /** One more step keeps `SpreadProgress`. */
  lemma ProgressStep(s: nat, start: seq<seq<Piece>>, sq: nat, d: Direction, takes: seq<nat>,
                     cur: seq<seq<Piece>>, from: nat, k: nat, flattens: bool)
    requires SpreadProgress(s, start, sq, d, takes, cur, from, k, flattens) && k < |takes|
    ensures StepOk(s, cur, from, d, takes[k])
    ensures var to := GoDirection(s, from, d).value;
            SpreadProgress(s, start, sq, d, takes, Step(s, cur, from, d, takes[k]), to, k + 1,
                           flattens || TopIs(cur[to], Wall))
  {
    assert takes[k..][0] == takes[k] && takes[k..][1..] == takes[k + 1..];
    SpreadEndCons(s, from, d, takes[k..]);
  }

  /** After the last step the loop has the spread's result, end square and `flattens_stone`. */
  lemma ProgressDone(s: nat, start: seq<seq<Piece>>, sq: nat, d: Direction, takes: seq<nat>,
                     cur: seq<seq<Piece>>, from: nat, flattens: bool)
    requires SpreadProgress(s, start, sq, d, takes, cur, from, |takes|, flattens)
    ensures cur == SpreadCells(s, start, sq, d, takes)
    ensures from == SpreadEnd(s, sq, d, takes)
    ensures flattens == SpreadFlattens(s, start, sq, d, takes)
  {
    assert takes[|takes|..] == [];
  }

  class Board {
    /** The board size `S`. */
    const s: nat
    /** The Zobrist key tables. */
    const keys: Keys
    const cells: array<Stack>
    var toMove: Color
    var whiteStones: nat
    var blackStones: nat
    var whiteCaps: nat
    var blackCaps: nat
    var halfMoves: nat
    var moves: seq<Move>
    var hash: bv64
    var hashHistory: seq<bv64>

    /** A supported size, one square per cell, every stack well formed. */
    ghost predicate Valid()
      reads cells
    {
      ValidSize(s) && cells.Length == s * s && forall i :: 0 <= i < cells.Length ==> cells[i].Valid()
    }

    /** The pieces of every square. */
    ghost function Pieces(): (r: seq<seq<Piece>>)
      reads cells
      requires Valid()
      ensures ValidCells(s, r)
      ensures forall i :: 0 <= i < cells.Length ==> r[i] == cells[i].Pieces()
    {
      StackPieces(cells[..])
    }

    /** The board as a `Position` value. */
    ghost function Snapshot(): Position
      reads this, cells
      requires Valid()
    {
      Position(Pieces(), toMove, whiteStones, blackStones, whiteCaps, blackCaps, halfMoves, moves, hash, hashHistory)
    }

    /** `Board::default`. */
    constructor Default(size: nat, zobrist: Keys)
      requires ValidSize(size)
      ensures Valid() && Snapshot() == Start(size, zobrist)
      ensures s == size && keys == zobrist && fresh(cells)
    {
      s := size;
      keys := zobrist;
      cells := new Stack[size * size](_ => EmptyStack);
      toMove := White;
      whiteStones := StartingStones(size);
      blackStones := StartingStones(size);
      whiteCaps := StartingCaps(size);
      blackCaps := StartingCaps(size);
      halfMoves := 0;
      moves := [];
      hash := zobrist.toMove(White);
      hashHistory := [];
      new;
      assert Pieces() == EmptyCells(size * size);
    }

    /** `clone`: the same position on a fresh board with squares of its own. */
    constructor Clone(other: Board)
      requires other.Valid()
      ensures Valid() && s == other.s && keys == other.keys && fresh(cells)
      ensures Snapshot() == other.Snapshot()
    {
      s := other.s;
      keys := other.keys;
      cells := new Stack[other.cells.Length](i requires 0 <= i < other.cells.Length reads other.cells => other.cells[i]);
      toMove := other.toMove;
      whiteStones := other.whiteStones;
      blackStones := other.blackStones;
      whiteCaps := other.whiteCaps;
      blackCaps := other.blackCaps;
      halfMoves := other.halfMoves;
      moves := other.moves;
      hash := other.hash;
      hashHistory := other.hashHistory;
      new;
      assert cells[..] == other.cells[..];
    }

    /** `zobrist_hash_from_scratch`: the side-to-move key and the hash of every square. */
    method HashFromScratch() returns (h: bv64)
      requires Valid()
      ensures h == HashOf(keys, Pieces(), toMove)
    {
      var all := AllHashFor(keys, cells[..], SquareHashes(keys, Pieces()));
      h := Xor(keys.toMove(toMove), all);
    }

    /**
     * A `MoveIterator` loop of `do_move` or `reverse_move`: folds the hash of every square of
     * the path into the incremental hash.
     */
    method HashPath(sq: nat, d: Direction, n: nat)
      requires Valid() && sq < s * s
      modifies this`hash
      ensures hash == Xor(old(hash), PathHash(keys, Pieces(), Path(s, sq, d, n)))
    {
      var path := PathSquares(s, sq, d, n);
      var h := PathHashFor(keys, cells[..], path, SquareHashes(keys, Pieces()));
      hash := Xor(hash, h);
    }

    /** Writes back one stack. */
    method StoreOne(x: nat, a: Stack)
      requires Valid() && x < cells.Length && a.Valid()
      modifies cells
      ensures Valid() && cells[..] == old(cells[..])[x := a]
      ensures Pieces() == old(Pieces())[x := a.Pieces()]
    {
      cells[x] := a;
      assert forall i :: 0 <= i < cells.Length && i != x ==> cells[..][i] == old(cells[..])[i];
    }

    /** Writes back the two stacks a step changed. */
    method StoreTwo(x: nat, a: Stack, y: nat, b: Stack)
      requires Valid() && x < cells.Length && y < cells.Length && x != y && a.Valid() && b.Valid()
      modifies cells
      ensures Valid() && cells[..] == old(cells[..])[x := a][y := b]
      ensures Pieces() == old(Pieces())[x := a.Pieces()][y := b.Pieces()]
    {
      cells[x] := a;
      cells[y] := b;
      StackPiecesUpdate(old(cells[..]), cells[..], x, y);
    }

    /** One step of a spread: the top `t` pieces of `from` go to its neighbour in direction `d`. */
    method StepStacks(from: nat, d: Direction, t: nat) returns (to: nat)
      requires Valid() && from < s * s && StepOk(s, Pieces(), from, d, t)
      modifies cells
      ensures Valid() && to == GoDirection(s, from, d).value
      ensures Pieces() == Step(s, old(Pieces()), from, d, t)
    {
      to := GoDirection(s, from, d).value;
      var leave := cells[from].height - t;
      var a, b := Carry(cells[from], cells[to], leave);
      StepAsUpdates(s, Pieces(), from, d, t, a.Pieces(), b.Pieces());
      StoreTwo(from, a, to, b);
    }

    /**
     * The movement loop of `do_move` and `reverse_move`: runs the steps of a spread, noting on
     * the way whether a step lands on a wall and how many pieces each step took.
     */
    method RunSpread(sq: nat, d: Direction, takes: seq<nat>) returns (end: nat, flattens: bool, left: seq<nat>)
      requires Valid() && sq < s * s && SpreadOk(s, Pieces(), sq, d, takes)
      modifies cells
      ensures Valid() && Pieces() == SpreadCells(s, old(Pieces()), sq, d, takes)
      ensures end == SpreadEnd(s, sq, d, takes)
      ensures flattens == SpreadFlattens(s, old(Pieces()), sq, d, takes)
      ensures left == takes
    {
      ghost var start := Pieces();
      ghost var cur := start;
      var from: nat := sq;
      flattens := false;
      left := [];
      var k := 0;
      assert takes[0..] == takes;
      while k < |takes|
        invariant k <= |takes| && Valid() && cur == Pieces() && ValidCells(s, cur) && from < s * s
        invariant SpreadProgress(s, start, sq, d, takes, cur, from, k, flattens)
        invariant left == takes[..k]
      {
        var to := GoDirection(s, from, d).value;
        ProgressStep(s, start, sq, d, takes, cur, from, k, flattens);
        TopIsStack(cells[to], Wall);
        if cells[to].top.Some? && cells[to].top.value.Role() == Wall {
          flattens := true;
        }
        PrefixSnoc(takes, k);
        left := left + [takes[k]];
        to := StepStacks(from, d, takes[k]);
        cur := Step(s, cur, from, d, takes[k]);
        from := to;
        k := k + 1;
      }
      ProgressDone(s, start, sq, d, takes, cur, from, flattens);
      end := from;
    }

    // -------------------------------------------------------------------------
    // do_move

    /**
     * The placement branch of `do_move`: push the piece, take it from its reserve, add its key
     * to the hash and clear the hash history.
     */
    method PlaceStone(role: Role, sq: nat)
      requires Valid() && PlaceOk(s, Snapshot(), role, sq)
      modifies this, cells
      ensures Valid() && Snapshot() == AfterPlace(s, keys, old(Snapshot()), role, sq)
    {
      AfterPlaceSteps(s, keys, Snapshot(), role, sq);
      var c := if halfMoves > 1 then toMove else toMove.Opposite();
      var piece := FromRoleColor(role, c);
      PushOn(sq, piece);
      Spend(c, role);
      NewTop(keys.topStones(sq, piece));
    }

    /** Pushes one piece onto a square, flattening the stone it covers. */
    method PushOn(sq: nat, piece: Piece)
      requires Valid() && sq < cells.Length && cells[sq].height < MaxHeight
      modifies cells
      ensures Valid()
      ensures Snapshot() == old(Snapshot()).(cells := old(Pieces())[sq := FlattenTop(old(Pieces())[sq]) + [piece]])
    {
      PushPieces(cells[sq], piece);
      StoreOne(sq, cells[sq].Push(piece));
    }

    /** A placement's hash update; the position can no longer repeat an earlier one. */
    method NewTop(x: bv64)
      requires Valid()
      modifies this`hash, this`hashHistory
      ensures Valid() && Snapshot() == old(Snapshot()).(hash := Xor(old(hash), x), hashHistory := [])
    {
      hash := Xor(hash, x);
      hashHistory := [];
    }

    /** Takes a piece of that colour and kind from its reserve. */
    method Spend(c: Color, role: Role)
      requires Valid() && Reserve(Snapshot(), c, role) > 0
      modifies this`whiteStones, this`blackStones, this`whiteCaps, this`blackCaps
      ensures Valid() && Snapshot() == SetReserve(old(Snapshot()), c, role, Reserve(old(Snapshot()), c, role) - 1)
    {
      match (c, role)
      case (White, Flat) => whiteStones := whiteStones - 1;
      case (White, Wall) => whiteStones := whiteStones - 1;
      case (White, Cap) => whiteCaps := whiteCaps - 1;
      case (Black, Flat) => blackStones := blackStones - 1;
      case (Black, Wall) => blackStones := blackStones - 1;
      case (Black, Cap) => blackCaps := blackCaps - 1;
    }

    /**
     * The spread branch of `do_move`: re-hash the path around the movement loop, and build the
     * reverse move from the end square, the opposite direction and the counts in reverse order.
     */
    method SpreadStack(sq: nat, d: Direction, takes: seq<nat>) returns (rm: ReverseMove)
      requires Valid() && sq < s * s && SpreadOk(s, Pieces(), sq, d, takes)
      modifies this`hash, cells
      ensures Valid()
      ensures Pieces() == SpreadCells(s, old(Pieces()), sq, d, takes)
      ensures hash == Xor(Xor(old(hash), PathHash(keys, old(Pieces()), Path(s, sq, d, |takes|))),
                          PathHash(keys, Pieces(), Path(s, sq, d, |takes|)))
      ensures rm == SpreadReverse(s, old(Pieces()), sq, d, takes)
    {
      HashPath(sq, d, |takes|);
      var end, flattens, left := RunSpread(sq, d, takes);
      HashPath(sq, d, |takes|);
      rm := RevSpread(end, d.Reverse(), Reversed(left), flattens);
    }

    /** The end of `do_move`: record the move, count the ply, hand the move to the other side. */
    method EndTurn(m: Move)
      requires Valid()
      modifies this
      ensures Valid() && Snapshot() == Finish(keys, old(Snapshot()), m)
    {
      moves := moves + [m];
      halfMoves := halfMoves + 1;
      hash := Xor(hash, keys.toMove(toMove));
      toMove := toMove.Opposite();
      hash := Xor(hash, keys.toMove(toMove));
    }

    /** The first line of `do_move`: the current hash goes on the history. */
    method Remember()
      modifies this`hashHistory
      ensures hashHistory == old(hashHistory) + [hash]
    {
      hashHistory := hashHistory + [hash];
    }

    /** `do_move` on a placement. */
    method DoPlace(role: Role, sq: nat)
      requires Valid() && PlaceOk(s, Snapshot(), role, sq)
      modifies this, cells
      ensures Valid() && Snapshot() == PlaceSpec(s, keys, old(Snapshot()), role, sq)
    {
      ghost var p := Snapshot();
      Remember();
      assert PlaceOk(s, Snapshot(), role, sq);
      PlaceStone(role, sq);
      assert Snapshot() == AfterPlace(s, keys, p, role, sq);
      EndTurn(Place(role, sq));
    }

    /** `do_move` on a spread. */
    method DoSpread(sq: nat, d: Direction, takes: seq<nat>) returns (rm: ReverseMove)
      requires Valid() && SpreadMoveOk(s, Snapshot(), sq, d, takes)
      modifies this, cells
      ensures Valid() && Snapshot() == SpreadSpec(s, keys, old(Snapshot()), sq, d, takes)
      ensures rm == SpreadReverse(s, old(Pieces()), sq, d, takes)
    {
      ghost var p := Snapshot();
      Remember();
      rm := SpreadStack(sq, d, takes);
      assert Snapshot() == AfterSpread(s, keys, p, sq, d, takes);
      EndTurn(Spread(sq, d, takes));
    }

    /** `do_move`: plays `m` and returns the move that takes it back. */
    method DoMove(m: Move) returns (rm: ReverseMove)
      requires Valid() && MoveOk(s, Snapshot(), m)
      modifies this, cells
      ensures Valid() && (Snapshot(), rm) == DoSpec(s, keys, old(Snapshot()), m)
    {
      match m
      case Place(role, sq) =>
        DoPlace(role, sq);
        rm := RevPlace(sq);
      case Spread(sq, d, takes) =>
        rm := DoSpread(sq, d, takes);
    }

    // -------------------------------------------------------------------------
    // reverse_move

    /** Taking back a placement: pop the piece, remove its key, return it to its reserve. */
    method TakeBackPlace(sq: nat)
      requires Valid() && UnplaceOk(s, Snapshot(), sq)
      modifies this, cells
      ensures Valid() && Snapshot() == AfterUnplace(s, keys, old(Snapshot()), sq)
    {
      var (st, top) := cells[sq].Pop();
      PopPieces(cells[sq]);
      StoreOne(sq, st);
      var piece := top.value;
      hash := Xor(hash, keys.topStones(sq, piece));
      Refund(piece);
    }

    /** Returns a piece to its owner's reserve. */
    method Refund(piece: Piece)
      requires Valid()
      modifies this`whiteStones, this`blackStones, this`whiteCaps, this`blackCaps
      ensures Valid()
      ensures Snapshot() == SetReserve(old(Snapshot()), piece.Color(), piece.Role(),
                                       Reserve(old(Snapshot()), piece.Color(), piece.Role()) + 1)
    {
      match piece
      case WhiteFlat => whiteStones := whiteStones + 1;
      case WhiteWall => whiteStones := whiteStones + 1;
      case WhiteCap => whiteCaps := whiteCaps + 1;
      case BlackFlat => blackStones := blackStones + 1;
      case BlackWall => blackStones := blackStones + 1;
      case BlackCap => blackCaps := blackCaps + 1;
    }

    /**
     * Taking back a spread: re-hash the path around the movement loop and, when the spread had
     * flattened a wall, stand it back up on the square the reverse spread starts from.
     */
    method TakeBackSpread(from: nat, d: Direction, takes: seq<nat>, flattens: bool)
      requires Valid() && from < s * s && SpreadOk(s, Pieces(), from, d, takes)
      requires flattens ==> |SpreadCells(s, Pieces(), from, d, takes)[from]| > 0
      modifies this`hash, cells
      ensures Valid()
      ensures Pieces() == UndoSpreadCells(s, old(Pieces()), from, d, takes, flattens)
      ensures hash == Xor(Xor(old(hash), PathHash(keys, old(Pieces()), Path(s, from, d, |takes|))),
                          PathHash(keys, Pieces(), Path(s, from, d, |takes|)))
    {
      HashPath(from, d, |takes|);
      var _, _, _ := RunSpread(from, d, takes);
      if flattens {
        StandWall(from);
      }
      HashPath(from, d, |takes|);
    }

    /** `replace_top` with the wall of the top piece's colour. */
    method StandWall(sq: nat)
      requires Valid() && sq < s * s && |Pieces()[sq]| > 0
      modifies cells
      ensures Valid() && Pieces() == old(Pieces())[sq := RestoreWall(old(Pieces())[sq])]
    {
      var st := cells[sq];
      var wall := match st.top.value.Color() case White => WhiteWall case Black => BlackWall;
      ReplaceTopPieces(st, wall);
      assert st.ReplaceTop(wall).0.Pieces() == RestoreWall(st.Pieces());
      StoreOne(sq, st.ReplaceTop(wall).0);
    }

    /** The end of `reverse_move`: drop the last move and hash, uncount the ply, swap sides back. */
    method EndTakeBack()
      requires Valid() && halfMoves > 0
      modifies this
      ensures Valid() && Snapshot() == Unfinish(keys, old(Snapshot()))
    {
      moves := DropLast(moves);
      hashHistory := DropLast(hashHistory);
      halfMoves := halfMoves - 1;
      hash := Xor(hash, keys.toMove(toMove));
      toMove := toMove.Opposite();
      hash := Xor(hash, keys.toMove(toMove));
    }

    /** `reverse_move` on a placement. */
    method Unplace(sq: nat)
      requires Valid() && UnplaceOk(s, Snapshot(), sq)
      modifies this, cells
      ensures Valid() && Snapshot() == UnplaceSpec(s, keys, old(Snapshot()), sq)
    {
      TakeBackPlace(sq);
      EndTakeBack();
    }

    /** `reverse_move` on a spread. */
    method Unspread(sq: nat, d: Direction, takes: seq<nat>, flattens: bool)
      requires Valid() && UnspreadOk(s, Snapshot(), sq, d, takes, flattens)
      modifies this, cells
      ensures Valid() && Snapshot() == UnspreadSpec(s, keys, old(Snapshot()), sq, d, takes, flattens)
    {
      ghost var p := Snapshot();
      TakeBackSpread(sq, d, takes, flattens);
      assert Snapshot() == AfterUnspread(s, keys, p, sq, d, takes, flattens);
      EndTakeBack();
    }

    /** `reverse_move`: takes back the move that `rm` reverses. */
    method ReverseMove(rm: ReverseMove)
      requires Valid() && UndoOk(s, Snapshot(), rm)
      modifies this, cells
      ensures Valid() && Snapshot() == UndoSpec(s, keys, old(Snapshot()), rm)
    {
      match rm
      case RevPlace(sq) => Unplace(sq);
      case RevSpread(sq, d, takes, flattens) => Unspread(sq, d, takes, flattens);
    }

    // -------------------------------------------------------------------------
    // Symmetries

    /**
     * The square loops of `flip_board_y`, `flip_board_x` and `rotate_board`: file by file, each
     * square of this board gets the stack `src` has on the square `m` reads.
     */
    method CopyRearranged(src: Board, m: Symmetry)
      requires Valid() && src.Valid() && src.s == s && src.cells != cells
      modifies cells
      ensures Valid() && Pieces() == Remap(s, m, src.Pieces())
    {
      for x := 0 to s
        invariant Valid()
        invariant forall y', x' :: 0 <= y' < s && 0 <= x' < x ==>
          cells[FromRankFile(s, y', x')] == src.cells[SourceAt(s, m, y', x')]
      {
        CopyFile(src, m, x);
      }
      ghost var r := Remap(s, m, src.Pieces());
      forall sq | 0 <= sq < s * s
        ensures Pieces()[sq] == r[sq]
      {
        RankFileOf(s, sq);
        assert sq == FromRankFile(s, Rank(s, sq), File(s, sq));
      }
    }

    /** The inner loop: rank by rank, the squares of file `x`; the other files are left alone. */
    method CopyFile(src: Board, m: Symmetry, x: nat)
      requires Valid() && src.Valid() && src.s == s && src.cells != cells && x < s
      modifies cells
      ensures Valid()
      ensures forall y :: 0 <= y < s ==> cells[FromRankFile(s, y, x)] == src.cells[SourceAt(s, m, y, x)]
      ensures forall sq :: 0 <= sq < s * s && File(s, sq) != x ==> cells[sq] == old(cells[sq])
    {
      for y := 0 to s
        invariant Valid()
        invariant forall y' :: 0 <= y' < y ==> cells[FromRankFile(s, y', x)] == src.cells[SourceAt(s, m, y', x)]
        invariant forall sq :: 0 <= sq < s * s && File(s, sq) != x ==> cells[sq] == old(cells[sq])
      {
        var from := match m
          case FlipY => (s - y - 1) * s + x
          case FlipX => y * s + (s - x - 1)
          case Rotate => (s - x - 1) * s + y;
        assert from == SourceAt(s, m, y, x);
        assert y * s + x == FromRankFile(s, y, x);
        assert forall y' :: 0 <= y' < y ==> FromRankFile(s, y', x) != y * s + x;
        cells[y * s + x] := src.cells[from];
      }
    }

    /** `flip_board_y`, `flip_board_x` or `rotate_board`: a clone with its stacks rearranged by `m`. */
    method Rearranged(m: Symmetry) returns (nb: Board)
      requires Valid()
      ensures fresh(nb) && fresh(nb.cells) && nb.Valid() && nb.s == s && nb.keys == keys
      ensures nb.Snapshot() == Transform(s, m, Snapshot())
    {
      nb := new Board.Clone(this);
      nb.CopyRearranged(this, m);
    }

    /** The square loop of `flip_colors`: each square gets the stack of `src` rebuilt with its colours swapped. */
    method CopyFlipped(src: Board)
      requires Valid() && src.Valid() && src.s == s && src.cells != cells
      modifies cells
      ensures Valid() && Pieces() == FlipCells(src.Pieces())
    {
      for sq := 0 to s * s
        invariant Valid()
        invariant forall i :: 0 <= i < sq ==> cells[i].Pieces() == FlipStack(src.cells[i].Pieces())
      {
        var st := FlippedStack(src.cells[sq]);
        cells[sq] := st;
      }
    }

    /** `flip_colors`: a clone with every piece's colour swapped, the reserves swapped and the other side to move. */
    method FlipColors() returns (nb: Board)
      requires Valid()
      ensures fresh(nb) && fresh(nb.cells) && nb.Valid() && nb.s == s && nb.keys == keys
      ensures nb.Snapshot() == ColorsFlipped(Snapshot())
    {
      nb := new Board.Clone(this);
      nb.CopyFlipped(this);
      nb.whiteStones, nb.blackStones := nb.blackStones, nb.whiteStones;
      nb.whiteCaps, nb.blackCaps := nb.blackCaps, nb.whiteCaps;
      nb.toMove := nb.toMove.Opposite();
    }
  }
}
