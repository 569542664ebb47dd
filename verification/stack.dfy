/**
 * The contents of one square (`Stack` in board.rs): an explicit top piece, a height, and one
 * bit per lower layer that records its colour. Every lower layer is a flat, so the bits are
 * enough to rebuild it. Layer 0 is the bottom of the stack.
 */
module Stacks {
  import opened Wrappers
  import opened Pieces
  import opened BitBoards

  /** The tallest stack whose lower layers fit in the 64-bit layer word. */
  const MaxHeight := 65

  datatype Stack = Stack(top: Option<Piece>, layers: BitBoard, height: nat) {

    /** The representation invariant: a top exactly when non-empty, no bits at or above the top. */
    predicate Valid()
    {
      && (height == 0 <==> top.None?)
      && (forall i: nat :: i in layers ==> i + 1 < height)
      && height <= MaxHeight
    }

    /** The flat a layer bit stands for. */
    function Layer(i: nat): Piece
    {
      if i in layers then WhiteFlat else BlackFlat
    }

    /** The pieces from the bottom up. */
    function Pieces(): (ps: seq<Piece>)
      requires Valid()
      ensures |ps| == height
      ensures height > 0 ==> ps[height - 1] == top.value
      ensures forall i :: 0 <= i < height - 1 ==> ps[i].Role() == Flat
    {
      if height == 0 then []
      else seq(height - 1, i requires 0 <= i < height - 1 => Layer(i)) + [top.value]
    }

    /** `Stack::get`: the piece at index `i`, None above the top. */
    function Get(i: nat): (r: Option<Piece>)
      requires Valid()
      ensures r.None? <==> i >= height
      ensures i == height - 1 ==> r == top
    {
      if i >= height then None
      else if i == height - 1 then top
      else if i in layers then Some(WhiteFlat)
      else Some(BlackFlat)
    }

    /** `Stack::push`: the old top is flattened into the layer bits. */
    function Push(p: Piece): (r: Stack)
      requires Valid() && height < MaxHeight
      ensures r.Valid() && r.height == height + 1 && r.top == Some(p)
    {
      var layers' := if height > 0 && top.value.Color() == White then Set(layers, height - 1) else layers;
      Stack(Some(p), layers', height + 1)
    }

    /**
     * `Stack::pop`: removes the top and returns it; the piece below comes back as a flat of
     * its colour (a flattened wall or capstone is not restored).
     */
    function Pop(): (r: (Stack, Option<Piece>))
      requires Valid() && height != 0
      ensures r.0.Valid() && r.0.height == height - 1
      ensures r.1 == top
    {
      if height > 1 then
        var piece := if Get(height - 2) == Some(WhiteFlat) then WhiteFlat else BlackFlat;
        (Stack(Some(piece), Clear(layers, height - 2), height - 1), top)
      else
        (Stack(None, layers, 0), top)
    }

    /** `Stack::replace_top`: swaps the top piece and returns the old one. */
    function ReplaceTop(p: Piece): (r: (Stack, Option<Piece>))
      requires Valid() && height > 0
      ensures r.0.Valid() && r.1 == top
      ensures r.0.height == height && r.0.top == Some(p)
    {
      (Stack(Some(p), layers, height), top)
    }

    /**
     * `Stack::remove`: takes out the piece at index `i`. Below the top the layer bits above `i`
     * shift down one place; at the top it is `pop`.
     */
    function Remove(i: nat): (r: (Stack, Piece))
      requires Valid() && i < height
      ensures r.0.Valid() && r.0.height == height - 1
      ensures Some(r.1) == Get(i)
    {
      if i == height - 1 then
        var (st, p) := Pop();
        (st, p.value)
      else
        var piece := if Get(i) == Some(WhiteFlat) then WhiteFlat else BlackFlat;
        var below := layers * LowerNBits(i);
        var above := layers * Not(LowerNBits(i + 1));
        (Stack(top, below + ShiftRight(above), height - 1), piece)
    }

    /** `Stack::len` */
    function Len(): nat
    {
      height
    }

    predicate IsEmpty()
    {
      height == 0
    }
  }

  const EmptyStack := Stack(None, {}, 0)

  /** The flat of the same colour, for any piece. */
  function FlatOf(p: Piece): (r: Piece)
    ensures r.Role() == Flat && r.Color() == p.Color()
  {
    FromRoleColor(Flat, p.Color())
  }

  /** Replaces the top piece of a piece sequence by the flat of its colour. */
  function FlattenTop(ps: seq<Piece>): (r: seq<Piece>)
    ensures |r| == |ps|
    ensures |ps| > 0 ==> r == ps[..|ps| - 1] + [FlatOf(ps[|ps| - 1])]
  {
    if |ps| == 0 then [] else ps[..|ps| - 1] + [FlatOf(ps[|ps| - 1])]
  }

  // ---------------------------------------------------------------------------
  // The stack operations on the pieces, bottom to top

  /** `get(i)` reads the `i`-th piece from the bottom. */
  lemma GetPieces(st: Stack, i: nat)
    requires st.Valid() && i < st.height
    ensures st.Get(i) == Some(st.Pieces()[i])
  {
  }

  /** `push` puts the piece on top and flattens the old top. */
  lemma PushPieces(st: Stack, p: Piece)
    requires st.Valid() && st.height < MaxHeight
    ensures st.Push(p).Pieces() == FlattenTop(st.Pieces()) + [p]
  {
    var r := st.Push(p);
    assert forall i :: 0 <= i < st.height - 1 ==> r.Layer(i) == st.Layer(i);
  }

  /** `pop` removes the top piece and keeps the rest. */
  lemma PopPieces(st: Stack)
    requires st.Valid() && st.height != 0
    ensures st.Pop().0.Pieces() == st.Pieces()[..st.height - 1]
  {
    var r := st.Pop().0;
    assert forall i :: 0 <= i < st.height - 2 ==> r.Layer(i) == st.Layer(i);
  }

  /** `replace_top` changes the top piece and keeps the rest. */
  lemma ReplaceTopPieces(st: Stack, p: Piece)
    requires st.Valid() && st.height > 0
    ensures st.ReplaceTop(p).0.Pieces() == st.Pieces()[..st.height - 1] + [p]
  {
    var r := st.ReplaceTop(p).0;
    assert forall i :: 0 <= i < st.height - 1 ==> r.Layer(i) == st.Layer(i);
  }

  /** Below the top, the pieces are the flats the layer bits stand for. */
  lemma PiecesLayer(st: Stack, j: nat)
    requires st.Valid() && j < st.height - 1
    ensures st.Pieces()[j] == st.Layer(j)
  {
  }

  /** Below a removed layer the bits stay, above it they move down one place. */
  lemma RemoveLayer(st: Stack, i: nat, j: nat)
    requires st.Valid() && i < st.height - 1 && j < st.height - 2
    ensures st.Remove(i).0.Layer(j) == if j < i then st.Layer(j) else st.Layer(j + 1)
  {
    var below := st.layers * LowerNBits(i);
    var above := st.layers * Not(LowerNBits(i + 1));
    assert j in st.Remove(i).0.layers <==> j in below || j in ShiftRight(above);
  }

  /** `remove(i)` returns the `i`-th piece and closes the gap it leaves. */
  lemma RemovePieces(st: Stack, i: nat)
    requires st.Valid() && i < st.height
    ensures st.Remove(i).1 == st.Pieces()[i]
    ensures st.Remove(i).0.Pieces() == st.Pieces()[..i] + st.Pieces()[i + 1..]
  {
    if i == st.height - 1 {
      PopPieces(st);
    } else {
      var r := st.Remove(i).0;
      var a, b := st.Pieces(), r.Pieces();
      var e := a[..i] + a[i + 1..];
      forall j | 0 <= j < |b|
        ensures b[j] == e[j]
      {
        if j == |b| - 1 {
          assert b[j] == st.top.value == e[j];
        } else if j < i {
          RemoveLayer(st, i, j);
          PiecesLayer(r, j);
          PiecesLayer(st, j);
          assert e[j] == a[j];
        } else {
          RemoveLayer(st, i, j);
          PiecesLayer(r, j);
          PiecesLayer(st, j + 1);
          assert e[j] == a[j + 1];
        }
      }
      assert b == e;
    }
  }

  /** A valid stack is determined by its pieces: the representation is canonical. */
  lemma PiecesDetermineStack(a: Stack, b: Stack)
    requires a.Valid() && b.Valid() && a.Pieces() == b.Pieces()
    ensures a == b
  {
    assert a.height == b.height;
    if a.height > 0 {
      assert a.top.value == a.Pieces()[a.height - 1];
    }
    forall i: nat | i in a.layers
      ensures i in b.layers
    {
      assert a.Pieces()[i] == a.Layer(i);
    }
    forall i: nat | i in b.layers
      ensures i in a.layers
    {
      assert b.Pieces()[i] == b.Layer(i);
    }
  }

  /**
   * Pushing and then popping returns the pushed piece, and gives back the old stack with its
   * top flattened: the old stack itself exactly when it was empty or had a flat on top.
   */
  lemma PushPop(st: Stack, p: Piece)
    requires st.Valid() && st.height < MaxHeight
    ensures st.Push(p).Pop().1 == Some(p)
    ensures st.Push(p).Pop().0.Pieces() == FlattenTop(st.Pieces())
    ensures st.Push(p).Pop().0 == st <==> st.height == 0 || st.top.value.Role() == Flat
  {
    var back := st.Push(p).Pop().0;
    if st.height > 0 && st.top.value.Role() == Flat {
      assert FlatOf(st.top.value) == st.top.value by {
        FromRoleColorOfPiece(st.top.value);
      }
      assert FlattenTop(st.Pieces()) == st.Pieces();
      PiecesDetermineStack(back, st);
    } else if st.height == 0 {
      PiecesDetermineStack(back, st);
    } else {
      assert back.top.value.Role() == Flat by {
        assert back.Pieces()[st.height - 1] == FlatOf(st.top.value);
      }
    }
  }

  /**
   * `remove(i)` below the top: the height drops by one, the removed piece is the old `get(i)`,
   * the top stays, the bits below `i` stay and the bits above `i` shift down by one.
   */
  lemma RemoveBelowTop(st: Stack, i: nat)
    requires st.Valid() && i < st.height - 1
    ensures st.Remove(i).0.height == st.height - 1
    ensures Some(st.Remove(i).1) == st.Get(i)
    ensures st.Remove(i).0.top == st.top
    ensures forall j: nat :: j < i ==> (j in st.Remove(i).0.layers <==> j in st.layers)
    ensures forall j: nat :: j >= i ==> (j in st.Remove(i).0.layers <==> j + 1 in st.layers)
  {
  }

  /** `remove(0)` yields the bottom piece and leaves the ones above it. */
  lemma RemoveBottom(st: Stack)
    requires st.Valid() && st.height > 0
    ensures st.Remove(0).0.Valid()
    ensures st.Pieces() == [st.Remove(0).1] + st.Remove(0).0.Pieces()
  {
    RemovePieces(st, 0);
  }

  /** `StackIterator`: takes out the bottom piece with `remove(0)` until the stack is empty. */
  method Iterate(st: Stack) returns (ps: seq<Piece>)
    requires st.Valid()
    ensures ps == st.Pieces()
  {
    var rest := st;
    ps := [];
    while rest.height != 0
      invariant rest.Valid()
      invariant ps + rest.Pieces() == st.Pieces()
      decreases rest.height
    {
      var next := rest.Remove(0);
      RemoveBottom(rest);
      ps := ps + [next.1];
      rest := next.0;
    }
  }

  /** Repeated `push` onto the empty stack: the stack the `StackIterator` pieces rebuild. */
  function FromPieces(ps: seq<Piece>): (r: Stack)
    requires |ps| <= MaxHeight
    ensures r.Valid()
    ensures r.Pieces() == FlattenAllButTop(ps)
  {
    if |ps| == 0 then EmptyStack
    else
      var below := FromPieces(ps[..|ps| - 1]);
      assert FlattenTop(FlattenAllButTop(ps[..|ps| - 1])) == FlattenAllButTop(ps)[..|ps| - 1];
      PushPieces(below, ps[|ps| - 1]);
      below.Push(ps[|ps| - 1])
  }

  /** Every piece but the last as the flat of its colour. */
  function FlattenAllButTop(ps: seq<Piece>): (r: seq<Piece>)
    ensures |r| == |ps|
    ensures |ps| > 0 ==> r[|ps| - 1] == ps[|ps| - 1]
    ensures forall i :: 0 <= i < |ps| - 1 ==> r[i] == FlatOf(ps[i])
  {
    seq(|ps|, i requires 0 <= i < |ps| => if i == |ps| - 1 then ps[i] else FlatOf(ps[i]))
  }
}
