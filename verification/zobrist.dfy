/**
 * Zobrist hashing of a position (`zobrist_hash_for_square`, `zobrist_hash_from_scratch` in
 * board.rs). The random key tables are inputs here: a `Keys` value gives one 64-bit key per
 * (square, piece), per (place in stack, square, byte of layer bits) and per side to move.
 */
module Zobrist {
  import opened Pieces
  import opened BitBoards
  import opened Stacks

  datatype Keys = Keys(
    topStones: (nat, Piece) -> bv64,
    stonesInStack: (nat, nat, nat) -> bv64,
    toMove: Color -> bv64)

  /**
   * 64-bit exclusive or. Hashes are combined only through this function, and the algebra the
   * proofs need is stated once in the lemmas below.
   */
  function Xor(a: bv64, b: bv64): bv64
  {
    a ^ b
  }

  lemma XorAssoc(a: bv64, b: bv64, c: bv64)
    ensures Xor(Xor(a, b), c) == Xor(a, Xor(b, c))
  {
  }

  lemma XorComm(a: bv64, b: bv64)
    ensures Xor(a, b) == Xor(b, a)
  {
  }

  lemma XorZero(a: bv64)
    ensures Xor(a, 0) == a && Xor(0, a) == a
  {
  }

  lemma XorSelf(a: bv64)
    ensures Xor(a, a) == 0
  {
  }

  /** XOR-ing the same key in twice cancels out. */
  lemma XorCancel(a: bv64, x: bv64)
    ensures Xor(Xor(a, x), x) == a
  {
    XorAssoc(a, x, x);
    XorSelf(x);
    XorZero(a);
  }

  lemma XorMoves(a: bv64, x: bv64, y: bv64)
    ensures Xor(a, y) == Xor(Xor(a, x), Xor(x, y))
  {
    calc {
      Xor(Xor(a, x), Xor(x, y));
      { XorAssoc(a, x, Xor(x, y)); }
      Xor(a, Xor(x, Xor(x, y)));
      { XorAssoc(x, x, y); XorSelf(x); XorZero(y); }
      Xor(a, y);
    }
  }

  lemma XorSwapLast(a: bv64, x: bv64, y: bv64)
    ensures Xor(Xor(a, x), y) == Xor(Xor(a, y), x)
  {
    calc {
      Xor(Xor(a, x), y);
      { XorAssoc(a, x, y); XorComm(x, y); }
      Xor(a, Xor(y, x));
      { XorAssoc(a, y, x); }
      Xor(Xor(a, y), x);
    }
  }

  lemma XorRegroup(h: bv64, a: bv64, b: bv64, x: bv64, y: bv64)
    ensures Xor(Xor(Xor(h, a), b), Xor(x, y)) == Xor(Xor(h, Xor(a, x)), Xor(b, y))
  {
    calc {
      Xor(Xor(Xor(h, a), b), Xor(x, y));
      { XorAssoc(Xor(h, a), b, Xor(x, y)); }
      Xor(Xor(h, a), Xor(b, Xor(x, y)));
      { XorAssoc(x, y, b); XorComm(b, Xor(x, y)); }
      Xor(Xor(h, a), Xor(x, Xor(y, b)));
      { XorComm(y, b); XorAssoc(Xor(h, a), x, Xor(b, y)); }
      Xor(Xor(Xor(h, a), x), Xor(b, y));
      { XorAssoc(h, a, x); }
      Xor(Xor(h, Xor(a, x)), Xor(b, y));
    }
  }

  function Pow2(k: nat): (r: nat)
    ensures r >= 1
  {
    if k == 0 then 1 else 2 * Pow2(k - 1)
  }

  /** The `k` layer bits starting at `base`, read as a little-endian number. */
  function BitsValue(layers: BitBoard, base: nat, k: nat): (r: nat)
    ensures r < Pow2(k)
    decreases k
  {
    if k == 0 then 0
    else (if base in layers then 1 else 0) + 2 * BitsValue(layers, base + 1, k - 1)
  }

  /** `(bitboard >> (i * 8)) & 255`: the `i`-th byte of the layer word. */
  function LayerByte(layers: BitBoard, i: nat): (r: nat)
    ensures r < 256
  {
    assert Pow2(8) == 256;
    BitsValue(layers, 8 * i, 8)
  }

  /** Layer `j` of a stack of pieces is a white flat: the layer word has bit `j` set. */
  predicate WhiteLayer(ps: seq<Piece>, j: nat)
  {
    j + 1 < |ps| && ps[j].Color() == White
  }

  /** `BitsValue`, read off the pieces. */
  function PiecesBitsValue(ps: seq<Piece>, base: nat, k: nat): (r: nat)
    ensures r < Pow2(k)
    decreases k
  {
    if k == 0 then 0
    else (if WhiteLayer(ps, base) then 1 else 0) + 2 * PiecesBitsValue(ps, base + 1, k - 1)
  }

  /** The layer word's bits are the colours of the pieces below the top. */
  lemma {:induction false} BitsValueOfPieces(st: Stack, base: nat, k: nat)
    requires st.Valid()
    ensures BitsValue(st.layers, base, k) == PiecesBitsValue(st.Pieces(), base, k)
    decreases k
  {
    if k > 0 {
      BitsValueOfPieces(st, base + 1, k - 1);
      if base + 1 < st.height {
        assert st.Pieces()[base] == st.Layer(base);
      }
    }
  }

  /** The keys for the first `n` whole bytes of the layer word. */
  function LayerKeys(keys: Keys, sq: nat, ps: seq<Piece>, n: nat): bv64
  {
    if n == 0 then 0
    else Xor(LayerKeys(keys, sq, ps, n - 1), LayerKey(keys, sq, ps, n - 1))
  }

  /** The key for byte `i` of the layer word, chosen by the colours of its eight layers. */
  function LayerKey(keys: Keys, sq: nat, ps: seq<Piece>, i: nat): bv64
  {
    keys.stonesInStack(i, sq, PiecesBitsValue(ps, 8 * i, 8))
  }

  /** `LayerKeys`, read off the layer word of a stack. */
  function WordKeys(keys: Keys, sq: nat, layers: BitBoard, n: nat): bv64
  {
    if n == 0 then 0
    else Xor(WordKeys(keys, sq, layers, n - 1), WordKey(keys, sq, layers, n - 1))
  }

  /** The key for byte `i` of the layer word. */
  function WordKey(keys: Keys, sq: nat, layers: BitBoard, i: nat): bv64
  {
    keys.stonesInStack(i, sq, LayerByte(layers, i))
  }

  /** A byte of the layer word selects the same key as the colours of its eight layers. */
  lemma ByteKeyOfPieces(keys: Keys, sq: nat, st: Stack, i: nat)
    requires st.Valid()
    ensures WordKey(keys, sq, st.layers, i) == LayerKey(keys, sq, st.Pieces(), i)
  {
    BitsValueOfPieces(st, 8 * i, 8);
  }

  /** Folds of equal keys are equal. */
  lemma {:induction false} KeysAgree(keys: Keys, sq: nat, layers: BitBoard, ps: seq<Piece>, n: nat)
    requires forall i :: 0 <= i < n ==> WordKey(keys, sq, layers, i) == LayerKey(keys, sq, ps, i)
    ensures WordKeys(keys, sq, layers, n) == LayerKeys(keys, sq, ps, n)
  {
    if n > 0 {
      KeysAgree(keys, sq, layers, ps, n - 1);
    }
  }

  /** The keys read off the layer word are the keys of the pieces below the top. */
  lemma WordKeysOfPieces(keys: Keys, sq: nat, st: Stack, n: nat)
    requires st.Valid()
    ensures WordKeys(keys, sq, st.layers, n) == LayerKeys(keys, sq, st.Pieces(), n)
  {
    forall i | 0 <= i < n
      ensures WordKey(keys, sq, st.layers, i) == LayerKey(keys, sq, st.Pieces(), i)
    {
      ByteKeyOfPieces(keys, sq, st, i);
    }
    KeysAgree(keys, sq, st.layers, st.Pieces(), n);
  }

  /**
   * `zobrist_hash_for_square`: the top piece's key, and one key per whole group of eight layers
   * below the top, chosen by the colours in that group. An empty square hashes to 0; a stack of
   * at most eight pieces hashes on its top piece alone.
   */
  function SquareHash(keys: Keys, sq: nat, ps: seq<Piece>): (r: bv64)
    ensures |ps| == 0 ==> r == 0
    ensures 1 <= |ps| <= 8 ==> r == keys.topStones(sq, ps[|ps| - 1])
  {
    if |ps| == 0 then 0
    else Xor(keys.topStones(sq, ps[|ps| - 1]), LayerKeys(keys, sq, ps, (|ps| - 1) / 8))
  }

  /** The hash of every square, in square order. */
  function SquareHashes(keys: Keys, cells: seq<seq<Piece>>): (hs: seq<bv64>)
    ensures |hs| == |cells|
    ensures forall i :: 0 <= i < |cells| ==> hs[i] == SquareHash(keys, i, cells[i])
  {
    seq(|cells|, i requires 0 <= i < |cells| => SquareHash(keys, i, cells[i]))
  }

  /** XOR of all the values, left to right. */
  function XorAll(hs: seq<bv64>): bv64
  {
    if hs == [] then 0 else Xor(XorAll(hs[..|hs| - 1]), hs[|hs| - 1])
  }

  /** `zobrist_hash_from_scratch`: the side-to-move key and every square's hash. */
  function HashOf(keys: Keys, cells: seq<seq<Piece>>, toMove: Color): bv64
  {
    Xor(keys.toMove(toMove), XorAll(SquareHashes(keys, cells)))
  }

  /** XOR of the values at the listed indices. */
  function XorAt(hs: seq<bv64>, idx: seq<nat>): bv64
    requires forall k :: 0 <= k < |idx| ==> idx[k] < |hs|
  {
    if idx == [] then 0 else Xor(XorAt(hs, idx[..|idx| - 1]), hs[idx[|idx| - 1]])
  }

  /** Replacing one value changes the XOR by the old and the new value. */
  lemma {:induction false} XorAllUpdate(hs: seq<bv64>, i: nat, x: bv64)
    requires i < |hs|
    ensures XorAll(hs[i := x]) == Xor(XorAll(hs), Xor(hs[i], x))
  {
    var hs' := hs[i := x];
    var n := |hs|;
    assert hs'[..n - 1] == if i == n - 1 then hs[..n - 1] else hs[..n - 1][i := x];
    var a := XorAll(hs[..n - 1]);
    if i == n - 1 {
      XorMoves(a, hs[i], x);
    } else {
      XorAllUpdate(hs[..n - 1], i, x);
      XorSwapLast(a, Xor(hs[i], x), hs[n - 1]);
    }
  }

  /** Values at indices outside the list do not change the XOR over the list. */
  lemma {:induction false} XorAtFrame(hs: seq<bv64>, i: nat, x: bv64, idx: seq<nat>)
    requires i < |hs| && i !in idx
    requires forall k :: 0 <= k < |idx| ==> idx[k] < |hs|
    ensures XorAt(hs[i := x], idx) == XorAt(hs, idx)
  {
    if idx != [] {
      XorAtFrame(hs, i, x, idx[..|idx| - 1]);
    }
  }

  /**
   * The incremental update of `do_move` and `reverse_move`: when only the values at the listed
   * (distinct) indices change, XOR-ing out the old ones and XOR-ing in the new ones gives the XOR
   * of the new values.
   */
  lemma {:induction false} XorAllChanges(hs: seq<bv64>, hs': seq<bv64>, idx: seq<nat>)
    requires |hs| == |hs'|
    requires forall k :: 0 <= k < |idx| ==> idx[k] < |hs|
    requires forall k, l :: 0 <= k < l < |idx| ==> idx[k] != idx[l]
    requires forall i :: 0 <= i < |hs| && i !in idx ==> hs[i] == hs'[i]
    ensures XorAll(hs') == Xor(Xor(XorAll(hs), XorAt(hs, idx)), XorAt(hs', idx))
    decreases |idx|
  {
    if idx == [] {
      assert hs == hs';
      XorZero(XorAll(hs));
      XorZero(Xor(XorAll(hs), 0));
    } else {
      var q := idx[|idx| - 1];
      var rest := idx[..|idx| - 1];
      var mid := hs'[q := hs[q]];
      assert q !in rest;
      XorAllChanges(hs, mid, rest);
      XorAtFrame(hs', q, hs[q], rest);
      XorAllUpdate(mid, q, hs'[q]);
      assert mid[q := hs'[q]] == hs';
      XorRegroup(XorAll(hs), XorAt(hs, rest), XorAt(hs', rest), hs[q], hs'[q]);
    }
  }

  /** The per-square hashes after replacing one square. */
  lemma SquareHashesUpdate(keys: Keys, cells: seq<seq<Piece>>, i: nat, v: seq<Piece>)
    requires i < |cells|
    ensures SquareHashes(keys, cells[i := v]) == SquareHashes(keys, cells)[i := SquareHash(keys, i, v)]
  {
  }

  /** Three XORs into a hash regroup around the first. */
  lemma XorShift(k: bv64, a: bv64, x: bv64, y: bv64)
    ensures Xor(Xor(Xor(k, a), x), y) == Xor(k, Xor(Xor(a, x), y))
  {
    XorAssoc(k, a, x);
    XorAssoc(k, Xor(a, x), y);
  }

  /**
   * When only the squares on a path (listed once each) change, XOR-ing out their old hashes and
   * XOR-ing in their new ones turns the XOR of all square hashes into the new one.
   */
  lemma HashChanges(keys: Keys, cells: seq<seq<Piece>>, cells': seq<seq<Piece>>, path: seq<nat>)
    requires |cells| == |cells'|
    requires forall k :: 0 <= k < |path| ==> path[k] < |cells|
    requires forall k, l :: 0 <= k < l < |path| ==> path[k] != path[l]
    requires forall i :: 0 <= i < |cells| && i !in path ==> cells[i] == cells'[i]
    ensures XorAll(SquareHashes(keys, cells')) ==
            Xor(Xor(XorAll(SquareHashes(keys, cells)), XorAt(SquareHashes(keys, cells), path)),
                XorAt(SquareHashes(keys, cells'), path))
  {
    XorAllChanges(SquareHashes(keys, cells), SquareHashes(keys, cells'), path);
  }

  /** `HashChanges`, for the whole hash with the side-to-move key. */
  lemma HashOfChanges(keys: Keys, cells: seq<seq<Piece>>, cells': seq<seq<Piece>>, path: seq<nat>, c: Color)
    requires |cells| == |cells'|
    requires forall k :: 0 <= k < |path| ==> path[k] < |cells|
    requires forall k, l :: 0 <= k < l < |path| ==> path[k] != path[l]
    requires forall i :: 0 <= i < |cells| && i !in path ==> cells[i] == cells'[i]
    ensures HashOf(keys, cells', c) ==
            Xor(Xor(HashOf(keys, cells, c), XorAt(SquareHashes(keys, cells), path)), XorAt(SquareHashes(keys, cells'), path))
  {
    HashChanges(keys, cells, cells', path);
    XorShift(keys.toMove(c), XorAll(SquareHashes(keys, cells)), XorAt(SquareHashes(keys, cells), path),
             XorAt(SquareHashes(keys, cells'), path));
  }

  /** Changing one square changes the hash by that square's old and new hash. */
  lemma HashOfUpdate(keys: Keys, cells: seq<seq<Piece>>, i: nat, v: seq<Piece>, c: Color)
    requires i < |cells|
    ensures HashOf(keys, cells[i := v], c) ==
            Xor(HashOf(keys, cells, c), Xor(SquareHash(keys, i, cells[i]), SquareHash(keys, i, v)))
  {
    var hs := SquareHashes(keys, cells);
    SquareHashesUpdate(keys, cells, i, v);
    XorAllUpdate(hs, i, SquareHash(keys, i, v));
    XorAssoc(keys.toMove(c), XorAll(hs), Xor(hs[i], SquareHash(keys, i, v)));
  }
}
