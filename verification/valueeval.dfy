/**
 * The hand-written value evaluation (value_eval.rs): one pass over a position and its group
 * data that adds feature values into the named sub-ranges of the value coefficient vector.
 *
 * The coefficient vector is an `array<real>` split by a `ValueFeatures` layout. Every write
 * the evaluation makes is an `Update` (`field[index] += amount` or `field[index] = value`);
 * each step of the evaluation is a method that performs its writes in the source's order and
 * is proved to leave the array equal to `Apply` of a list of updates, and the properties of
 * the evaluation are stated about those lists.
 */
module ValueEval {
  import opened Wrappers
  import opened Pieces
  import opened Squares
  import opened BitBoards
  import opened Spreads
  import opened Groups
  import opened Parameters
  import opened Seqs
  import opened GameResults
  import opened Positions

  // ---------------------------------------------------------------------------
  // Coefficient updates

  /** One write into a named sub-range of the coefficients. */
  datatype Update = Add(field: nat, index: nat, amount: real) | Put(field: nat, index: nat, value: real)

  /** The width of each named sub-range, as `ValueFeatures::new` splits them off. */
  function Width(s: nat, field: nat): nat
  {
    if field < 5 then NumSquareSymmetries(s)
    else if field < 8 then 3
    else if field == Parameters.CriticalSquares then 6
    else if field < 15 then 1
    else if field < 18 then s + 1
    else 0
  }

  lemma WidthIsValueWidth(s: nat, field: nat)
    requires field < 18
    ensures Width(s, field) == ValueWidths(s)[field]
  {
  }

  /** `vf` splits a coefficient vector of length `n` as `ValueFeatures::new` does for size `s`. */
  predicate Layout(s: nat, vf: ValueFeatures, n: nat)
  {
    EvalSize(s) && Tiles(vf.fields, ValueWidths(s), 0) && n == Sum(ValueWidths(s))
  }

  /** The update indexes inside its sub-range (otherwise the slice index panics). */
  predicate InBounds(s: nat, u: Update)
  {
    u.field < 18 && u.index < Width(s, u.field)
  }

  /** Where `field[index]` sits in the whole vector. */
  function Slot(vf: ValueFeatures, field: nat, index: nat): nat
  {
    if field < |vf.fields| then vf.fields[field].start + index else 0
  }

  /** An index inside its sub-range is inside that sub-range of the vector. */
  lemma SlotBound(s: nat, vf: ValueFeatures, n: nat, field: nat, index: nat)
    requires Layout(s, vf, n) && field < 18 && index < Width(s, field)
    ensures vf.fields[field].start <= Slot(vf, field, index) < vf.fields[field].End() <= n
  {
    var ws := ValueWidths(s);
    WidthIsValueWidth(s, field);
    assert ws[..field + 1] == ws[..field] + [ws[field]];
    SumOfParts(ws[..field], [ws[field]]);
    SumPrefixMono(ws, field + 1, 18);
    assert ws[..18] == ws;
  }

  /** Different in-bounds coefficients are different cells of the vector. */
  lemma SlotsDistinct(s: nat, vf: ValueFeatures, n: nat, f1: nat, i1: nat, f2: nat, i2: nat)
    requires Layout(s, vf, n) && f1 < 18 && i1 < Width(s, f1) && f2 < 18 && i2 < Width(s, f2)
    requires f1 != f2 || i1 != i2
    ensures Slot(vf, f1, i1) != Slot(vf, f2, i2)
  {
    SlotBound(s, vf, n, f1, i1);
    SlotBound(s, vf, n, f2, i2);
    if f1 < f2 {
      TilesDisjoint(vf.fields, ValueWidths(s), 0, f1, f2);
    } else if f2 < f1 {
      TilesDisjoint(vf.fields, ValueWidths(s), 0, f2, f1);
    }
  }

  /** The effect of one update on the vector. */
  function Step(vf: ValueFeatures, v: seq<real>, u: Update): (r: seq<real>)
    ensures |r| == |v|
  {
    var k := Slot(vf, u.field, u.index);
    if u.field < |vf.fields| && k < |v| then
      v[k := if u.Add? then v[k] + u.amount else u.value]
    else v
  }

  /** The updates performed in order. */
  function Apply(vf: ValueFeatures, v: seq<real>, ups: seq<Update>): (r: seq<real>)
    ensures |r| == |v|
  {
    if ups == [] then v else Step(vf, Apply(vf, v, ups[..|ups| - 1]), ups[|ups| - 1])
  }

  lemma ApplySnoc(vf: ValueFeatures, v: seq<real>, ups: seq<Update>, u: Update)
    ensures Apply(vf, v, ups + [u]) == Step(vf, Apply(vf, v, ups), u)
  {
    assert (ups + [u])[..|ups|] == ups;
  }

  /** Performing two lists of updates is performing their concatenation. */
  lemma {:induction false} ApplyAppend(vf: ValueFeatures, v: seq<real>, a: seq<Update>, b: seq<Update>)
    ensures Apply(vf, v, a + b) == Apply(vf, Apply(vf, v, a), b)
    decreases |b|
  {
    if b == [] {
      assert a + b == a;
    } else {
      var b' := b[..|b| - 1];
      assert a + b == (a + b') + [b[|b| - 1]];
      assert b == b' + [b[|b| - 1]];
      ApplyAppend(vf, v, a, b');
      ApplySnoc(vf, v, a + b', b[|b| - 1]);
      ApplySnoc(vf, Apply(vf, v, a), b', b[|b| - 1]);
    }
  }

  /** One more list of a pass, performed after the earlier ones. */
  lemma PassStep(vf: ValueFeatures, v0: seq<real>, lists: seq<seq<Update>>, k: nat, before: seq<real>, after: seq<real>)
    requires k < |lists|
    requires before == Apply(vf, v0, Concat(lists[..k]))
    requires after == Apply(vf, before, lists[k])
    ensures after == Apply(vf, v0, Concat(lists[..k + 1]))
  {
    ConcatSnoc(lists, k);
    ApplyAppend(vf, v0, Concat(lists[..k]), lists[k]);
  }

  /** `field[index] += amount` or `field[index] = value` on the coefficient vector. */
  method Write(s: nat, vf: ValueFeatures, coeffs: array<real>, u: Update)
    requires Layout(s, vf, coeffs.Length) && InBounds(s, u)
    modifies coeffs
    ensures coeffs[..] == Step(vf, old(coeffs[..]), u)
  {
    SlotBound(s, vf, coeffs.Length, u.field, u.index);
    var k := vf.fields[u.field].start + u.index;
    if u.Add? {
      coeffs[k] := coeffs[k] + u.amount;
    } else {
      coeffs[k] := u.value;
    }
  }

  /** How many `Add` updates go to `field[index]`. */
  function Tally(ups: seq<Update>, field: nat, index: nat): nat
  {
    if ups == [] then 0
    else
      var u := ups[|ups| - 1];
      Tally(ups[..|ups| - 1], field, index) + (if u.Add? && u.field == field && u.index == index then 1 else 0)
  }

  lemma {:induction false} TallyAppend(a: seq<Update>, b: seq<Update>, field: nat, index: nat)
    ensures Tally(a + b, field, index) == Tally(a, field, index) + Tally(b, field, index)
    decreases |b|
  {
    if b != [] {
      var b' := b[..|b| - 1];
      assert (a + b)[..|a + b| - 1] == a + b';
      TallyAppend(a, b', field, index);
    } else {
      assert a + b == a;
    }
  }

  lemma {:induction false} TallyNone(ups: seq<Update>, field: nat, index: nat)
    requires forall u :: u in ups ==> u.field != field || u.index != index
    ensures Tally(ups, field, index) == 0
    decreases |ups|
  {
    if ups != [] {
      var p := ups[..|ups| - 1];
      assert forall u :: u in p ==> u in ups;
      TallyNone(p, field, index);
    }
  }

  // ---------------------------------------------------------------------------
  // Piece-square tables (value_eval.rs:19-49)

  /** The psqt sub-range of a top piece's role. */
  function PsqtField(role: Role): nat
  {
    match role
    case Flat => FlatPsqt
    case Wall => WallPsqt
    case Cap => CapPsqt
  }

  /** The stack psqt writes for the pieces under the top, bottom first. */
  function LowerUpdates(controlling: Color, k: nat, lower: seq<Piece>): seq<Update>
  {
    if lower == [] then []
    else
      var piece := lower[|lower| - 1];
      var factor := controlling.Multiplier() as real;
      LowerUpdates(controlling, k, lower[..|lower| - 1]) +
      [if piece.Color() == controlling then Add(OurStackPsqt, k, factor) else Add(TheirStackPsqt, k, -factor)]
  }

  /** The writes of one square of the psqt loop. */
  function PsqtUpdates(s: nat, cells: seq<seq<Piece>>, sq: nat): seq<Update>
    requires sq < |cells| && sq < |SquareSymmetries(s)|
  {
    var ps := cells[sq];
    if ps == [] then []
    else
      var top := ps[|ps| - 1];
      var k := SquareSymmetries(s)[sq];
      [Add(PsqtField(top.Role()), k, top.Color().Multiplier() as real)] +
      (if |ps| > 1 then LowerUpdates(top.Color(), k, ps[..|ps| - 1]) else [])
  }

  /** A piece under the top counts its own colour's sign, in our or their stack table. */
  lemma {:induction false} LowerUpdatesMeaning(controlling: Color, k: nat, lower: seq<Piece>)
    ensures |LowerUpdates(controlling, k, lower)| == |lower|
    ensures forall i :: 0 <= i < |lower| ==>
      LowerUpdates(controlling, k, lower)[i] ==
      Add(if lower[i].Color() == controlling then OurStackPsqt else TheirStackPsqt, k, lower[i].Color().Multiplier() as real)
    decreases |lower|
  {
    if lower != [] {
      var n := |lower| - 1;
      LowerUpdatesMeaning(controlling, k, lower[..n]);
      assert lower[n].Color() != controlling ==> lower[n].Color() == controlling.Opposite();
    }
  }

  /** An empty square writes nothing. */
  lemma PsqtEmpty(s: nat, cells: seq<seq<Piece>>, sq: nat)
    requires EvalSize(s) && |cells| == s * s && sq < s * s && cells[sq] == []
    ensures PsqtUpdates(s, cells, sq) == []
  {
  }

  /** A square's symmetry class indexes every psqt. */
  lemma SymmetryInBounds(s: nat, sq: nat)
    requires EvalSize(s) && sq < s * s
    ensures SquareSymmetries(s)[sq] < NumSquareSymmetries(s)
  {
    assert SquareSymmetries(s)[sq] in SquareSymmetries(s);
  }

  /**
   * An occupied square writes once per piece: its top adds its colour's sign (+1 white, -1
   * black) to the psqt of its role, and each piece under the top adds its own colour's sign to
   * our stack psqt when it has the top's colour and to their stack psqt otherwise. All writes
   * go to the square's symmetry class.
   */
  lemma PsqtOccupied(s: nat, cells: seq<seq<Piece>>, sq: nat, top: Piece)
    requires EvalSize(s) && |cells| == s * s && sq < s * s && TopOf(cells[sq]) == Some(top)
    ensures |PsqtUpdates(s, cells, sq)| == |cells[sq]|
    ensures PsqtUpdates(s, cells, sq)[0] == Add(PsqtField(top.Role()), SquareSymmetries(s)[sq], top.Color().Multiplier() as real)
    ensures forall i :: 1 <= i < |cells[sq]| ==>
      PsqtUpdates(s, cells, sq)[i] ==
      Add(if cells[sq][i - 1].Color() == top.Color() then OurStackPsqt else TheirStackPsqt,
          SquareSymmetries(s)[sq], cells[sq][i - 1].Color().Multiplier() as real)
  {
    var ps := cells[sq];
    var k := SquareSymmetries(s)[sq];
    var lower := ps[..|ps| - 1];
    var first := Add(PsqtField(top.Role()), k, top.Color().Multiplier() as real);
    var rest := if |ps| > 1 then LowerUpdates(top.Color(), k, lower) else [];
    var r := PsqtUpdates(s, cells, sq);
    assert r == [first] + rest;
    LowerUpdatesMeaning(top.Color(), k, lower);
    assert |rest| == |lower|;
    forall i | 1 <= i < |ps|
      ensures r[i] == Add(if ps[i - 1].Color() == top.Color() then OurStackPsqt else TheirStackPsqt,
                          k, ps[i - 1].Color().Multiplier() as real)
    {
      assert r[i] == rest[i - 1];
      assert lower[i - 1] == ps[i - 1];
    }
  }

  /** Every write of one square of the psqt loop goes to a psqt, at the square's symmetry class. */
  lemma PsqtInBounds(s: nat, cells: seq<seq<Piece>>, sq: nat)
    requires EvalSize(s) && |cells| == s * s && sq < s * s
    ensures forall u :: u in PsqtUpdates(s, cells, sq) ==>
              u.Add? && u.field < 5 && u.index == SquareSymmetries(s)[sq] && InBounds(s, u)
  {
    var ps := cells[sq];
    if ps != [] {
      var r := PsqtUpdates(s, cells, sq);
      PsqtOccupied(s, cells, sq, ps[|ps| - 1]);
      SymmetryInBounds(s, sq);
      forall i | 0 <= i < |r|
        ensures r[i].Add? && r[i].field < 5 && r[i].index == SquareSymmetries(s)[sq]
      {
      }
    }
  }

  /** The squares below `n` whose top is `piece`. */
  function TopCount(cells: seq<seq<Piece>>, piece: Piece, n: nat): (r: nat)
    requires n <= |cells|
    ensures r <= n
  {
    if n == 0 then 0 else TopCount(cells, piece, n - 1) + (if TopOf(cells[n - 1]) == Some(piece) then 1 else 0)
  }

  /** The white and black flat counts of the psqt loop after `n` squares. */
  predicate FlatCounts(cells: seq<seq<Piece>>, n: nat, whiteFlats: int, blackFlats: int)
    requires n <= |cells|
  {
    whiteFlats == TopCount(cells, WhiteFlat, n) && blackFlats == TopCount(cells, BlackFlat, n)
  }

  lemma FlatCountsStep(cells: seq<seq<Piece>>, sq: nat, whiteFlats: int, blackFlats: int, w: int, b: int)
    requires sq < |cells| && FlatCounts(cells, sq, whiteFlats, blackFlats)
    requires w == (if TopOf(cells[sq]) == Some(WhiteFlat) then 1 else 0)
    requires b == (if TopOf(cells[sq]) == Some(BlackFlat) then 1 else 0)
    ensures FlatCounts(cells, sq + 1, whiteFlats + w, blackFlats + b)
  {
  }

  /** The psqt write for the top piece, and whether it is a white or a black flat. */
  method TopPsqt(s: nat, vf: ValueFeatures, coeffs: array<real>, piece: Piece, k: nat)
    returns (whiteFlat: int, blackFlat: int)
    requires Layout(s, vf, coeffs.Length) && k < NumSquareSymmetries(s)
    modifies coeffs
    ensures coeffs[..] == Step(vf, old(coeffs[..]), Add(PsqtField(piece.Role()), k, piece.Color().Multiplier() as real))
    ensures whiteFlat == (if piece == WhiteFlat then 1 else 0) && blackFlat == (if piece == BlackFlat then 1 else 0)
  {
    whiteFlat, blackFlat := 0, 0;
    match piece {
      case WhiteFlat =>
        Write(s, vf, coeffs, Add(FlatPsqt, k, 1.0));
        whiteFlat := 1;
      case BlackFlat =>
        Write(s, vf, coeffs, Add(FlatPsqt, k, -1.0));
        blackFlat := 1;
      case WhiteWall => Write(s, vf, coeffs, Add(WallPsqt, k, 1.0));
      case BlackWall => Write(s, vf, coeffs, Add(WallPsqt, k, -1.0));
      case WhiteCap => Write(s, vf, coeffs, Add(CapPsqt, k, 1.0));
      case BlackCap => Write(s, vf, coeffs, Add(CapPsqt, k, -1.0));
    }
  }

  lemma LowerStep(vf: ValueFeatures, v0: seq<real>, controlling: Color, k: nat, lower: seq<Piece>, i: nat,
                  before: seq<real>, after: seq<real>)
    requires i < |lower| && before == Apply(vf, v0, LowerUpdates(controlling, k, lower[..i]))
    requires after == Step(vf, before, if lower[i].Color() == controlling
                                       then Add(OurStackPsqt, k, controlling.Multiplier() as real)
                                       else Add(TheirStackPsqt, k, -(controlling.Multiplier() as real)))
    ensures after == Apply(vf, v0, LowerUpdates(controlling, k, lower[..i + 1]))
  {
    assert lower[..i + 1][..i] == lower[..i];
    var u := if lower[i].Color() == controlling then Add(OurStackPsqt, k, controlling.Multiplier() as real)
             else Add(TheirStackPsqt, k, -(controlling.Multiplier() as real));
    assert LowerUpdates(controlling, k, lower[..i + 1]) == LowerUpdates(controlling, k, lower[..i]) + [u];
    ApplySnoc(vf, v0, LowerUpdates(controlling, k, lower[..i]), u);
  }

  /** The stack psqt writes for the pieces under the top, bottom first. */
  method LowerPsqt(s: nat, vf: ValueFeatures, coeffs: array<real>, controlling: Color, k: nat, lower: seq<Piece>)
    requires Layout(s, vf, coeffs.Length) && k < NumSquareSymmetries(s)
    modifies coeffs
    ensures coeffs[..] == Apply(vf, old(coeffs[..]), LowerUpdates(controlling, k, lower))
  {
    ghost var v0 := coeffs[..];
    var factor := controlling.Multiplier() as real;
    var i := 0;
    while i < |lower|
      invariant i <= |lower|
      invariant coeffs[..] == Apply(vf, v0, LowerUpdates(controlling, k, lower[..i]))
    {
      ghost var before := coeffs[..];
      if lower[i].Color() == controlling {
        Write(s, vf, coeffs, Add(OurStackPsqt, k, factor));
      } else {
        Write(s, vf, coeffs, Add(TheirStackPsqt, k, -factor));
      }
      LowerStep(vf, v0, controlling, k, lower, i, before, coeffs[..]);
      i := i + 1;
    }
    assert lower[..i] == lower;
  }

  /** One square of the psqt loop; returns whether it counted a white or a black flat. */
  method SquarePsqt(s: nat, vf: ValueFeatures, coeffs: array<real>, cells: seq<seq<Piece>>, sq: nat)
    returns (whiteFlat: int, blackFlat: int)
    requires Layout(s, vf, coeffs.Length) && |cells| == s * s && sq < s * s
    modifies coeffs
    ensures coeffs[..] == Apply(vf, old(coeffs[..]), PsqtUpdates(s, cells, sq))
    ensures whiteFlat == (if TopOf(cells[sq]) == Some(WhiteFlat) then 1 else 0)
    ensures blackFlat == (if TopOf(cells[sq]) == Some(BlackFlat) then 1 else 0)
  {
    var ps := cells[sq];
    if ps == [] {
      return 0, 0;
    }
    var piece := ps[|ps| - 1];
    var k := SquareSymmetries(s)[sq];
    SymmetryInBounds(s, sq);
    ghost var v0 := coeffs[..];
    ghost var first := Add(PsqtField(piece.Role()), k, piece.Color().Multiplier() as real);
    whiteFlat, blackFlat := TopPsqt(s, vf, coeffs, piece, k);
    ApplySnoc(vf, v0, [], first);
    assert [] + [first] == [first];
    ghost var v1 := coeffs[..];
    if ps[..] != [] && |ps| > 1 {
      LowerPsqt(s, vf, coeffs, piece.Color(), k, ps[..|ps| - 1]);
      ApplyAppend(vf, v0, [first], LowerUpdates(piece.Color(), k, ps[..|ps| - 1]));
    } else {
      assert [first] + [] == [first];
    }
  }

  /** The psqt writes of every square, in board order. */
  function PsqtLists(s: nat, cells: seq<seq<Piece>>): (r: seq<seq<Update>>)
    requires EvalSize(s) && |cells| == s * s
    ensures |r| == s * s && forall i :: 0 <= i < s * s ==> r[i] == PsqtUpdates(s, cells, i)
  {
    seq(s * s, i requires 0 <= i < s * s => PsqtUpdates(s, cells, i))
  }

  /** The loop over all squares: psqt writes, and the white and black flats on top. */
  method PsqtPass(s: nat, vf: ValueFeatures, coeffs: array<real>, cells: seq<seq<Piece>>)
    returns (whiteFlats: int, blackFlats: int)
    requires Layout(s, vf, coeffs.Length) && |cells| == s * s
    modifies coeffs
    ensures coeffs[..] == Apply(vf, old(coeffs[..]), Concat(PsqtLists(s, cells)))
    ensures whiteFlats == TopCount(cells, WhiteFlat, s * s) && blackFlats == TopCount(cells, BlackFlat, s * s)
  {
    ghost var v0 := coeffs[..];
    ghost var lists := PsqtLists(s, cells);
    whiteFlats, blackFlats := 0, 0;
    var sq := 0;
    while sq < s * s
      invariant sq <= s * s
      invariant coeffs[..] == Apply(vf, v0, Concat(lists[..sq]))
      invariant FlatCounts(cells, sq, whiteFlats, blackFlats)
    {
      ghost var before := coeffs[..];
      var w, b := SquarePsqt(s, vf, coeffs, cells, sq);
      PassStep(vf, v0, lists, sq, before, coeffs[..]);
      FlatCountsStep(cells, sq, whiteFlats, blackFlats, w, b);
      whiteFlats, blackFlats := whiteFlats + w, blackFlats + b;
      sq := sq + 1;
    }
    assert lists[..sq] == lists;
  }

  // ---------------------------------------------------------------------------
  // Number of groups (value_eval.rs:55-68)

  /** The sign of the colour on top of a stack; 0 for an empty one. */
  function TopSign(ps: seq<Piece>): int
  {
    if ps == [] then 0 else ps[|ps| - 1].Color().Multiplier()
  }

  /** The `seen_groups` sum over the squares below `n`: each id met for the first time adds its square's sign. */
  function GroupSum(groups: seq<nat>, cells: seq<seq<Piece>>, n: nat): int
    requires n <= |groups| && n <= |cells|
  {
    if n == 0 then 0
    else
      var id := groups[n - 1];
      GroupSum(groups, cells, n - 1) + (if id != 0 && id !in groups[..n - 1] then TopSign(cells[n - 1]) else 0)
  }

  /** The `seen_groups` loop: ids index a vector of `S * S + 1` flags, and a nonzero id's square is occupied (`unwrap`). */
  method NumberOfGroups(s: nat, cells: seq<seq<Piece>>, groups: seq<nat>) returns (n: int)
    requires |groups| == |cells| == s * s
    requires forall x :: 0 <= x < s * s ==> groups[x] <= s * s
    requires forall x :: 0 <= x < s * s && groups[x] != 0 ==> cells[x] != []
    ensures n == GroupSum(groups, cells, s * s)
  {
    var seen := new bool[s * s + 1](k => k == 0);
    n := 0;
    var x := 0;
    while x < s * s
      invariant x <= s * s
      invariant forall k :: 0 <= k < seen.Length ==> (seen[k] <==> k == 0 || k in groups[..x])
      invariant n == GroupSum(groups, cells, x)
    {
      assert groups[..x + 1] == groups[..x] + [groups[x]];
      var id := groups[x];
      if !seen[id] {
        seen[id] := true;
        var top := cells[x][|cells[x]| - 1];
        n := n + top.Color().Multiplier();
      }
      x := x + 1;
    }
  }

  /** The colour on top of a stack, if any. */
  function TopColorOf(ps: seq<Piece>): Option<Color>
  {
    TopColor(TopOf(ps))
  }

  /** Labels sit on occupied squares and a label's squares share their top colour. */
  predicate LabelsByColor(groups: seq<nat>, cells: seq<seq<Piece>>)
  {
    |groups| == |cells| &&
    (forall x :: 0 <= x < |groups| && groups[x] != 0 ==> cells[x] != []) &&
    (forall x, y :: 0 <= x < |groups| && 0 <= y < |groups| && groups[x] == groups[y] != 0 ==>
       TopColorOf(cells[x]) == TopColorOf(cells[y]))
  }

  /** The distinct nonzero ids of colour `c` among the squares below `n`. */
  ghost function Ids(groups: seq<nat>, cells: seq<seq<Piece>>, c: Color, n: nat): set<nat>
    requires n <= |groups| && n <= |cells|
  {
    set x | 0 <= x < n && groups[x] != 0 && TopColorOf(cells[x]) == Some(c) :: groups[x]
  }

  /** With colour-consistent labels, the group count is white groups minus black groups. */
  lemma {:induction false} GroupSumCounts(groups: seq<nat>, cells: seq<seq<Piece>>, n: nat)
    requires LabelsByColor(groups, cells) && n <= |groups|
    ensures GroupSum(groups, cells, n) == |Ids(groups, cells, White, n)| - |Ids(groups, cells, Black, n)|
  {
    if n > 0 {
      var m := n - 1;
      GroupSumCounts(groups, cells, m);
      var id := groups[m];
      IdsStep(groups, cells, White, m);
      IdsStep(groups, cells, Black, m);
    }
  }

  /** How one more square changes the ids of one colour. */
  lemma IdsStep(groups: seq<nat>, cells: seq<seq<Piece>>, c: Color, m: nat)
    requires LabelsByColor(groups, cells) && m < |groups|
    ensures groups[m] != 0 && groups[m] !in groups[..m] && TopColorOf(cells[m]) == Some(c) ==>
      |Ids(groups, cells, c, m + 1)| == |Ids(groups, cells, c, m)| + 1
    ensures !(groups[m] != 0 && groups[m] !in groups[..m] && TopColorOf(cells[m]) == Some(c)) ==>
      Ids(groups, cells, c, m + 1) == Ids(groups, cells, c, m)
  {
    var id := groups[m];
    var a, b := Ids(groups, cells, c, m), Ids(groups, cells, c, m + 1);
    if id != 0 && TopColorOf(cells[m]) == Some(c) {
      assert b == a + {id};
      if id !in groups[..m] {
        forall z | z in a
          ensures z in groups[..m]
        {
          var y :| 0 <= y < m && groups[y] != 0 && TopColorOf(cells[y]) == Some(c) && groups[y] == z;
          assert groups[..m][y] == z;
        }
      } else {
        var y :| 0 <= y < m && groups[..m][y] == id;
        assert groups[y] == id;
        assert id in a;
      }
    } else {
      assert b == a;
    }
  }

  /** The id's colour in the group data: a label lies on one colour's road pieces. */
  lemma GroupDataByColor(s: nat, cells: seq<seq<Piece>>, g: GroupData)
    requires ValidSize(s) && |cells| == s * s && GroupsOf(s, Tops(cells), g)
    ensures LabelsByColor(g.groups, cells)
    ensures forall x :: 0 <= x < s * s ==> g.groups[x] <= s * s
  {
    var tops := Tops(cells);
    var white, black := g.WhiteRoadPieces(), g.BlackRoadPieces();
    var next := FirstEmpty(g.amountInGroup, 1);
    assert LabelsSound(s, g.groups, white, black, next);
    forall x | 0 <= x < s * s
      ensures (x in white ==> TopColorOf(cells[x]) == Some(White)) && (x in black ==> TopColorOf(cells[x]) == Some(Black))
    {
      assert tops[x] == TopOf(cells[x]);
    }
  }

  // ---------------------------------------------------------------------------
  // Game phase (value_eval.rs:70-96)

  function MinReal(a: real, b: real): real
  {
    if a <= b then a else b
  }

  function MaxReal(a: real, b: real): real
  {
    if a >= b then a else b
  }

  /**
   * The opening, middlegame and endgame weights of a position `halfMoves` plies in: the
   * opening weight falls from 1 to 0 over plies 12..24 and the endgame weight rises from 0 to
   * 1 over plies 24..48; the middlegame takes the rest.
   */
  function PhaseFactors(halfMoves: nat): (r: (real, real, real))
    ensures 0.0 <= r.0 <= 1.0 && 0.0 <= r.1 <= 1.0 && 0.0 <= r.2 <= 1.0
    ensures r.0 == 0.0 || r.2 == 0.0
    ensures r.0 + r.1 + r.2 == 1.0
    ensures r.0 > 0.0 <==> halfMoves < 24
    ensures r.2 > 0.0 <==> halfMoves > 24
    ensures r.0 == 1.0 <==> halfMoves <= 12
    ensures r.2 == 1.0 <==> halfMoves >= 48
  {
    var h := halfMoves as real;
    var opening := MinReal(MaxReal((24.0 - h) / 12.0, 0.0), 1.0);
    var endgame := MinReal(MaxReal((h - 24.0) / 24.0, 0.0), 1.0);
    (opening, 1.0 - opening - endgame, endgame)
  }

  /** The three assignments of one phase: side to move, flatstone lead and number of groups, weighted. */
  function PhaseUpdates(phase: nat, weight: real, toMove: Color, lead: int, groups: int): seq<Update>
  {
    [Put(SideToMove, phase, toMove.Multiplier() as real * weight),
     Put(FlatstoneLead, phase, lead as real * weight),
     Put(INumberOfGroups, phase, groups as real * weight)]
  }

  /** The nine assignments, opening first. */
  function PhaseAssignments(halfMoves: nat, toMove: Color, lead: int, groups: int): seq<Update>
  {
    var f := PhaseFactors(halfMoves);
    PhaseUpdates(0, f.0, toMove, lead, groups) + PhaseUpdates(1, f.1, toMove, lead, groups) +
    PhaseUpdates(2, f.2, toMove, lead, groups)
  }

  /** Weights that add up to one split a value into parts that add up to it. */
  lemma WeightsSplit(x: real, o: real, m: real, e: real)
    requires o + m + e == 1.0
    ensures x * o + x * m + x * e == x
  {
    assert x * o + x * m + x * e == x * (o + m + e);
  }

  /** The nine assignments go to the three-wide side to move, flatstone lead and number of groups sub-ranges. */
  lemma PhaseAssignmentsFields(s: nat, halfMoves: nat, toMove: Color, lead: int, groups: int)
    ensures |PhaseAssignments(halfMoves, toMove, lead, groups)| == 9
    ensures forall u :: u in PhaseAssignments(halfMoves, toMove, lead, groups) ==>
      u.Put? && InBounds(s, u) && (u.field == SideToMove || u.field == FlatstoneLead || u.field == INumberOfGroups)
  {
    var f := PhaseFactors(halfMoves);
    var r := PhaseAssignments(halfMoves, toMove, lead, groups);
    forall i | 0 <= i < |r|
      ensures r[i].Put? && r[i].index < 3 && (r[i].field == SideToMove || r[i].field == FlatstoneLead || r[i].field == INumberOfGroups)
    {
    }
  }

  /** The three assignments of one phase. */
  method AssignPhase(s: nat, vf: ValueFeatures, coeffs: array<real>, phase: nat, weight: real,
                     toMove: Color, lead: int, groups: int)
    requires Layout(s, vf, coeffs.Length) && phase < 3
    modifies coeffs
    ensures coeffs[..] == Apply(vf, old(coeffs[..]), PhaseUpdates(phase, weight, toMove, lead, groups))
  {
    ghost var v0 := coeffs[..];
    var ups := PhaseUpdates(phase, weight, toMove, lead, groups);
    Write(s, vf, coeffs, Put(SideToMove, phase, toMove.Multiplier() as real * weight));
    assert coeffs[..] == Apply(vf, v0, ups[..1]) by {
      assert ups[..1][..0] == [];
    }
    Write(s, vf, coeffs, Put(FlatstoneLead, phase, lead as real * weight));
    ApplySnoc(vf, v0, ups[..1], ups[1]);
    assert ups[..1] + [ups[1]] == ups[..2];
    Write(s, vf, coeffs, Put(INumberOfGroups, phase, groups as real * weight));
    ApplySnoc(vf, v0, ups[..2], ups[2]);
    assert ups[..2] + [ups[2]] == ups;
  }

  // ---------------------------------------------------------------------------
  // Critical squares (value_eval.rs:98-104, 186-216)

  /** Which of `critical_squares[0..3]` a critical square of `us` feeds, by its top. */
  function CriticalClass(top: Option<Piece>, us: Color): nat
  {
    if top.None? then 0
    else if top == Some(FromRoleColor(Wall, us)) then 1
    else if top == Some(FromRoleColor(Flat, us.Opposite())) then 2
    else 3
  }

  /**
   * The class of a critical square: 0 when empty, 1 under our wall, 2 under their flat, and 3
   * otherwise (their wall or capstone, or one of our own road pieces).
   */
  lemma CriticalClassMeaning(top: Option<Piece>, us: Color)
    ensures CriticalClass(top, us) < 4
    ensures CriticalClass(top, us) == 0 <==> top.None?
    ensures CriticalClass(top, us) == 1 <==> top.Some? && top.value.Role() == Wall && top.value.Color() == us
    ensures CriticalClass(top, us) == 2 <==> top.Some? && top.value.Role() == Flat && top.value.Color() != us
    ensures CriticalClass(top, us) == 3 <==>
      top.Some? && (top.value.Role() == Cap || (top.value.Role() == Wall && top.value.Color() != us) ||
                    (top.value.Role() == Flat && top.value.Color() == us))
  {
    if top.Some? {
      FromRoleColorOfPiece(top.value);
    }
  }

  /** `critical_squares[5]` once for each of our flats in a stack, bottom first. */
  function CappedStackUpdates(ps: seq<Piece>, us: Color): seq<Update>
  {
    if ps == [] then []
    else
      CappedStackUpdates(ps[..|ps| - 1], us) +
      (if ps[|ps| - 1] == FromRoleColor(Flat, us) then [Add(Parameters.CriticalSquares, 5, us.Multiplier() as real)] else [])
  }

  /** The writes for the neighbours `ns` of a critical square: each one topped by our capstone counts, with our flats in it. */
  function CapNeighbourUpdates(cells: seq<seq<Piece>>, us: Color, ns: seq<nat>): seq<Update>
    requires forall i :: 0 <= i < |ns| ==> ns[i] < |cells|
  {
    if ns == [] then []
    else
      var nb := ns[|ns| - 1];
      CapNeighbourUpdates(cells, us, ns[..|ns| - 1]) +
      (if TopOf(cells[nb]) == Some(FromRoleColor(Cap, us))
       then [Add(Parameters.CriticalSquares, 4, us.Multiplier() as real)] + CappedStackUpdates(cells[nb], us)
       else [])
  }

  /** The writes of `critical_squares_eval` for a critical square `sq` of `us`. */
  function CriticalUpdates(s: nat, cells: seq<seq<Piece>>, us: Color, sq: nat): seq<Update>
    requires ValidSize(s) && |cells| == s * s && sq < s * s
  {
    NeighboursOnBoard(s, sq);
    [Add(Parameters.CriticalSquares, CriticalClass(TopOf(cells[sq]), us), us.Multiplier() as real)] +
    CapNeighbourUpdates(cells, us, Neighbours(s, sq))
  }

  /** The writes for a neighbouring capped stack are to `critical_squares[5]`, with our sign. */
  lemma {:induction false} CappedStackMeaning(ps: seq<Piece>, us: Color)
    ensures forall u :: u in CappedStackUpdates(ps, us) ==> u == Add(Parameters.CriticalSquares, 5, us.Multiplier() as real)
    ensures |CappedStackUpdates(ps, us)| <= |ps|
    decreases |ps|
  {
    if ps != [] {
      CappedStackMeaning(ps[..|ps| - 1], us);
    }
  }

  /** The writes for the neighbours are to `critical_squares[4]` or `[5]`, with our sign. */
  lemma {:induction false} CapNeighbourMeaning(cells: seq<seq<Piece>>, us: Color, ns: seq<nat>)
    requires forall i :: 0 <= i < |ns| ==> ns[i] < |cells|
    ensures forall u :: u in CapNeighbourUpdates(cells, us, ns) ==>
      u.Add? && u.field == Parameters.CriticalSquares && (u.index == 4 || u.index == 5) && u.amount == us.Multiplier() as real
    decreases |ns|
  {
    if ns != [] {
      CapNeighbourMeaning(cells, us, ns[..|ns| - 1]);
      CappedStackMeaning(cells[ns[|ns| - 1]], us);
    }
  }

  /**
   * A critical square of `us` adds our sign to exactly one of `critical_squares[0..3]`, the one
   * its top selects; every other write adds our sign to `critical_squares[4]` or `[5]`.
   */
  lemma CriticalUpdatesMeaning(s: nat, cells: seq<seq<Piece>>, us: Color, sq: nat)
    requires ValidSize(s) && |cells| == s * s && sq < s * s
    ensures CriticalUpdates(s, cells, us, sq)[0] ==
            Add(Parameters.CriticalSquares, CriticalClass(TopOf(cells[sq]), us), us.Multiplier() as real)
    ensures forall k :: 0 <= k < 4 ==>
      Tally(CriticalUpdates(s, cells, us, sq), Parameters.CriticalSquares, k) ==
      (if k == CriticalClass(TopOf(cells[sq]), us) then 1 else 0)
    ensures forall u :: u in CriticalUpdates(s, cells, us, sq) ==>
      u.Add? && u.field == Parameters.CriticalSquares && u.amount == us.Multiplier() as real && InBounds(s, u)
  {
    NeighboursOnBoard(s, sq);
    var ns := Neighbours(s, sq);
    var first := Add(Parameters.CriticalSquares, CriticalClass(TopOf(cells[sq]), us), us.Multiplier() as real);
    var rest := CapNeighbourUpdates(cells, us, ns);
    CapNeighbourMeaning(cells, us, ns);
    CriticalClassMeaning(TopOf(cells[sq]), us);
    forall k | 0 <= k < 4
      ensures Tally([first] + rest, Parameters.CriticalSquares, k) == (if k == CriticalClass(TopOf(cells[sq]), us) then 1 else 0)
    {
      TallyAppend([first], rest, Parameters.CriticalSquares, k);
      TallyNone(rest, Parameters.CriticalSquares, k);
      assert [first][..0] == [];
    }
  }

  /** Our flats in a capped neighbour, bottom first. */
  method CappedStack(s: nat, vf: ValueFeatures, coeffs: array<real>, ps: seq<Piece>, us: Color)
    requires Layout(s, vf, coeffs.Length)
    modifies coeffs
    ensures coeffs[..] == Apply(vf, old(coeffs[..]), CappedStackUpdates(ps, us))
  {
    ghost var v0 := coeffs[..];
    var i := 0;
    while i < |ps|
      invariant i <= |ps|
      invariant coeffs[..] == Apply(vf, v0, CappedStackUpdates(ps[..i], us))
    {
      ghost var before := coeffs[..];
      if ps[i] == FromRoleColor(Flat, us) {
        Write(s, vf, coeffs, Add(Parameters.CriticalSquares, 5, us.Multiplier() as real));
      }
      CappedStackStep(vf, v0, ps, us, i, before, coeffs[..]);
      i := i + 1;
    }
    assert ps[..i] == ps;
  }

  lemma CappedStackStep(vf: ValueFeatures, v0: seq<real>, ps: seq<Piece>, us: Color, i: nat, before: seq<real>, after: seq<real>)
    requires i < |ps| && before == Apply(vf, v0, CappedStackUpdates(ps[..i], us))
    requires ps[i] == FromRoleColor(Flat, us) ==> after == Step(vf, before, Add(Parameters.CriticalSquares, 5, us.Multiplier() as real))
    requires ps[i] != FromRoleColor(Flat, us) ==> after == before
    ensures after == Apply(vf, v0, CappedStackUpdates(ps[..i + 1], us))
  {
    assert ps[..i + 1][..i] == ps[..i];
    var tail := if ps[i] == FromRoleColor(Flat, us) then [Add(Parameters.CriticalSquares, 5, us.Multiplier() as real)] else [];
    assert CappedStackUpdates(ps[..i + 1], us) == CappedStackUpdates(ps[..i], us) + tail;
    ApplyAppend(vf, v0, CappedStackUpdates(ps[..i], us), tail);
    ApplySnoc(vf, before, [], Add(Parameters.CriticalSquares, 5, us.Multiplier() as real));
    assert [] + [Add(Parameters.CriticalSquares, 5, us.Multiplier() as real)] == [Add(Parameters.CriticalSquares, 5, us.Multiplier() as real)];
  }

  lemma CapNeighbourStep(vf: ValueFeatures, v0: seq<real>, cells: seq<seq<Piece>>, us: Color, ns: seq<nat>, j: nat,
                         before: seq<real>, after: seq<real>)
    requires j < |ns| && forall i :: 0 <= i < |ns| ==> ns[i] < |cells|
    requires before == Apply(vf, v0, CapNeighbourUpdates(cells, us, ns[..j]))
    requires after == Apply(vf, before, if TopOf(cells[ns[j]]) == Some(FromRoleColor(Cap, us))
                                        then [Add(Parameters.CriticalSquares, 4, us.Multiplier() as real)] + CappedStackUpdates(cells[ns[j]], us)
                                        else [])
    ensures after == Apply(vf, v0, CapNeighbourUpdates(cells, us, ns[..j + 1]))
  {
    assert ns[..j + 1][..j] == ns[..j];
    ApplyAppend(vf, v0, CapNeighbourUpdates(cells, us, ns[..j]),
                if TopOf(cells[ns[j]]) == Some(FromRoleColor(Cap, us))
                then [Add(Parameters.CriticalSquares, 4, us.Multiplier() as real)] + CappedStackUpdates(cells[ns[j]], us)
                else []);
  }

  /** The first part of `critical_squares_eval`: the class of the critical square itself. */
  method CriticalClassEval(s: nat, vf: ValueFeatures, coeffs: array<real>, top: Option<Piece>, us: Color)
    requires Layout(s, vf, coeffs.Length)
    modifies coeffs
    ensures coeffs[..] == Step(vf, old(coeffs[..]), Add(Parameters.CriticalSquares, CriticalClass(top, us), us.Multiplier() as real))
  {
    var sign := us.Multiplier() as real;
    if top.None? {
      Write(s, vf, coeffs, Add(Parameters.CriticalSquares, 0, sign));
    } else if top == Some(FromRoleColor(Wall, us)) {
      Write(s, vf, coeffs, Add(Parameters.CriticalSquares, 1, sign));
    } else if top == Some(FromRoleColor(Flat, us.Opposite())) {
      Write(s, vf, coeffs, Add(Parameters.CriticalSquares, 2, sign));
    } else {
      Write(s, vf, coeffs, Add(Parameters.CriticalSquares, 3, sign));
    }
  }

  /** One neighbour of a critical square: our capstone on top counts, and so do our flats under it. */
  method CapNeighbourEval(s: nat, vf: ValueFeatures, coeffs: array<real>, ps: seq<Piece>, us: Color)
    requires Layout(s, vf, coeffs.Length)
    modifies coeffs
    ensures coeffs[..] == Apply(vf, old(coeffs[..]), if TopOf(ps) == Some(FromRoleColor(Cap, us))
                                                   then [Add(Parameters.CriticalSquares, 4, us.Multiplier() as real)] + CappedStackUpdates(ps, us)
                                                   else [])
  {
    ghost var v0 := coeffs[..];
    var sign := us.Multiplier() as real;
    if TopOf(ps) == Some(FromRoleColor(Cap, us)) {
      Write(s, vf, coeffs, Add(Parameters.CriticalSquares, 4, sign));
      CappedStack(s, vf, coeffs, ps, us);
      ApplySnoc(vf, v0, [], Add(Parameters.CriticalSquares, 4, sign));
      assert [] + [Add(Parameters.CriticalSquares, 4, sign)] == [Add(Parameters.CriticalSquares, 4, sign)];
      ApplyAppend(vf, v0, [Add(Parameters.CriticalSquares, 4, sign)], CappedStackUpdates(ps, us));
    }
  }

  /** `critical_squares_eval` for a critical square `sq` of `us`. */
  method CriticalSquareEval(s: nat, vf: ValueFeatures, coeffs: array<real>, cells: seq<seq<Piece>>, us: Color, sq: nat)
    requires Layout(s, vf, coeffs.Length) && |cells| == s * s && sq < s * s
    modifies coeffs
    ensures coeffs[..] == Apply(vf, old(coeffs[..]), CriticalUpdates(s, cells, us, sq))
  {
    ghost var v0 := coeffs[..];
    ghost var first := Add(Parameters.CriticalSquares, CriticalClass(TopOf(cells[sq]), us), us.Multiplier() as real);
    CriticalClassEval(s, vf, coeffs, TopOf(cells[sq]), us);
    ApplySnoc(vf, v0, [], first);
    assert [] + [first] == [first];
    ghost var v1 := coeffs[..];
    NeighboursOnBoard(s, sq);
    var ns := Neighbours(s, sq);
    var j := 0;
    while j < |ns|
      invariant j <= |ns|
      invariant coeffs[..] == Apply(vf, v1, CapNeighbourUpdates(cells, us, ns[..j]))
    {
      ghost var before := coeffs[..];
      CapNeighbourEval(s, vf, coeffs, cells[ns[j]], us);
      CapNeighbourStep(vf, v1, cells, us, ns, j, before, coeffs[..]);
      j := j + 1;
    }
    assert ns[..j] == ns;
    ApplyAppend(vf, v0, [first], CapNeighbourUpdates(cells, us, ns));
  }

  // ---------------------------------------------------------------------------
  // Stacks (value_eval.rs:106-149)

  /** The sub-range for an opponent's stone of this role next to our flat-topped stack. */
  function NextToField(role: Role): nat
  {
    match role
    case Flat => FlatStoneNextToOurStack
    case Wall => StandingStoneNextToOurStack
    case Cap => CapstoneNextToOurStack
  }

  /** The write for one neighbour, holding `nps`, of a stack topped by `top` and `height` pieces high. */
  function NextToUpdate(top: Piece, height: nat, nps: seq<Piece>): seq<Update>
  {
    match TopOf(nps)
    case None => []
    case Some(t) =>
      if top.Role() == Flat && t.Color() != top.Color()
      then [Add(NextToField(t.Role()), 0, top.Color().Multiplier() as real * height as real)]
      else []
  }

  /** The writes for the neighbours `ns`, in order. */
  function NextToUpdates(cells: seq<seq<Piece>>, top: Piece, height: nat, ns: seq<nat>): seq<Update>
    requires forall i :: 0 <= i < |ns| ==> ns[i] < |cells|
  {
    if ns == [] then []
    else NextToUpdates(cells, top, height, ns[..|ns| - 1]) + NextToUpdate(top, height, cells[ns[|ns| - 1]])
  }

  /** The writes of the stack loop for a square holding at least two pieces. */
  function StackUpdates(s: nat, cells: seq<seq<Piece>>, sq: nat): seq<Update>
    requires ValidSize(s) && |cells| == s * s && sq < s * s && |cells[sq]| > 1
  {
    var ps := cells[sq];
    var top := ps[|ps| - 1];
    NeighboursOnBoard(s, sq);
    StackTopUpdates(ps) + NextToUpdates(cells, top, |ps|, Neighbours(s, sq))
  }

  /** The capstone and wall writes of the stack loop, for a stack of at least two pieces. */
  function StackTopUpdates(ps: seq<Piece>): seq<Update>
    requires |ps| > 1
  {
    var top := ps[|ps| - 1];
    var sign := top.Color().Multiplier() as real;
    (if top.Role() == Cap && ps[|ps| - 2].Color() == top.Color() then [Add(CapstoneOverOwnPiece, 0, sign)] else []) +
    (match top.Role()
     case Cap => [Add(CapstoneOnStack, 0, sign)]
     case Flat => []
     case Wall => [Add(StandingStoneOnStack, 0, sign)])
  }

  /**
   * Each neighbour write is for a flat-topped stack: it adds the stack's height with the
   * controller's sign to one of the three next-to-our-stack sub-ranges.
   */
  lemma {:induction false} NextToMeaning(cells: seq<seq<Piece>>, top: Piece, height: nat, ns: seq<nat>)
    requires forall i :: 0 <= i < |ns| ==> ns[i] < |cells|
    ensures forall u :: u in NextToUpdates(cells, top, height, ns) ==>
      top.Role() == Flat && u.Add? && FlatStoneNextToOurStack <= u.field <= CapstoneNextToOurStack && u.index == 0 &&
      u.amount == top.Color().Multiplier() as real * height as real
    decreases |ns|
  {
    if ns != [] {
      NextToMeaning(cells, top, height, ns[..|ns| - 1]);
    }
  }

  /** The capstone and wall writes: each of the three sub-ranges is hit at most once, as the top decides. */
  lemma StackTopMeaning(ps: seq<Piece>)
    requires |ps| > 1
    ensures Tally(StackTopUpdates(ps), CapstoneOverOwnPiece, 0) ==
            (if ps[|ps| - 1].Role() == Cap && ps[|ps| - 2].Color() == ps[|ps| - 1].Color() then 1 else 0)
    ensures Tally(StackTopUpdates(ps), CapstoneOnStack, 0) == (if ps[|ps| - 1].Role() == Cap then 1 else 0)
    ensures Tally(StackTopUpdates(ps), StandingStoneOnStack, 0) == (if ps[|ps| - 1].Role() == Wall then 1 else 0)
    ensures forall u :: u in StackTopUpdates(ps) ==>
      u.Add? && u.index == 0 && CapstoneOverOwnPiece <= u.field <= StandingStoneOnStack &&
      u.amount == ps[|ps| - 1].Color().Multiplier() as real
  {
    var top := ps[|ps| - 1];
    var sign := top.Color().Multiplier() as real;
    var a := if top.Role() == Cap && ps[|ps| - 2].Color() == top.Color() then [Add(CapstoneOverOwnPiece, 0, sign)] else [];
    var b := match top.Role()
             case Cap => [Add(CapstoneOnStack, 0, sign)]
             case Flat => []
             case Wall => [Add(StandingStoneOnStack, 0, sign)];
    assert StackTopUpdates(ps) == a + b;
    TallyAppend(a, b, CapstoneOverOwnPiece, 0);
    TallyAppend(a, b, CapstoneOnStack, 0);
    TallyAppend(a, b, StandingStoneOnStack, 0);
    assert [Add(CapstoneOverOwnPiece, 0, sign)][..0] == [];
    assert [Add(CapstoneOnStack, 0, sign)][..0] == [];
    assert [Add(StandingStoneOnStack, 0, sign)][..0] == [];
  }

  /**
   * The stack loop on a square whose top is `top`: a capstone earns `capstone_on_stack`, and
   * `capstone_over_own_piece` exactly when the piece under it has its colour; a wall earns
   * `standing_stone_on_stack`; only a flat-topped stack is penalised for opposing neighbours,
   * by its height. All writes carry the controller's sign and stay in their one-wide sub-ranges.
   */
  lemma StackUpdatesMeaning(s: nat, cells: seq<seq<Piece>>, sq: nat, top: Piece)
    requires ValidSize(s) && |cells| == s * s && sq < s * s && |cells[sq]| > 1 && TopOf(cells[sq]) == Some(top)
    ensures Tally(StackUpdates(s, cells, sq), CapstoneOverOwnPiece, 0) ==
            (if top.Role() == Cap && cells[sq][|cells[sq]| - 2].Color() == top.Color() then 1 else 0)
    ensures Tally(StackUpdates(s, cells, sq), CapstoneOnStack, 0) == (if top.Role() == Cap then 1 else 0)
    ensures Tally(StackUpdates(s, cells, sq), StandingStoneOnStack, 0) == (if top.Role() == Wall then 1 else 0)
  {
    var ps := cells[sq];
    NeighboursOnBoard(s, sq);
    var ns := Neighbours(s, sq);
    var ab := StackTopUpdates(ps);
    var c := NextToUpdates(cells, top, |ps|, ns);
    assert StackUpdates(s, cells, sq) == ab + c;
    NextToMeaning(cells, top, |ps|, ns);
    StackTopMeaning(ps);
    TallyAppend(ab, c, CapstoneOverOwnPiece, 0);
    TallyAppend(ab, c, CapstoneOnStack, 0);
    TallyAppend(ab, c, StandingStoneOnStack, 0);
    TallyNone(c, CapstoneOverOwnPiece, 0);
    TallyNone(c, CapstoneOnStack, 0);
    TallyNone(c, StandingStoneOnStack, 0);
  }

  /**
   * Every write of the stack loop is an addition inside one of the six one-wide sub-ranges
   * from `capstone_over_own_piece` to `capstone_next_to_our_stack`; the next-to writes come
   * only from a flat-topped stack and carry its height with the controller's sign.
   */
  lemma StackUpdatesBounds(s: nat, cells: seq<seq<Piece>>, sq: nat, top: Piece)
    requires ValidSize(s) && |cells| == s * s && sq < s * s && |cells[sq]| > 1 && TopOf(cells[sq]) == Some(top)
    ensures forall u :: u in StackUpdates(s, cells, sq) ==> u.Add? && InBounds(s, u) && u.field >= CapstoneOverOwnPiece
    ensures forall u :: u in StackUpdates(s, cells, sq) && u.field >= FlatStoneNextToOurStack ==>
      top.Role() == Flat && u.amount == top.Color().Multiplier() as real * |cells[sq]| as real
  {
    var ps := cells[sq];
    NeighboursOnBoard(s, sq);
    var ns := Neighbours(s, sq);
    var ab := StackTopUpdates(ps);
    var c := NextToUpdates(cells, top, |ps|, ns);
    assert StackUpdates(s, cells, sq) == ab + c;
    NextToMeaning(cells, top, |ps|, ns);
    StackTopMeaning(ps);
    forall u: Update | u in ab + c
      ensures u.Add? && InBounds(s, u) && u.field >= CapstoneOverOwnPiece
      ensures u.field >= FlatStoneNextToOurStack ==>
        top.Role() == Flat && u.amount == top.Color().Multiplier() as real * |ps| as real
    {
      if u in ab {
        assert u.Add? && u.index == 0 && CapstoneOverOwnPiece <= u.field <= StandingStoneOnStack;
        assert Width(s, u.field) == 1;
      } else {
        assert u in c;
        assert u.Add? && u.index == 0 && FlatStoneNextToOurStack <= u.field <= CapstoneNextToOurStack;
        assert Width(s, u.field) == 1;
      }
    }
  }

  /** One neighbour of a stack topped by `top`, `height` pieces high. */
  method NextToOne(s: nat, vf: ValueFeatures, coeffs: array<real>, top: Piece, height: nat, nps: seq<Piece>)
    requires Layout(s, vf, coeffs.Length)
    modifies coeffs
    ensures coeffs[..] == Apply(vf, old(coeffs[..]), NextToUpdate(top, height, nps))
  {
    ghost var v0 := coeffs[..];
    var controlling := top.Color();
    var factor := controlling.Multiplier() as real;
    var neighbour := TopOf(nps);
    if neighbour.Some? {
      if top.Role() == Flat && neighbour.value.Color() != controlling {
        match neighbour.value.Role() {
          case Flat => Write(s, vf, coeffs, Add(FlatStoneNextToOurStack, 0, factor * height as real));
          case Wall => Write(s, vf, coeffs, Add(StandingStoneNextToOurStack, 0, factor * height as real));
          case Cap => Write(s, vf, coeffs, Add(CapstoneNextToOurStack, 0, factor * height as real));
        }
        ghost var u := Add(NextToField(neighbour.value.Role()), 0, factor * height as real);
        ApplySnoc(vf, v0, [], u);
        assert [] + [u] == [u];
      }
    }
  }

  /** The neighbour loop for a stack topped by `top`, `height` pieces high. */
  method NextToEval(s: nat, vf: ValueFeatures, coeffs: array<real>, cells: seq<seq<Piece>>, top: Piece, height: nat, ns: seq<nat>)
    requires Layout(s, vf, coeffs.Length) && forall i :: 0 <= i < |ns| ==> ns[i] < |cells|
    modifies coeffs
    ensures coeffs[..] == Apply(vf, old(coeffs[..]), NextToUpdates(cells, top, height, ns))
  {
    ghost var v0 := coeffs[..];
    var j := 0;
    while j < |ns|
      invariant j <= |ns|
      invariant coeffs[..] == Apply(vf, v0, NextToUpdates(cells, top, height, ns[..j]))
    {
      ghost var before := coeffs[..];
      NextToOne(s, vf, coeffs, top, height, cells[ns[j]]);
      NextToStep(vf, v0, cells, top, height, ns, j, before, coeffs[..]);
      j := j + 1;
    }
    assert ns[..j] == ns;
  }

  lemma NextToStep(vf: ValueFeatures, v0: seq<real>, cells: seq<seq<Piece>>, top: Piece, height: nat, ns: seq<nat>, j: nat,
                   before: seq<real>, after: seq<real>)
    requires j < |ns| && forall i :: 0 <= i < |ns| ==> ns[i] < |cells|
    requires before == Apply(vf, v0, NextToUpdates(cells, top, height, ns[..j]))
    requires after == Apply(vf, before, NextToUpdate(top, height, cells[ns[j]]))
    ensures after == Apply(vf, v0, NextToUpdates(cells, top, height, ns[..j + 1]))
  {
    assert ns[..j + 1][..j] == ns[..j];
    ApplyAppend(vf, v0, NextToUpdates(cells, top, height, ns[..j]), NextToUpdate(top, height, cells[ns[j]]));
  }

  /** The capstone and wall part of the stack loop. */
  method StackTopEval(s: nat, vf: ValueFeatures, coeffs: array<real>, ps: seq<Piece>)
    requires Layout(s, vf, coeffs.Length) && |ps| > 1
    modifies coeffs
    ensures coeffs[..] == Apply(vf, old(coeffs[..]), StackTopUpdates(ps))
  {
    ghost var v0 := coeffs[..];
    var top := ps[|ps| - 1];
    var controlling := top.Color();
    var factor := controlling.Multiplier() as real;
    ghost var a: seq<Update> := [];
    if top.Role() == Cap && ps[|ps| - 2].Color() == controlling {
      Write(s, vf, coeffs, Add(CapstoneOverOwnPiece, 0, factor));
      a := [Add(CapstoneOverOwnPiece, 0, factor)];
      ApplySnoc(vf, v0, [], a[0]);
      assert [] + [a[0]] == a;
    }
    ghost var v1 := coeffs[..];
    ghost var b: seq<Update> := [];
    match top.Role() {
      case Cap =>
        Write(s, vf, coeffs, Add(CapstoneOnStack, 0, factor));
        b := [Add(CapstoneOnStack, 0, factor)];
      case Flat =>
      case Wall =>
        Write(s, vf, coeffs, Add(StandingStoneOnStack, 0, factor));
        b := [Add(StandingStoneOnStack, 0, factor)];
    }
    if b != [] {
      ApplySnoc(vf, v1, [], b[0]);
      assert [] + [b[0]] == b;
    }
    ApplyAppend(vf, v0, a, b);
  }

  /** The stack loop on one square holding at least two pieces. */
  method StackEval(s: nat, vf: ValueFeatures, coeffs: array<real>, cells: seq<seq<Piece>>, sq: nat)
    requires Layout(s, vf, coeffs.Length) && |cells| == s * s && sq < s * s && |cells[sq]| > 1
    modifies coeffs
    ensures coeffs[..] == Apply(vf, old(coeffs[..]), StackUpdates(s, cells, sq))
  {
    ghost var v0 := coeffs[..];
    var ps := cells[sq];
    var top := ps[|ps| - 1];
    StackTopEval(s, vf, coeffs, ps);
    NeighboursOnBoard(s, sq);
    var ns := Neighbours(s, sq);
    NextToEval(s, vf, coeffs, cells, top, |ps|, ns);
    ApplyAppend(vf, v0, StackTopUpdates(ps), NextToUpdates(cells, top, |ps|, ns));
  }

  // ---------------------------------------------------------------------------
  // Lines (value_eval.rs:151-159, 218-236)

  /** The `j`th square of line `k`: lines 0 to s - 1 are the ranks, s to 2s - 1 the files. */
  function LineSquare(s: nat, k: nat, j: nat): nat
  {
    if k < s then k * s + j else j * s + (k - s)
  }

  lemma LineSquareOnBoard(s: nat, k: nat, j: nat)
    requires EvalSize(s) && k < 2 * s && j < s
    ensures LineSquare(s, k, j) < s * s <= 36
  {
    if k < s {
      RankFileBelow(s, k, j);
    } else {
      RankFileBelow(s, j, k - s);
    }
    assert s * s <= 36 by {
      assert s * s <= 6 * s;
    }
  }

  lemma LineSquareIncreasing(s: nat, k: nat, i: nat, j: nat)
    requires EvalSize(s) && k < 2 * s && i < j
    ensures LineSquare(s, k, i) < LineSquare(s, k, j)
  {
    if k >= s {
      assert i * s < j * s;
    }
  }

  /** The first `n` squares of line `k`. */
  function LinePart(s: nat, k: nat, n: nat): set<nat>
  {
    set j | 0 <= j < n :: LineSquare(s, k, j)
  }

  lemma {:induction false} LinePartSize(s: nat, k: nat, n: nat)
    requires EvalSize(s) && k < 2 * s
    ensures |LinePart(s, k, n)| == n
  {
    if n > 0 {
      LinePartSize(s, k, n - 1);
      var x := LineSquare(s, k, n - 1);
      assert LinePart(s, k, n) == LinePart(s, k, n - 1) + {x};
      forall j | 0 <= j < n - 1 ensures LineSquare(s, k, j) != x {
        LineSquareIncreasing(s, k, j, n - 1);
      }
      assert x !in LinePart(s, k, n - 1);
    }
  }

  /** Line `k` of `BitBoard::all_lines`, as the set of its squares: rank `k` when `k < s`, else file `k - s`. */
  function Line(s: nat, k: nat): set<nat>
  {
    set j | 0 <= j < s :: LineSquare(s, k, j)
  }

  /** Each line has `s` squares. */
  lemma LineSize(s: nat, k: nat)
    requires EvalSize(s) && k < 2 * s
    ensures |Line(s, k)| == s
  {
    LinePartSize(s, k, s);
    assert Line(s, k) == LinePart(s, k, s);
  }

  /** Line `k` is the rank (or file) it is meant to be. */
  lemma LineMembers(s: nat, k: nat, x: nat)
    requires EvalSize(s) && k < 2 * s
    ensures x in Line(s, k) <==> x < s * s && (if k < s then Rank(s, x) == k else File(s, x) == k - s)
  {
    if x < s * s && (if k < s then Rank(s, x) == k else File(s, x) == k - s) {
      RankFileOf(s, x);
      if k < s {
        assert x == LineSquare(s, k, File(s, x));
      } else {
        assert x == LineSquare(s, k, Rank(s, x));
      }
    }
    if x in Line(s, k) {
      var j :| 0 <= j < s && x == LineSquare(s, k, j);
      LineSquareOnBoard(s, k, j);
      if k < s {
        DivModUnique(x, s, k, j);
      } else {
        DivModUnique(x, s, j, k - s);
      }
    }
  }

  /** Every square lies on its rank and on its file. */
  lemma SquareOnLines(s: nat, x: nat)
    requires EvalSize(s) && x < s * s
    ensures Rank(s, x) < s && File(s, x) < s
    ensures x in Line(s, Rank(s, x)) && x in Line(s, s + File(s, x))
  {
    RankFileOf(s, x);
    assert x == LineSquare(s, Rank(s, x), File(s, x));
    assert x == LineSquare(s, s + File(s, x), Rank(s, x));
  }

  function RoadStones(g: GroupData, c: Color): BitBoard
  {
    if c == White then g.WhiteRoadPieces() else g.BlackRoadPieces()
  }

  function FlatsOf(g: GroupData, c: Color): BitBoard
  {
    if c == White then g.whiteFlats else g.blackFlats
  }

  function WallsOf(g: GroupData, c: Color): BitBoard
  {
    if c == White then g.whiteWalls else g.blackWalls
  }

  function CapsOf(g: GroupData, c: Color): BitBoard
  {
    if c == White then g.whiteCaps else g.blackCaps
  }

  /**
   * The writes of `line_score` for `us` on a line holding `n` of our road stones and `flats`,
   * `walls` and `caps` of theirs.
   */
  function LineScoreUpdates(us: Color, n: nat, flats: nat, walls: nat, caps: nat): seq<Update>
  {
    var sign := us.Opposite().Multiplier();
    [Add(LineControl, n, us.Multiplier() as real)] +
    (if n >= 3
     then [Add(BlockTheirLine, n - 3, (flats * sign) as real),
           Add(BlockTheirLine, 2 + n - 3, (walls * sign) as real),
           Add(BlockTheirLine, 4 + n - 3, (caps * sign) as real)]
     else [])
  }

  /** `line_score` for `us` on line `k`. */
  function LineUpdates(s: nat, g: GroupData, us: Color, k: nat): seq<Update>
    requires EvalSize(s) && k < 2 * s
  {
    var line := Line(s, k);
    var them := us.Opposite();
    LineScoreUpdates(us, |RoadStones(g, us) * line|, |FlatsOf(g, them) * line|, |WallsOf(g, them) * line|,
                     |CapsOf(g, them) * line|)
  }

  lemma ProperSubsetCard<T>(a: set<T>, b: set<T>)
    requires a <= b && a != b
    ensures |a| < |b|
  {
    var x :| x in b && x !in a;
    SubsetCard(a + {x}, b);
  }

  /** A line holds at most `s` of our road stones, and fewer exactly when it is not all ours. */
  lemma LineCount(s: nat, g: GroupData, us: Color, k: nat)
    requires EvalSize(s) && k < 2 * s
    ensures |RoadStones(g, us) * Line(s, k)| <= s
    ensures |RoadStones(g, us) * Line(s, k)| < s <==> !(Line(s, k) <= RoadStones(g, us))
  {
    var line := Line(s, k);
    var road := RoadStones(g, us);
    LineSize(s, k);
    SubsetCard(road * line, line);
    if line <= road {
      assert road * line == line;
    } else {
      ProperSubsetCard(road * line, line);
    }
  }

  /**
   * `line_score` on a line with `n` of our road stones: `line_control[n]` gets our sign once;
   * from three on, the three blocking sub-ranges get their flats, walls and capstones on the
   * line with their sign. With `n <= s`, every index is inside its sub-range exactly when
   * `n < s` (a completed straight road would index past the end of `block_their_line`).
   */
  lemma LineScoreMeaning(s: nat, us: Color, n: nat, flats: nat, walls: nat, caps: nat)
    requires EvalSize(s) && n <= s
    ensures forall j :: Tally(LineScoreUpdates(us, n, flats, walls, caps), LineControl, j) == (if j == n then 1 else 0)
    ensures |LineScoreUpdates(us, n, flats, walls, caps)| == (if n >= 3 then 4 else 1)
    ensures (forall u :: u in LineScoreUpdates(us, n, flats, walls, caps) ==> InBounds(s, u)) <==> n < s
    ensures forall u :: u in LineScoreUpdates(us, n, flats, walls, caps) ==> u.Add? && LineControl <= u.field <= BlockTheirLine
  {
    var r := LineScoreUpdates(us, n, flats, walls, caps);
    var a := [Add(LineControl, n, us.Multiplier() as real)];
    var b := r[1..];
    assert r == a + b;
    forall j ensures Tally(r, LineControl, j) == (if j == n then 1 else 0) {
      TallyAppend(a, b, LineControl, j);
      TallyNone(b, LineControl, j);
      assert a[..0] == [];
    }
    if n == s {
      assert r[3] in r && !InBounds(s, r[3]);
    }
  }

  /** The writes of `line_score` for `us` on a line with `n < s` of our road stones. */
  method LineScoreWrites(s: nat, vf: ValueFeatures, coeffs: array<real>, us: Color, n: nat, flats: nat, walls: nat, caps: nat)
    requires Layout(s, vf, coeffs.Length) && n < s
    modifies coeffs
    ensures coeffs[..] == Apply(vf, old(coeffs[..]), LineScoreUpdates(us, n, flats, walls, caps))
  {
    ghost var v0 := coeffs[..];
    ghost var r := LineScoreUpdates(us, n, flats, walls, caps);
    LineScoreMeaning(s, us, n, flats, walls, caps);
    var sign := us.Opposite().Multiplier();
    assert r[0] in r;
    Write(s, vf, coeffs, Add(LineControl, n, us.Multiplier() as real));
    ApplySnoc(vf, v0, [], r[0]);
    assert [] + [r[0]] == r[..1];
    if n >= 3 {
      assert r[1] in r && r[2] in r && r[3] in r;
      Write(s, vf, coeffs, Add(BlockTheirLine, n - 3, (flats * sign) as real));
      ApplySnoc(vf, v0, r[..1], r[1]);
      assert r[..1] + [r[1]] == r[..2];
      Write(s, vf, coeffs, Add(BlockTheirLine, 2 + n - 3, (walls * sign) as real));
      ApplySnoc(vf, v0, r[..2], r[2]);
      assert r[..2] + [r[2]] == r[..3];
      Write(s, vf, coeffs, Add(BlockTheirLine, 4 + n - 3, (caps * sign) as real));
      ApplySnoc(vf, v0, r[..3], r[3]);
      assert r[..3] + [r[3]] == r;
    } else {
      assert r[..1] == r;
    }
  }

  /** The writes of the line loop: White's `line_score` then Black's, for each line in turn. */
  function LineLists(s: nat, g: GroupData): (r: seq<seq<Update>>)
    requires EvalSize(s)
    ensures |r| == 2 * s && forall k :: 0 <= k < 2 * s ==> r[k] == LineUpdates(s, g, White, k) + LineUpdates(s, g, Black, k)
  {
    seq(2 * s, k requires 0 <= k < 2 * s => LineUpdates(s, g, White, k) + LineUpdates(s, g, Black, k))
  }

  /** `line_score` for `us` on line `k`, which is not entirely covered by our road stones. */
  method LineScore(s: nat, vf: ValueFeatures, coeffs: array<real>, g: GroupData, us: Color, k: nat)
    requires Layout(s, vf, coeffs.Length) && k < 2 * s && !(Line(s, k) <= RoadStones(g, us))
    modifies coeffs
    ensures coeffs[..] == Apply(vf, old(coeffs[..]), LineUpdates(s, g, us, k))
  {
    LineCount(s, g, us, k);
    var line := Line(s, k);
    var them := us.Opposite();
    LineScoreWrites(s, vf, coeffs, us, |RoadStones(g, us) * line|, |FlatsOf(g, them) * line|,
                    |WallsOf(g, them) * line|, |CapsOf(g, them) * line|);
  }

  /** No rank or file is entirely covered by one player's road stones: the game is not over by a straight road. */
  predicate NoFullLine(s: nat, g: GroupData)
    requires EvalSize(s)
  {
    forall k, c: Color :: 0 <= k < 2 * s ==> !(Line(s, k) <= RoadStones(g, c))
  }

  /** The loop over `BitBoard::all_lines`. */
  method LinePass(s: nat, vf: ValueFeatures, coeffs: array<real>, g: GroupData)
    requires Layout(s, vf, coeffs.Length) && NoFullLine(s, g)
    modifies coeffs
    ensures coeffs[..] == Apply(vf, old(coeffs[..]), Concat(LineLists(s, g)))
  {
    ghost var v0 := coeffs[..];
    ghost var lists := LineLists(s, g);
    var k := 0;
    while k < 2 * s
      invariant k <= 2 * s
      invariant coeffs[..] == Apply(vf, v0, Concat(lists[..k]))
    {
      ghost var before := coeffs[..];
      LineScore(s, vf, coeffs, g, White, k);
      ghost var mid := coeffs[..];
      LineScore(s, vf, coeffs, g, Black, k);
      ApplyAppend(vf, before, LineUpdates(s, g, White, k), LineUpdates(s, g, Black, k));
      PassStep(vf, v0, lists, k, before, coeffs[..]);
      k := k + 1;
    }
    assert lists[..k] == lists;
  }

  // ---------------------------------------------------------------------------
  // Lines occupied (value_eval.rs:151-154, 161-182)

  /** How many of the lines `from` to `from + n - 1` share a square with `road`. */
  function OccupiedLines(s: nat, road: BitBoard, from: nat, n: nat): (r: nat)
    requires EvalSize(s) && from + n <= 2 * s
    ensures r <= n
  {
    if n == 0 then 0
    else OccupiedLines(s, road, from, n - 1) + (if road !! Line(s, from + n - 1) then 0 else 1)
  }

  /** The four `num_lines_occupied` writes: White's ranks and files, then Black's. */
  function OccupiedUpdates(s: nat, g: GroupData): seq<Update>
    requires EvalSize(s)
  {
    [Add(NumLinesOccupied, OccupiedLines(s, RoadStones(g, White), 0, s), 1.0),
     Add(NumLinesOccupied, OccupiedLines(s, RoadStones(g, White), s, s), 1.0),
     Add(NumLinesOccupied, OccupiedLines(s, RoadStones(g, Black), 0, s), -1.0),
     Add(NumLinesOccupied, OccupiedLines(s, RoadStones(g, Black), s, s), -1.0)]
  }

  /** No line is counted exactly when none of them holds a square of `road`. */
  lemma {:induction false} OccupiedNone(s: nat, road: BitBoard, from: nat, n: nat)
    requires EvalSize(s) && from + n <= 2 * s
    ensures OccupiedLines(s, road, from, n) == 0 <==> forall j :: from <= j < from + n ==> road !! Line(s, j)
  {
    if n > 0 {
      OccupiedNone(s, road, from, n - 1);
      var last := road !! Line(s, from + n - 1);
      assert OccupiedLines(s, road, from, n) == OccupiedLines(s, road, from, n - 1) + (if last then 0 else 1);
      assert (forall j :: from <= j < from + n ==> road !! Line(s, j)) <==>
        (forall j :: from <= j < from + n - 1 ==> road !! Line(s, j)) && last;
    }
  }

  /**
   * For road stones on the board, the count of occupied ranks, and that of occupied files, is
   * zero exactly when there is no road stone at all.
   */
  lemma NoLinesOccupied(s: nat, road: BitBoard)
    requires EvalSize(s) && forall x :: x in road ==> x < s * s
    ensures OccupiedLines(s, road, 0, s) == 0 <==> road == {}
    ensures OccupiedLines(s, road, s, s) == 0 <==> road == {}
  {
    OccupiedNone(s, road, 0, s);
    OccupiedNone(s, road, s, s);
    if road != {} {
      var x :| x in road;
      SquareOnLines(s, x);
      assert !(road !! Line(s, Rank(s, x)));
      assert !(road !! Line(s, s + File(s, x)));
    }
  }

  /** The four writes are additions inside `num_lines_occupied`: two of one for White, then two of minus one for Black. */
  lemma OccupiedUpdatesMeaning(s: nat, g: GroupData)
    requires EvalSize(s)
    ensures forall u :: u in OccupiedUpdates(s, g) ==> u.Add? && u.field == NumLinesOccupied && InBounds(s, u)
    ensures forall i :: 0 <= i < |OccupiedUpdates(s, g)| ==> OccupiedUpdates(s, g)[i].amount == if i < 2 then 1.0 else -1.0
  {
    assert Width(s, NumLinesOccupied) == s + 1;
  }

  /** `num_ranks_occupied` and `num_files_occupied`, counted up to line `i` of the group. */
  lemma OccupiedStep(s: nat, road: BitBoard, from: nat, i: nat, count: int, next: int)
    requires EvalSize(s) && from + i < 2 * s && i < s
    requires count == OccupiedLines(s, road, from, i)
    requires next == count + (if road !! Line(s, from + i) then 0 else 1)
    ensures next == OccupiedLines(s, road, from, i + 1)
  {
  }

  /** One of the two counting loops: the lines `from` to `from + s - 1` that White's and Black's road stones occupy. */
  method CountOccupied(s: nat, white: BitBoard, black: BitBoard, from: nat) returns (w: int, b: int)
    requires EvalSize(s) && from <= s
    ensures w == OccupiedLines(s, white, from, s) && b == OccupiedLines(s, black, from, s)
  {
    w, b := 0, 0;
    var i := 0;
    while i < s
      invariant i <= s
      invariant w == OccupiedLines(s, white, from, i) && b == OccupiedLines(s, black, from, i)
    {
      var w' := w + (if white !! Line(s, from + i) then 0 else 1);
      var b' := b + (if black !! Line(s, from + i) then 0 else 1);
      OccupiedStep(s, white, from, i, w, w');
      OccupiedStep(s, black, from, i, b, b');
      w, b := w', b';
      i := i + 1;
    }
  }

  /** The four `num_lines_occupied` writes, for counts that fit the sub-range. */
  method OccupiedWrites(s: nat, vf: ValueFeatures, coeffs: array<real>, ranksWhite: nat, filesWhite: nat, ranksBlack: nat, filesBlack: nat)
    requires Layout(s, vf, coeffs.Length) && ranksWhite <= s && filesWhite <= s && ranksBlack <= s && filesBlack <= s
    modifies coeffs
    ensures coeffs[..] == Apply(vf, old(coeffs[..]),
      [Add(NumLinesOccupied, ranksWhite, 1.0), Add(NumLinesOccupied, filesWhite, 1.0),
       Add(NumLinesOccupied, ranksBlack, -1.0), Add(NumLinesOccupied, filesBlack, -1.0)])
  {
    ghost var v0 := coeffs[..];
    var r := [Add(NumLinesOccupied, ranksWhite, 1.0), Add(NumLinesOccupied, filesWhite, 1.0),
              Add(NumLinesOccupied, ranksBlack, -1.0), Add(NumLinesOccupied, filesBlack, -1.0)];
    Write(s, vf, coeffs, r[0]);
    ApplySnoc(vf, v0, [], r[0]);
    assert [] + [r[0]] == r[..1];
    Write(s, vf, coeffs, r[1]);
    ApplySnoc(vf, v0, r[..1], r[1]);
    assert r[..1] + [r[1]] == r[..2];
    Write(s, vf, coeffs, r[2]);
    ApplySnoc(vf, v0, r[..2], r[2]);
    assert r[..2] + [r[2]] == r[..3];
    Write(s, vf, coeffs, r[3]);
    ApplySnoc(vf, v0, r[..3], r[3]);
    assert r[..3] + [r[3]] == r;
  }

  /** The rank loop, the file loop and the four `num_lines_occupied` writes. */
  method LinesOccupiedEval(s: nat, vf: ValueFeatures, coeffs: array<real>, g: GroupData)
    requires Layout(s, vf, coeffs.Length)
    modifies coeffs
    ensures coeffs[..] == Apply(vf, old(coeffs[..]), OccupiedUpdates(s, g))
  {
    var white, black := RoadStones(g, White), RoadStones(g, Black);
    var ranksWhite, ranksBlack := CountOccupied(s, white, black, 0);
    var filesWhite, filesBlack := CountOccupied(s, white, black, s);
    OccupiedWrites(s, vf, coeffs, ranksWhite, filesWhite, ranksBlack, filesBlack);
  }

  // ---------------------------------------------------------------------------
  // The whole evaluation (value_eval.rs:11-183)

  /** The nine phase assignments, opening first. */
  method PhasePass(s: nat, vf: ValueFeatures, coeffs: array<real>, halfMoves: nat, toMove: Color, lead: int, groups: int)
    requires Layout(s, vf, coeffs.Length)
    modifies coeffs
    ensures coeffs[..] == Apply(vf, old(coeffs[..]), PhaseAssignments(halfMoves, toMove, lead, groups))
  {
    ghost var v0 := coeffs[..];
    var h := halfMoves as real;
    var opening := MinReal(MaxReal((24.0 - h) / 12.0, 0.0), 1.0);
    var endgame := MinReal(MaxReal((h - 24.0) / 24.0, 0.0), 1.0);
    var middlegame := 1.0 - opening - endgame;
    AssignPhase(s, vf, coeffs, 0, opening, toMove, lead, groups);
    ghost var v1 := coeffs[..];
    AssignPhase(s, vf, coeffs, 1, middlegame, toMove, lead, groups);
    ApplyAppend(vf, v0, PhaseUpdates(0, opening, toMove, lead, groups), PhaseUpdates(1, middlegame, toMove, lead, groups));
    AssignPhase(s, vf, coeffs, 2, endgame, toMove, lead, groups);
    ApplyAppend(vf, v0, PhaseUpdates(0, opening, toMove, lead, groups) + PhaseUpdates(1, middlegame, toMove, lead, groups),
                PhaseUpdates(2, endgame, toMove, lead, groups));
  }

  /** The writes of the critical-square loop of `us`, square by square. */
  function CriticalLists(s: nat, cells: seq<seq<Piece>>, critical: BitBoard, us: Color): (r: seq<seq<Update>>)
    requires ValidSize(s) && |cells| == s * s
    ensures |r| == s * s
    ensures forall i :: 0 <= i < s * s ==> r[i] == if i in critical then CriticalUpdates(s, cells, us, i) else []
  {
    seq(s * s, i requires 0 <= i < s * s => if i in critical then CriticalUpdates(s, cells, us, i) else [])
  }

  /** The loop over the critical squares of `us`, in increasing order. */
  method CriticalPass(s: nat, vf: ValueFeatures, coeffs: array<real>, cells: seq<seq<Piece>>, critical: BitBoard, us: Color)
    requires Layout(s, vf, coeffs.Length) && |cells| == s * s
    modifies coeffs
    ensures coeffs[..] == Apply(vf, old(coeffs[..]), Concat(CriticalLists(s, cells, critical, us)))
  {
    ghost var v0 := coeffs[..];
    ghost var lists := CriticalLists(s, cells, critical, us);
    var sq := 0;
    while sq < s * s
      invariant sq <= s * s
      invariant coeffs[..] == Apply(vf, v0, Concat(lists[..sq]))
    {
      ghost var before := coeffs[..];
      if sq in critical {
        CriticalSquareEval(s, vf, coeffs, cells, us, sq);
      }
      PassStep(vf, v0, lists, sq, before, coeffs[..]);
      sq := sq + 1;
    }
    assert lists[..sq] == lists;
  }

  /** The writes of the stack loop, square by square; squares of height one or less write nothing. */
  function StackLists(s: nat, cells: seq<seq<Piece>>): (r: seq<seq<Update>>)
    requires ValidSize(s) && |cells| == s * s
    ensures |r| == s * s
    ensures forall i :: 0 <= i < s * s ==> r[i] == if |cells[i]| > 1 then StackUpdates(s, cells, i) else []
  {
    seq(s * s, i requires 0 <= i < s * s => if |cells[i]| > 1 then StackUpdates(s, cells, i) else [])
  }

  /** The loop over the squares holding stacks of two or more pieces. */
  method StackPass(s: nat, vf: ValueFeatures, coeffs: array<real>, cells: seq<seq<Piece>>)
    requires Layout(s, vf, coeffs.Length) && |cells| == s * s
    modifies coeffs
    ensures coeffs[..] == Apply(vf, old(coeffs[..]), Concat(StackLists(s, cells)))
  {
    ghost var v0 := coeffs[..];
    ghost var lists := StackLists(s, cells);
    var sq := 0;
    while sq < s * s
      invariant sq <= s * s
      invariant coeffs[..] == Apply(vf, v0, Concat(lists[..sq]))
    {
      ghost var before := coeffs[..];
      if |cells[sq]| > 1 {
        StackEval(s, vf, coeffs, cells, sq);
      }
      PassStep(vf, v0, lists, sq, before, coeffs[..]);
      sq := sq + 1;
    }
    assert lists[..sq] == lists;
  }

  /** `white_flatstone_lead`: White's flats on top minus Black's. */
  function FlatLead(s: nat, cells: seq<seq<Piece>>): int
    requires |cells| == s * s
  {
    TopCount(cells, WhiteFlat, s * s) - TopCount(cells, BlackFlat, s * s)
  }

  /** `number_of_groups` over the whole board. */
  function GroupCount(s: nat, cells: seq<seq<Piece>>, groups: seq<nat>): int
    requires |cells| == s * s && |groups| == s * s
  {
    GroupSum(groups, cells, s * s)
  }

  /** The writes after the phase assignments: critical squares of White, of Black, stacks, lines, lines occupied. */
  function LaterUpdates(s: nat, cells: seq<seq<Piece>>, g: GroupData): seq<Update>
    requires EvalSize(s) && |cells| == s * s
  {
    Concat(CriticalLists(s, cells, g.whiteCritical, White)) + Concat(CriticalLists(s, cells, g.blackCritical, Black)) +
    Concat(StackLists(s, cells)) + Concat(LineLists(s, g)) + OccupiedUpdates(s, g)
  }

  /** Every write of `static_eval_game_phase`, in order: the psqt loop, the phase assignments, then the rest. */
  function EvalUpdates(s: nat, p: Position, g: GroupData): seq<Update>
    requires EvalSize(s) && |p.cells| == s * s && |g.groups| == s * s
  {
    Concat(PsqtLists(s, p.cells)) +
    PhaseAssignments(p.halfMoves, p.toMove, FlatLead(s, p.cells), GroupCount(s, p.cells, g.groups)) +
    LaterUpdates(s, p.cells, g)
  }

  /** The writes of the evaluation, performed in its three stages. */
  lemma EvalApplySplit(vf: ValueFeatures, v: seq<real>, s: nat, p: Position, g: GroupData)
    requires EvalSize(s) && |p.cells| == s * s && |g.groups| == s * s
    ensures Apply(vf, v, EvalUpdates(s, p, g)) ==
      Apply(vf, Apply(vf, Apply(vf, v, Concat(PsqtLists(s, p.cells))),
                      PhaseAssignments(p.halfMoves, p.toMove, FlatLead(s, p.cells), GroupCount(s, p.cells, g.groups))),
            LaterUpdates(s, p.cells, g))
  {
    var a := Concat(PsqtLists(s, p.cells));
    var b := PhaseAssignments(p.halfMoves, p.toMove, FlatLead(s, p.cells), GroupCount(s, p.cells, g.groups));
    ApplyAppend(vf, v, a, b);
    ApplyAppend(vf, v, a + b, LaterUpdates(s, p.cells, g));
  }

  /** The phase assignments with the counts the loops computed. */
  lemma PhaseApply(vf: ValueFeatures, v: seq<real>, halfMoves: nat, toMove: Color, lead: int, lead': int, groups: int, groups': int)
    requires lead == lead' && groups == groups'
    ensures Apply(vf, v, PhaseAssignments(halfMoves, toMove, lead, groups)) ==
            Apply(vf, v, PhaseAssignments(halfMoves, toMove, lead', groups'))
  {
  }

  /** Everything after the phase assignments: both critical-square loops, the stack loop and the line loops. */
  method LaterPasses(s: nat, vf: ValueFeatures, coeffs: array<real>, cells: seq<seq<Piece>>, g: GroupData)
    requires Layout(s, vf, coeffs.Length) && |cells| == s * s && NoFullLine(s, g)
    modifies coeffs
    ensures coeffs[..] == Apply(vf, old(coeffs[..]), LaterUpdates(s, cells, g))
  {
    ghost var v1 := coeffs[..];
    CriticalPass(s, vf, coeffs, cells, g.whiteCritical, White);
    ghost var c1 := Concat(CriticalLists(s, cells, g.whiteCritical, White));
    CriticalPass(s, vf, coeffs, cells, g.blackCritical, Black);
    ghost var c2 := Concat(CriticalLists(s, cells, g.blackCritical, Black));
    ApplyAppend(vf, v1, c1, c2);
    StackPass(s, vf, coeffs, cells);
    ghost var c3 := Concat(StackLists(s, cells));
    ApplyAppend(vf, v1, c1 + c2, c3);
    LinePass(s, vf, coeffs, g);
    ghost var c4 := Concat(LineLists(s, g));
    ApplyAppend(vf, v1, c1 + c2 + c3, c4);
    LinesOccupiedEval(s, vf, coeffs, g);
    ApplyAppend(vf, v1, c1 + c2 + c3 + c4, OccupiedUpdates(s, g));
  }

  /** The evaluation, given what it uses of the group data. */
  method StaticEval(s: nat, vf: ValueFeatures, coeffs: array<real>, p: Position, g: GroupData)
    requires Layout(s, vf, coeffs.Length) && |p.cells| == s * s && |g.groups| == s * s
    requires forall x :: 0 <= x < s * s ==> g.groups[x] <= s * s
    requires forall x :: 0 <= x < s * s && g.groups[x] != 0 ==> p.cells[x] != []
    requires NoFullLine(s, g)
    modifies coeffs
    ensures coeffs[..] == Apply(vf, old(coeffs[..]), EvalUpdates(s, p, g))
  {
    EvalApplySplit(vf, coeffs[..], s, p, g);
    EarlyPasses(s, vf, coeffs, p, g);
    LaterPasses(s, vf, coeffs, p.cells, g);
  }

  /** The psqt loop, the two counts and the phase assignments. */
  method EarlyPasses(s: nat, vf: ValueFeatures, coeffs: array<real>, p: Position, g: GroupData)
    requires Layout(s, vf, coeffs.Length) && |p.cells| == s * s && |g.groups| == s * s
    requires forall x :: 0 <= x < s * s ==> g.groups[x] <= s * s
    requires forall x :: 0 <= x < s * s && g.groups[x] != 0 ==> p.cells[x] != []
    modifies coeffs
    ensures coeffs[..] == Apply(vf, Apply(vf, old(coeffs[..]), Concat(PsqtLists(s, p.cells))),
                                PhaseAssignments(p.halfMoves, p.toMove, FlatLead(s, p.cells), GroupCount(s, p.cells, g.groups)))
  {
    var whiteFlats, blackFlats := PsqtPass(s, vf, coeffs, p.cells);
    var lead := whiteFlats - blackFlats;
    var groups := NumberOfGroups(s, p.cells, g.groups);
    ghost var v := coeffs[..];
    PhasePass(s, vf, coeffs, p.halfMoves, p.toMove, lead, groups);
    PhaseApply(vf, v, p.halfMoves, p.toMove, lead, FlatLead(s, p.cells), groups, GroupCount(s, p.cells, g.groups));
  }

  /**
   * `static_eval_game_phase`: for a position of a size with an evaluation, its group data,
   * and no completed straight road, the coefficient vector ends as every write of the
   * evaluation applied in order to what it held.
   */
  method StaticEvalGamePhase(s: nat, vf: ValueFeatures, coeffs: array<real>, p: Position, g: GroupData)
    requires Layout(s, vf, coeffs.Length) && |p.cells| == s * s && |g.groups| == s * s
    requires GroupsOf(s, Tops(p.cells), g) && NoFullLine(s, g)
    modifies coeffs
    ensures coeffs[..] == Apply(vf, old(coeffs[..]), EvalUpdates(s, p, g))
  {
    GroupDataByColor(s, p.cells, g);
    StaticEval(s, vf, coeffs, p, g);
  }

  // ---------------------------------------------------------------------------
  // What the whole evaluation writes

  /** The coefficient `field[index]` of a vector laid out by `vf` (0 off the vector). */
  function At(vf: ValueFeatures, v: seq<real>, field: nat, index: nat): real
  {
    var k := Slot(vf, field, index);
    if k < |v| then v[k] else 0.0
  }

  /** Additions inside their sub-ranges, none of them to the three phase-split features. */
  predicate AddsElsewhere(s: nat, ups: seq<Update>)
  {
    forall u :: u in ups ==> u.Add? && InBounds(s, u) && !(SideToMove <= u.field <= INumberOfGroups)
  }

  lemma ConcatAdds(s: nat, lists: seq<seq<Update>>)
    requires forall i :: 0 <= i < |lists| ==> AddsElsewhere(s, lists[i])
    ensures AddsElsewhere(s, Concat(lists))
  {
    forall u | u in Concat(lists)
      ensures u.Add? && InBounds(s, u) && !(SideToMove <= u.field <= INumberOfGroups)
    {
      ConcatMembers(lists, u);
      var i :| 0 <= i < |lists| && u in lists[i];
    }
  }

  lemma PsqtAdds(s: nat, cells: seq<seq<Piece>>)
    requires EvalSize(s) && |cells| == s * s
    ensures AddsElsewhere(s, Concat(PsqtLists(s, cells)))
  {
    var lists := PsqtLists(s, cells);
    forall i | 0 <= i < |lists| ensures AddsElsewhere(s, lists[i]) {
      PsqtInBounds(s, cells, i);
    }
    ConcatAdds(s, lists);
  }

  lemma CriticalAdds(s: nat, cells: seq<seq<Piece>>, critical: BitBoard, us: Color)
    requires EvalSize(s) && |cells| == s * s
    ensures AddsElsewhere(s, Concat(CriticalLists(s, cells, critical, us)))
  {
    var lists := CriticalLists(s, cells, critical, us);
    forall i | 0 <= i < |lists| ensures AddsElsewhere(s, lists[i]) {
      if i in critical {
        CriticalUpdatesMeaning(s, cells, us, i);
      }
    }
    ConcatAdds(s, lists);
  }

  lemma StackAdds(s: nat, cells: seq<seq<Piece>>)
    requires EvalSize(s) && |cells| == s * s
    ensures AddsElsewhere(s, Concat(StackLists(s, cells)))
  {
    var lists := StackLists(s, cells);
    forall i | 0 <= i < |lists| ensures AddsElsewhere(s, lists[i]) {
      if |cells[i]| > 1 {
        StackSquareAdds(s, cells, i);
      }
    }
    ConcatAdds(s, lists);
  }

  lemma StackSquareAdds(s: nat, cells: seq<seq<Piece>>, sq: nat)
    requires EvalSize(s) && |cells| == s * s && sq < s * s && |cells[sq]| > 1
    ensures AddsElsewhere(s, StackUpdates(s, cells, sq))
  {
    var ps := cells[sq];
    StackUpdatesBounds(s, cells, sq, ps[|ps| - 1]);
  }

  lemma LineAdds(s: nat, g: GroupData)
    requires EvalSize(s) && NoFullLine(s, g)
    ensures AddsElsewhere(s, Concat(LineLists(s, g)))
  {
    var lists := LineLists(s, g);
    forall k | 0 <= k < |lists| ensures AddsElsewhere(s, lists[k]) {
      OneLineAdds(s, g, White, k);
      OneLineAdds(s, g, Black, k);
    }
    ConcatAdds(s, lists);
  }

  lemma OneLineAdds(s: nat, g: GroupData, us: Color, k: nat)
    requires EvalSize(s) && k < 2 * s && !(Line(s, k) <= RoadStones(g, us))
    ensures AddsElsewhere(s, LineUpdates(s, g, us, k))
  {
    LineCount(s, g, us, k);
    var line := Line(s, k);
    var them := us.Opposite();
    LineScoreMeaning(s, us, |RoadStones(g, us) * line|, |FlatsOf(g, them) * line|, |WallsOf(g, them) * line|,
                     |CapsOf(g, them) * line|);
  }

  /**
   * Every write of the evaluation is inside its sub-range (no slice index panics), and the
   * only assignments are the nine phase-split ones; every other write is an addition.
   */
  lemma EvalWrites(s: nat, p: Position, g: GroupData)
    requires EvalSize(s) && |p.cells| == s * s && |g.groups| == s * s && NoFullLine(s, g)
    ensures forall u :: u in EvalUpdates(s, p, g) ==>
      InBounds(s, u) && (u.Put? <==> SideToMove <= u.field <= INumberOfGroups)
  {
    PsqtAdds(s, p.cells);
    LaterAdds(s, p.cells, g);
    PhaseAssignmentsFields(s, p.halfMoves, p.toMove, FlatLead(s, p.cells), GroupCount(s, p.cells, g.groups));
  }

  lemma LaterAdds(s: nat, cells: seq<seq<Piece>>, g: GroupData)
    requires EvalSize(s) && |cells| == s * s && NoFullLine(s, g)
    ensures AddsElsewhere(s, LaterUpdates(s, cells, g))
  {
    var a, b := Concat(CriticalLists(s, cells, g.whiteCritical, White)), Concat(CriticalLists(s, cells, g.blackCritical, Black));
    var c, d, e := Concat(StackLists(s, cells)), Concat(LineLists(s, g)), OccupiedUpdates(s, g);
    CriticalAdds(s, cells, g.whiteCritical, White);
    CriticalAdds(s, cells, g.blackCritical, Black);
    StackAdds(s, cells);
    LineAdds(s, g);
    OccupiedUpdatesMeaning(s, g);
    assert AddsElsewhere(s, e);
    AddsAppend(s, a, b);
    AddsAppend(s, a + b, c);
    AddsAppend(s, a + b + c, d);
    AddsAppend(s, a + b + c + d, e);
  }

  lemma AddsAppend(s: nat, a: seq<Update>, b: seq<Update>)
    requires AddsElsewhere(s, a) && AddsElsewhere(s, b)
    ensures AddsElsewhere(s, a + b)
  {
  }

  /** Updates to other in-bounds coefficients leave `field[index]` as it was. */
  lemma {:induction false} ApplyElsewhere(s: nat, vf: ValueFeatures, v: seq<real>, ups: seq<Update>,
                                          field: nat, index: nat)
    requires Layout(s, vf, |v|) && field < 18 && index < Width(s, field)
    requires forall u :: u in ups ==> InBounds(s, u) && (u.field != field || u.index != index)
    ensures At(vf, Apply(vf, v, ups), field, index) == At(vf, v, field, index)
    decreases |ups|
  {
    if ups != [] {
      var init, u := ups[..|ups| - 1], ups[|ups| - 1];
      assert forall w :: w in init ==> w in ups;
      ApplyElsewhere(s, vf, v, init, field, index);
      assert u in ups;
      SlotsDistinct(s, vf, |v|, u.field, u.index, field, index);
    }
  }

  /** After one phase's assignments its three coefficients hold the assigned values. */
  lemma PhaseSlots(s: nat, vf: ValueFeatures, v: seq<real>, phase: nat, weight: real,
                   toMove: Color, lead: int, groups: int)
    requires Layout(s, vf, |v|) && phase < 3
    ensures PhaseCopies(vf, Apply(vf, v, PhaseUpdates(phase, weight, toMove, lead, groups)), weight,
                        toMove, lead, groups, phase)
  {
    var ups := PhaseUpdates(phase, weight, toMove, lead, groups);
    assert ups[..1][..0] == [];
    ApplySnoc(vf, v, ups[..1], ups[1]);
    assert ups[..1] + [ups[1]] == ups[..2];
    ApplySnoc(vf, v, ups[..2], ups[2]);
    assert ups[..2] + [ups[2]] == ups;
    var v1 := Apply(vf, v, ups[..1]);
    var v2 := Apply(vf, v, ups[..2]);
    var v3 := Apply(vf, v, ups);
    var k0, k1, k2 := Slot(vf, SideToMove, phase), Slot(vf, FlatstoneLead, phase), Slot(vf, INumberOfGroups, phase);
    SlotBound(s, vf, |v|, SideToMove, phase);
    SlotBound(s, vf, |v|, FlatstoneLead, phase);
    SlotBound(s, vf, |v|, INumberOfGroups, phase);
    SlotsDistinct(s, vf, |v|, SideToMove, phase, FlatstoneLead, phase);
    SlotsDistinct(s, vf, |v|, SideToMove, phase, INumberOfGroups, phase);
    SlotsDistinct(s, vf, |v|, FlatstoneLead, phase, INumberOfGroups, phase);
    assert v1 == v[k0 := ups[0].value];
    assert v2 == v1[k1 := ups[1].value];
    assert v3 == v2[k2 := ups[2].value];
    assert At(vf, v3, SideToMove, phase) == ups[0].value;
    assert At(vf, v3, FlatstoneLead, phase) == ups[1].value;
    assert At(vf, v3, INumberOfGroups, phase) == ups[2].value;
  }

  /** The weight of `phase` (0 opening, 1 middlegame, 2 endgame) `halfMoves` plies in. */
  function Weight(halfMoves: nat, phase: nat): real
  {
    var f := PhaseFactors(halfMoves);
    if phase == 0 then f.0 else if phase == 1 then f.1 else f.2
  }

  /** The three phase-split features hold their value times the phase's weight. */
  predicate PhaseSplit(vf: ValueFeatures, v: seq<real>, halfMoves: nat, toMove: Color, lead: int, groups: int)
  {
    forall phase :: 0 <= phase < 3 ==> PhaseCopies(vf, v, Weight(halfMoves, phase), toMove, lead, groups, phase)
  }

  /** A later phase's assignments leave an earlier phase's coefficients alone. */
  lemma PhaseKeeps(s: nat, vf: ValueFeatures, v: seq<real>, phase: nat, weight: real,
                   toMove: Color, lead: int, groups: int, other: nat, otherWeight: real)
    requires Layout(s, vf, |v|) && phase < 3 && other < 3 && other != phase
    requires PhaseCopies(vf, v, otherWeight, toMove, lead, groups, other)
    ensures PhaseCopies(vf, Apply(vf, v, PhaseUpdates(phase, weight, toMove, lead, groups)), otherWeight,
                        toMove, lead, groups, other)
  {
    var ups := PhaseUpdates(phase, weight, toMove, lead, groups);
    ApplyElsewhere(s, vf, v, ups, SideToMove, other);
    ApplyElsewhere(s, vf, v, ups, FlatstoneLead, other);
    ApplyElsewhere(s, vf, v, ups, INumberOfGroups, other);
  }

  /** After the nine assignments every phase copy holds its weighted value. */
  lemma PhaseAssignmentsSplit(s: nat, vf: ValueFeatures, v: seq<real>, halfMoves: nat,
                              toMove: Color, lead: int, groups: int)
    requires Layout(s, vf, |v|)
    ensures PhaseSplit(vf, Apply(vf, v, PhaseAssignments(halfMoves, toMove, lead, groups)), halfMoves, toMove, lead, groups)
  {
    forall phase | 0 <= phase < 3
      ensures PhaseCopies(vf, Apply(vf, v, PhaseAssignments(halfMoves, toMove, lead, groups)), Weight(halfMoves, phase),
                        toMove, lead, groups, phase)
    {
      PhaseAssignmentsCopy(s, vf, v, halfMoves, toMove, lead, groups, phase);
    }
  }

  /** The three features' copies for `phase` hold their value times the phase's weight. */
  predicate PhaseCopies(vf: ValueFeatures, v: seq<real>, weight: real, toMove: Color, lead: int, groups: int,
                        phase: nat)
  {
    At(vf, v, SideToMove, phase) == toMove.Multiplier() as real * weight &&
    At(vf, v, FlatstoneLead, phase) == lead as real * weight &&
    At(vf, v, INumberOfGroups, phase) == groups as real * weight
  }

  lemma PhaseAssignmentsCopy(s: nat, vf: ValueFeatures, v: seq<real>, halfMoves: nat,
                             toMove: Color, lead: int, groups: int, phase: nat)
    requires Layout(s, vf, |v|) && phase < 3
    ensures PhaseCopies(vf, Apply(vf, v, PhaseAssignments(halfMoves, toMove, lead, groups)), Weight(halfMoves, phase),
                        toMove, lead, groups, phase)
  {
    var f := PhaseFactors(halfMoves);
    var a, b, c := PhaseUpdates(0, f.0, toMove, lead, groups), PhaseUpdates(1, f.1, toMove, lead, groups),
                   PhaseUpdates(2, f.2, toMove, lead, groups);
    var v1 := Apply(vf, v, a);
    var v2 := Apply(vf, v1, b);
    var v3 := Apply(vf, v2, c);
    ApplyAppend(vf, v, a, b);
    ApplyAppend(vf, v, a + b, c);
    assert PhaseAssignments(halfMoves, toMove, lead, groups) == a + b + c;
    assert Apply(vf, v, PhaseAssignments(halfMoves, toMove, lead, groups)) == v3;
    if phase == 0 {
      PhaseSlots(s, vf, v, 0, f.0, toMove, lead, groups);
      PhaseKeeps(s, vf, v1, 1, f.1, toMove, lead, groups, 0, f.0);
      PhaseKeeps(s, vf, v2, 2, f.2, toMove, lead, groups, 0, f.0);
    } else if phase == 1 {
      PhaseSlots(s, vf, v1, 1, f.1, toMove, lead, groups);
      PhaseKeeps(s, vf, v2, 2, f.2, toMove, lead, groups, 1, f.1);
    } else {
      PhaseSlots(s, vf, v2, 2, f.2, toMove, lead, groups);
    }
  }

  /** Additions elsewhere keep the phase-split coefficients. */
  lemma AddsKeepPhase(s: nat, vf: ValueFeatures, v: seq<real>, ups: seq<Update>, halfMoves: nat,
                      toMove: Color, lead: int, groups: int)
    requires Layout(s, vf, |v|) && AddsElsewhere(s, ups) && PhaseSplit(vf, v, halfMoves, toMove, lead, groups)
    ensures PhaseSplit(vf, Apply(vf, v, ups), halfMoves, toMove, lead, groups)
  {
    forall phase | 0 <= phase < 3
      ensures PhaseCopies(vf, Apply(vf, v, ups), Weight(halfMoves, phase), toMove, lead, groups, phase)
    {
      AddsKeepCopies(s, vf, v, ups, Weight(halfMoves, phase), toMove, lead, groups, phase);
    }
  }

  lemma AddsKeepCopies(s: nat, vf: ValueFeatures, v: seq<real>, ups: seq<Update>, weight: real,
                       toMove: Color, lead: int, groups: int, phase: nat)
    requires Layout(s, vf, |v|) && phase < 3 && AddsElsewhere(s, ups)
    requires PhaseCopies(vf, v, weight, toMove, lead, groups, phase)
    ensures PhaseCopies(vf, Apply(vf, v, ups), weight, toMove, lead, groups, phase)
  {
    ApplyElsewhere(s, vf, v, ups, SideToMove, phase);
    ApplyElsewhere(s, vf, v, ups, FlatstoneLead, phase);
    ApplyElsewhere(s, vf, v, ups, INumberOfGroups, phase);
  }

  /**
   * Whatever the coefficients held before, after the evaluation the opening, middlegame and
   * endgame copies of side to move, flatstone lead and number of groups hold the position's
   * values weighted by its game phase.
   */
  lemma EvalPhase(s: nat, vf: ValueFeatures, v: seq<real>, p: Position, g: GroupData)
    requires Layout(s, vf, |v|) && |p.cells| == s * s && |g.groups| == s * s && NoFullLine(s, g)
    ensures PhaseSplit(vf, Apply(vf, v, EvalUpdates(s, p, g)), p.halfMoves, p.toMove, FlatLead(s, p.cells),
                       GroupCount(s, p.cells, g.groups))
  {
    var lead, groups := FlatLead(s, p.cells), GroupCount(s, p.cells, g.groups);
    var v1 := Apply(vf, v, Concat(PsqtLists(s, p.cells)));
    var v2 := Apply(vf, v1, PhaseAssignments(p.halfMoves, p.toMove, lead, groups));
    EvalApplySplit(vf, v, s, p, g);
    PhaseAssignmentsSplit(s, vf, v1, p.halfMoves, p.toMove, lead, groups);
    LaterAdds(s, p.cells, g);
    AddsKeepPhase(s, vf, v2, LaterUpdates(s, p.cells, g), p.halfMoves, p.toMove, lead, groups);
  }

  /** The three phase copies of each feature add up to the feature's value. */
  lemma PhaseSplitSums(vf: ValueFeatures, v: seq<real>, halfMoves: nat, toMove: Color, lead: int, groups: int)
    requires PhaseSplit(vf, v, halfMoves, toMove, lead, groups)
    ensures At(vf, v, SideToMove, 0) + At(vf, v, SideToMove, 1) + At(vf, v, SideToMove, 2) ==
            toMove.Multiplier() as real
    ensures At(vf, v, FlatstoneLead, 0) + At(vf, v, FlatstoneLead, 1) + At(vf, v, FlatstoneLead, 2) == lead as real
    ensures At(vf, v, INumberOfGroups, 0) + At(vf, v, INumberOfGroups, 1) + At(vf, v, INumberOfGroups, 2) ==
            groups as real
  {
    var o, m, e := Weight(halfMoves, 0), Weight(halfMoves, 1), Weight(halfMoves, 2);
    assert PhaseCopies(vf, v, o, toMove, lead, groups, 0);
    assert PhaseCopies(vf, v, m, toMove, lead, groups, 1);
    assert PhaseCopies(vf, v, e, toMove, lead, groups, 2);
    assert o + m + e == 1.0;
    CopiesSum(vf, v, o, m, e, toMove, lead, groups);
  }

  lemma CopiesSum(vf: ValueFeatures, v: seq<real>, o: real, m: real, e: real, toMove: Color, lead: int, groups: int)
    requires PhaseCopies(vf, v, o, toMove, lead, groups, 0) && PhaseCopies(vf, v, m, toMove, lead, groups, 1)
    requires PhaseCopies(vf, v, e, toMove, lead, groups, 2) && o + m + e == 1.0
    ensures At(vf, v, SideToMove, 0) + At(vf, v, SideToMove, 1) + At(vf, v, SideToMove, 2) ==
            toMove.Multiplier() as real
    ensures At(vf, v, FlatstoneLead, 0) + At(vf, v, FlatstoneLead, 1) + At(vf, v, FlatstoneLead, 2) == lead as real
    ensures At(vf, v, INumberOfGroups, 0) + At(vf, v, INumberOfGroups, 1) + At(vf, v, INumberOfGroups, 2) ==
            groups as real
  {
    WeightsSplit(toMove.Multiplier() as real, o, m, e);
    WeightsSplit(lead as real, o, m, e);
    WeightsSplit(groups as real, o, m, e);
  }

  /** With the group data of the position's tops, the group count is white groups minus black groups. */
  lemma GroupCountMeaning(s: nat, cells: seq<seq<Piece>>, g: GroupData)
    requires ValidSize(s) && |cells| == s * s && GroupsOf(s, Tops(cells), g)
    ensures GroupCount(s, cells, g.groups) ==
            |Ids(g.groups, cells, White, s * s)| - |Ids(g.groups, cells, Black, s * s)|
  {
    GroupDataByColor(s, cells, g);
    GroupSumCounts(g.groups, cells, s * s);
  }

  /**
   * After the evaluation the three phase copies of side to move add up to the side's sign,
   * those of flatstone lead to the lead in flats on top, and those of number of groups to the
   * white groups minus the black groups.
   */
  lemma EvalPhaseSums(s: nat, vf: ValueFeatures, v: seq<real>, p: Position, g: GroupData)
    requires Layout(s, vf, |v|) && |p.cells| == s * s && |g.groups| == s * s && NoFullLine(s, g)
    requires GroupsOf(s, Tops(p.cells), g)
    ensures var w := Apply(vf, v, EvalUpdates(s, p, g));
      At(vf, w, SideToMove, 0) + At(vf, w, SideToMove, 1) + At(vf, w, SideToMove, 2) ==
        p.toMove.Multiplier() as real &&
      At(vf, w, FlatstoneLead, 0) + At(vf, w, FlatstoneLead, 1) + At(vf, w, FlatstoneLead, 2) ==
        (TopCount(p.cells, WhiteFlat, s * s) - TopCount(p.cells, BlackFlat, s * s)) as real &&
      At(vf, w, INumberOfGroups, 0) + At(vf, w, INumberOfGroups, 1) + At(vf, w, INumberOfGroups, 2) ==
        (|Ids(g.groups, p.cells, White, s * s)| - |Ids(g.groups, p.cells, Black, s * s)|) as real
  {
    EvalPhase(s, vf, v, p, g);
    PhaseSplitSums(vf, Apply(vf, v, EvalUpdates(s, p, g)), p.halfMoves, p.toMove, FlatLead(s, p.cells),
                   GroupCount(s, p.cells, g.groups));
    GroupCountMeaning(s, p.cells, g);
  }
}
