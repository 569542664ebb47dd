/**
 * The layout of the evaluation coefficient vectors (`src/evaluation/parameters.rs`): one flat
 * vector carved by a chain of `split_at_mut` calls into named, consecutive sub-ranges.
 * A sub-range is a `Slice` (start offset and width) into the one vector.
 */
module Parameters {
  import opened Wrappers

  const NumValueFeatures4S: nat := 51
  const NumPolicyFeatures4S: nat := 130
  const NumValueFeatures5S: nat := 69
  const NumPolicyFeatures5S: nat := 149
  const NumValueFeatures6S: nat := 72
  const NumPolicyFeatures6S: nat := 159

  /** The board sizes that have evaluation parameters. */
  predicate EvalSize(s: nat)
  {
    4 <= s <= 6
  }

  /** `num_square_symmetries`: how many classes of squares the eight board symmetries leave. */
  function NumSquareSymmetries(s: nat): nat
  {
    match s
    case 4 => 3
    case 5 => 6
    case 6 => 6
    case _ => 0
  }

  /** `square_symmetries`: the class of every square, row by row. */
  function SquareSymmetries(s: nat): (r: seq<nat>)
    ensures EvalSize(s) ==> |r| == s * s
    ensures forall x :: x in r ==> x < NumSquareSymmetries(s)
  {
    match s
    case 4 => [0, 1, 1, 0, 1, 2, 2, 1, 1, 2, 2, 1, 0, 1, 1, 0]
    case 5 => [0, 1, 2, 1, 0, 1, 3, 4, 3, 1, 2, 4, 5, 4, 2, 1, 3, 4, 3, 1, 0, 1, 2, 1, 0]
    case 6 => [0, 1, 2, 2, 1, 0, 1, 3, 4, 4, 3, 1, 2, 4, 5, 5, 4, 2,
               2, 4, 5, 5, 4, 2, 1, 3, 4, 4, 3, 1, 0, 1, 2, 2, 1, 0]
    case _ => []
  }

  /** `num_value_features`: `unimplemented!()` for a size without parameters. */
  function NumValueFeatures(s: nat): (r: Result<nat>)
    ensures r.Ok? <==> EvalSize(s)
  {
    match s
    case 4 => Ok(NumValueFeatures4S)
    case 5 => Ok(NumValueFeatures5S)
    case 6 => Ok(NumValueFeatures6S)
    case _ => Err(Panic("unimplemented"))
  }

  /** `num_policy_features`: `unimplemented!()` for a size without parameters. */
  function NumPolicyFeatures(s: nat): (r: Result<nat>)
    ensures r.Ok? <==> EvalSize(s)
  {
    match s
    case 4 => Ok(NumPolicyFeatures4S)
    case 5 => Ok(NumPolicyFeatures5S)
    case 6 => Ok(NumPolicyFeatures6S)
    case _ => Err(Panic("unimplemented"))
  }

  // ---------------------------------------------------------------------------
  // Carving a vector

  /** The sub-range `[start, start + len)` of the coefficient vector. */
  datatype Slice = Slice(start: nat, len: nat) {
    function End(): nat { start + len }
  }

  function Sum(ws: seq<nat>): nat
  {
    if ws == [] then 0 else ws[0] + Sum(ws[1..])
  }

  lemma {:induction false} SumOfParts(a: seq<nat>, b: seq<nat>)
    ensures Sum(a + b) == Sum(a) + Sum(b)
    decreases |a|
  {
    if a == [] {
      assert a + b == b;
    } else {
      assert (a + b)[1..] == a[1..] + b;
      SumOfParts(a[1..], b);
    }
  }

  /** `k` equal widths `x`. */
  function Repeat(x: nat, k: nat): (r: seq<nat>)
    ensures |r| == k
  {
    seq(k, _ => x)
  }

  lemma {:induction false} SumRepeat(x: nat, k: nat)
    ensures Sum(Repeat(x, k)) == k * x
  {
    if k > 0 {
      assert Repeat(x, k)[1..] == Repeat(x, k - 1);
      SumRepeat(x, k - 1);
    }
  }

  /** `ps` lies end to end from `start` with the widths `ws`. */
  predicate Tiles(ps: seq<Slice>, ws: seq<nat>, start: nat)
  {
    |ps| == |ws| &&
    (forall i :: 0 <= i < |ps| ==> ps[i].len == ws[i] && ps[i].start == start + Sum(ws[..i]))
  }

  /**
   * A chain of `split_at_mut(w)` on `rest`, one per width: the pieces split off, and what is
   * left. `split_at_mut` panics when asked for more than is left.
   */
  function SplitChain(rest: Slice, ws: seq<nat>): (r: Result<(seq<Slice>, Slice)>)
    ensures r.Ok? <==> Sum(ws) <= rest.len
    ensures r.Ok? ==> Tiles(r.value.0, ws, rest.start)
    ensures r.Ok? ==> r.value.1 == Slice(rest.start + Sum(ws), rest.len - Sum(ws))
    decreases |ws|
  {
    if ws == [] then Ok(([], rest))
    else
      var front := SplitChain(rest, ws[..|ws| - 1]);
      var w := ws[|ws| - 1];
      assert ws[..|ws| - 1] + [w] == ws;
      SumOfParts(ws[..|ws| - 1], [w]);
      if front.Err? then front
      else if w > front.value.1.len then Err(Panic("split_at_mut out of range"))
      else
        var left := front.value.1;
        TilesSnoc(front.value.0, ws[..|ws| - 1], rest.start, w);
        Ok((front.value.0 + [Slice(left.start, w)], Slice(left.start + w, left.len - w)))
  }

  /** One more slice at the end of a tiling. */
  lemma TilesSnoc(ps: seq<Slice>, ws: seq<nat>, start: nat, w: nat)
    requires Tiles(ps, ws, start)
    ensures Tiles(ps + [Slice(start + Sum(ws), w)], ws + [w], start)
  {
    var ws' := ws + [w];
    assert ws'[..|ws|] == ws;
    SumOfParts(ws, [w]);
    forall i | 0 <= i < |ws|
      ensures ws'[..i] == ws[..i]
    {
    }
  }

  lemma SumPrefixMono(ws: seq<nat>, i: nat, j: nat)
    requires i <= j <= |ws|
    ensures Sum(ws[..i]) <= Sum(ws[..j])
  {
    assert ws[..j] == ws[..i] + ws[i..j];
    SumOfParts(ws[..i], ws[i..j]);
  }

  /** Tiled sub-ranges do not overlap, and together cover `[start, start + Sum(ws))`. */
  lemma TilesDisjoint(ps: seq<Slice>, ws: seq<nat>, start: nat, i: nat, j: nat)
    requires Tiles(ps, ws, start) && i < j < |ps|
    ensures ps[i].End() <= ps[j].start
  {
    SumPrefixMono(ws, i + 1, j);
    assert ws[..i + 1] == ws[..i] + [ws[i]];
    SumOfParts(ws[..i], [ws[i]]);
  }

  lemma TilesCover(ps: seq<Slice>, ws: seq<nat>, start: nat)
    requires Tiles(ps, ws, start) && |ps| > 0
    ensures ps[0].start == start && ps[|ps| - 1].End() == start + Sum(ws)
  {
    assert ws == ws[..|ws| - 1] + [ws[|ws| - 1]];
    SumOfParts(ws[..|ws| - 1], [ws[|ws| - 1]]);
  }

  // ---------------------------------------------------------------------------
  // ValueFeatures

  /** The widths split off by `ValueFeatures::new`, in order. */
  function ValueWidths(s: nat): (ws: seq<nat>)
    ensures |ws| == 18
  {
    Repeat(NumSquareSymmetries(s), 5)  // flat, wall, cap, our stack, their stack psqt
    + [3, 3, 3, 6]    // side to move, flatstone lead, number of groups, critical squares
    + Repeat(1, 6)    // capstone over own piece .. capstone next to our stack
    + Repeat(s + 1, 3)  // lines occupied, line control, block their line
  }

  /** The names of the value coefficient sub-ranges: indices into `ValueFeatures.fields`. */
  const FlatPsqt := 0
  const WallPsqt := 1
  const CapPsqt := 2
  const OurStackPsqt := 3
  const TheirStackPsqt := 4
  const SideToMove := 5
  const FlatstoneLead := 6
  const INumberOfGroups := 7
  const CriticalSquares := 8
  const CapstoneOverOwnPiece := 9
  const CapstoneOnStack := 10
  const StandingStoneOnStack := 11
  const FlatStoneNextToOurStack := 12
  const StandingStoneNextToOurStack := 13
  const CapstoneNextToOurStack := 14
  const NumLinesOccupied := 15
  const LineControl := 16
  const BlockTheirLine := 17

  /** The named sub-ranges of the value coefficients, in declaration order. */
  datatype ValueFeatures = ValueFeatures(fields: seq<Slice>)

  /**
   * `ValueFeatures::new` on a vector of `len` coefficients: the length must be
   * `num_value_features` (`assert_eq!`), and the splits must leave nothing (`assert!`).
   */
  function NewValueFeatures(s: nat, len: nat): (r: Result<ValueFeatures>)
    ensures r.Ok? ==> NumValueFeatures(s) == Ok(len) && Tiles(r.value.fields, ValueWidths(s), 0)
  {
    var expected := NumValueFeatures(s);
    if expected.Err? then Err(expected.failure)
    else if len != expected.value then Err(Panic("assert_eq: coefficient count"))
    else
      var split := SplitChain(Slice(0, len), ValueWidths(s));
      if split.Err? then Err(split.failure)
      else if split.value.1.len != 0 then Err(Panic("assert: coefficients left over"))
      else Ok(ValueFeatures(split.value.0))
  }

  /** The widths add up to `num_value_features`: 51, 69 and 72. */
  lemma ValueWidthsSum(s: nat)
    requires EvalSize(s)
    ensures Sum(ValueWidths(s)) == 5 * NumSquareSymmetries(s) + 21 + 3 * (s + 1)
    ensures Sum(ValueWidths(s)) == NumValueFeatures(s).value
  {
    var a, b, c, d := Repeat(NumSquareSymmetries(s), 5), [3, 3, 3, 6], Repeat(1, 6), Repeat(s + 1, 3);
    SumOfParts(a, b);
    SumOfParts(a + b, c);
    SumOfParts(a + b + c, d);
    SumRepeat(NumSquareSymmetries(s), 5);
    SumRepeat(1, 6);
    SumRepeat(s + 1, 3);
  }

  /** Both asserts of `ValueFeatures::new` hold on a vector of the right length. */
  lemma NewValueFeaturesSucceeds(s: nat, len: nat)
    requires EvalSize(s)
    ensures NewValueFeatures(s, len).Ok? <==> len == NumValueFeatures(s).value
  {
    ValueWidthsSum(s);
  }

  // ---------------------------------------------------------------------------
  // PolicyFeatures

  /** The widths split off by `PolicyFeatures::new`, in order. */
  function PolicyWidths(s: nat): (ws: seq<nat>)
    ensures |ws| == 46
  {
    PlacementWidths(s) + GroupWidths() + MovementWidths(s)
  }

  /** Decline win .. our and their road stones in line. */
  function PlacementWidths(s: nat): (ws: seq<nat>)
    ensures |ws| == 12
  {
    [1, 1, 1, 1, 3, 2, 2]          // decline win .. three flats left
    + Repeat(NumSquareSymmetries(s), 3)  // flat, wall, cap psqt
    + Repeat(3 * s, 2)             // our / their road stones in line
  }

  /** Extend a group .. stack captured by movement. */
  function GroupWidths(): (ws: seq<nat>)
    ensures |ws| == 24
  {
    Repeat(3, 8)                   // extend group (to new line) .. block merger
    + [1, 4, 2, 1, 1, 1, 1, 1, 1]  // critical squares .. blocking stone
    + [6, 6, 4, 3, 3, 6, 1]        // attack strong stack .. stack captured
  }

  /**
   * Strong-line captures .. spread that connects groups. `S - 3` never underflows: smaller
   * sizes have no `num_policy_features`.
   */
  function MovementWidths(s: nat): (ws: seq<nat>)
    ensures |ws| == 10
  {
    Repeat(if s >= 3 then s - 3 else 0, 4)  // strong line captures and cap moves
    + [3, 3, 3, 3, 3, 1]           // recapture .. spread that connects groups
  }

  /**
   * `PolicyFeatures::new` on a vector of `len` coefficients; the named fields are the slices in
   * the order of `PolicyWidths`. `S - 3` is a `usize` subtraction, which panics below 3.
   */
  function NewPolicyFeatures(s: nat, len: nat): (r: Result<seq<Slice>>)
    ensures r.Ok? ==> NumPolicyFeatures(s) == Ok(len) && Tiles(r.value, PolicyWidths(s), 0)
  {
    var expected := NumPolicyFeatures(s);
    if expected.Err? then Err(expected.failure)
    else if len != expected.value then Err(Panic("assert_eq: coefficient count"))
    else
      var split := SplitChain(Slice(0, len), PolicyWidths(s));
      if split.Err? then Err(split.failure)
      else if split.value.1.len != 0 then Err(Panic("assert: coefficients left over"))
      else Ok(split.value.0)
  }

  lemma PlacementWidthsSum(s: nat)
    ensures Sum(PlacementWidths(s)) == 11 + 3 * NumSquareSymmetries(s) + 6 * s
  {
    var a, b, c := [1, 1, 1, 1, 3, 2, 2], Repeat(NumSquareSymmetries(s), 3), Repeat(3 * s, 2);
    SumOfParts(a, b);
    SumOfParts(a + b, c);
    SumRepeat(NumSquareSymmetries(s), 3);
    SumRepeat(3 * s, 2);
  }

  lemma GroupWidthsSum()
    ensures Sum(GroupWidths()) == 66
  {
    var a, b, c := Repeat(3, 8), [1, 4, 2, 1, 1, 1, 1, 1, 1], [6, 6, 4, 3, 3, 6, 1];
    SumOfParts(a, b);
    SumOfParts(a + b, c);
    SumRepeat(3, 8);
  }

  lemma MovementWidthsSum(s: nat)
    requires s >= 3
    ensures Sum(MovementWidths(s)) == 4 * (s - 3) + 16
  {
    SumOfParts(Repeat(s - 3, 4), [3, 3, 3, 3, 3, 1]);
    SumRepeat(s - 3, 4);
  }

  /** The widths add up to `num_policy_features`: 130, 149 and 159. */
  lemma PolicyWidthsSum(s: nat)
    requires EvalSize(s)
    ensures Sum(PolicyWidths(s)) == 93 + 3 * NumSquareSymmetries(s) + 6 * s + 4 * (s - 3)
    ensures Sum(PolicyWidths(s)) == NumPolicyFeatures(s).value
  {
    SumOfParts(PlacementWidths(s), GroupWidths());
    SumOfParts(PlacementWidths(s) + GroupWidths(), MovementWidths(s));
    PlacementWidthsSum(s);
    GroupWidthsSum();
    MovementWidthsSum(s);
  }

  /** Both asserts of `PolicyFeatures::new` hold on a vector of the right length. */
  lemma NewPolicyFeaturesSucceeds(s: nat, len: nat)
    requires EvalSize(s)
    ensures NewPolicyFeatures(s, len).Ok? <==> len == NumPolicyFeatures(s).value
  {
    PolicyWidthsSum(s);
  }
}
