/**
 * The end of a game (`game_result`, `game_result_with_group_data` and `is_win_by_road` in
 * board.rs): a third repetition draws; otherwise a road wins, the opponent of the side to move
 * first; otherwise, once a player's reserves are spent or the board is full, the flat count
 * decides.
 */
module GameResults {
  import opened Wrappers
  import opened Pieces
  import opened Squares
  import opened Groups
  import opened Positions

  datatype GameResult = WhiteWin | BlackWin | Draw

  function WinFor(c: Color): (r: GameResult)
    ensures r != Draw
  {
    if c == White then WhiteWin else BlackWin
  }

  /** The top piece of every square. */
  function Tops(cells: seq<seq<Piece>>): (r: seq<Option<Piece>>)
    ensures |r| == |cells|
    ensures forall i :: 0 <= i < |cells| ==> r[i] == TopOf(cells[i])
  {
    seq(|cells|, i requires 0 <= i < |cells| => TopOf(cells[i]))
  }

  // ---------------------------------------------------------------------------
  // `is_win_by_road`

  /** Some square of file `f` carries label `id` (`components.raw[f]`). */
  predicate OnFile(s: nat, groups: seq<nat>, id: nat, f: nat)
    requires s > 0 && |groups| == s * s && f < s
  {
    exists r :: 0 <= r < s && groups[FromRankFile(s, r, f)] == id
  }

  /** Some square of rank `r` carries label `id` (`components.raw[y][r]` for some `y`). */
  predicate OnRank(s: nat, groups: seq<nat>, id: nat, r: nat)
    requires s > 0 && |groups| == s * s && r < s
  {
    exists f :: 0 <= f < s && groups[FromRankFile(s, r, f)] == id
  }

  /** The road test of `is_win_by_road`: the label reaches both outer files or both outer ranks. */
  predicate Spans(s: nat, groups: seq<nat>, id: nat)
    requires s > 0 && |groups| == s * s
  {
    (OnFile(s, groups, id, 0) && OnFile(s, groups, id, s - 1)) ||
    (OnRank(s, groups, id, 0) && OnRank(s, groups, id, s - 1))
  }

  /** `squares_iterator().find(|sq| components[sq] == id)`, from square `i` on. */
  function FirstWith(groups: seq<nat>, id: nat, i: nat): (r: Option<nat>)
    requires i <= |groups|
    ensures r.Some? ==> i <= r.value < |groups| && groups[r.value] == id
    ensures r.None? <==> forall x :: i <= x < |groups| ==> groups[x] != id
    decreases |groups| - i
  {
    if i == |groups| then None
    else if groups[i] == id then Some(i)
    else FirstWith(groups, id, i + 1)
  }

  /**
   * The loop of `is_win_by_road` over the labels `id .. highest - 1`: the first square of a
   * spanning label topped by the side not to move is returned at once; one topped by the side
   * to move is remembered as a suicide win and returned at the end. A missing square or an
   * empty top is the source's `unwrap` panic.
   */
  function WinByRoadFrom(s: nat, tops: seq<Option<Piece>>, groups: seq<nat>, toMove: Color,
                         id: nat, highest: nat, suicide: Option<nat>): (r: Result<Option<nat>>)
    requires s > 0 && |groups| == |tops| == s * s
    requires suicide.Some? ==> suicide.value < s * s && tops[suicide.value].Some?
    ensures r.Ok? && r.value.Some? ==> r.value.value < s * s && tops[r.value.value].Some?
    decreases highest - id
  {
    if id >= highest then Ok(suicide)
    else if Spans(s, groups, id) then
      match FirstWith(groups, id, 0)
      case None => Err(Panic("called `Option::unwrap()` on a `None` value"))
      case Some(sq) =>
        if tops[sq].None? then Err(Panic("called `Option::unwrap()` on a `None` value"))
        else if tops[sq].value.Color() == toMove then WinByRoadFrom(s, tops, groups, toMove, id + 1, highest, Some(sq))
        else Ok(Some(sq))
    else WinByRoadFrom(s, tops, groups, toMove, id + 1, highest, suicide)
  }

  // ---------------------------------------------------------------------------
  // `game_result_with_group_data`

  /** How often `h` occurs in the hash history. */
  function Repetitions(hs: seq<bv64>, h: bv64): nat
  {
    if hs == [] then 0 else Repetitions(hs[..|hs| - 1], h) + (if hs[|hs| - 1] == h then 1 else 0)
  }

  /** Some group's edge mask is a road. */
  predicate AnyWinning(amounts: seq<(nat, EdgeConnection)>)
  {
    exists k :: 0 <= k < |amounts| && amounts[k].1.IsWinning()
  }

  /** The squares below `n` topped by `p`. */
  function CountTops(tops: seq<Option<Piece>>, p: Piece, n: nat): nat
    requires n <= |tops|
  {
    if n == 0 then 0 else CountTops(tops, p, n - 1) + (if tops[n - 1] == Some(p) then 1 else 0)
  }

  /** The flat count: more flats on top wins, equal counts draw; walls and capstones do not count. */
  function FlatWinner(tops: seq<Option<Piece>>): GameResult
  {
    var white, black := CountTops(tops, WhiteFlat, |tops|), CountTops(tops, BlackFlat, |tops|);
    if white > black then WhiteWin else if white < black then BlackWin else Draw
  }

  /** Either player has no stones and no capstones left, or no square is empty. */
  predicate FlatCountDue(p: Position)
  {
    (p.whiteStones == 0 && p.whiteCaps == 0) || (p.blackStones == 0 && p.blackCaps == 0) ||
    forall i :: 0 <= i < |p.cells| ==> p.cells[i] != []
  }

  /** `game_result_with_group_data`; the `unreachable!` panic and `unwrap` panics are `Err`. */
  function GameResultWith(s: nat, p: Position, g: GroupData): (r: Result<Option<GameResult>>)
    requires s > 0 && |p.cells| == |g.groups| == s * s
  {
    var tops := Tops(p.cells);
    if Repetitions(p.hashHistory, p.hash) >= 2 then Ok(Some(Draw))
    else if AnyWinning(g.amountInGroup) then
      match WinByRoadFrom(s, tops, g.groups, p.toMove, 1, FirstEmpty(g.amountInGroup, 1), None)
      case Err(e) => Err(e)
      case Ok(None) => Err(Panic("Board has winning connection, but isn't winning"))
      case Ok(Some(sq)) => Ok(Some(WinFor(tops[sq].value.Color())))
    else if FlatCountDue(p) then Ok(Some(FlatWinner(tops)))
    else Ok(None)
  }

  // ---------------------------------------------------------------------------
  // What the result means

  /** A square topped by `c` whose label spans the board, with a label in `lo .. hi - 1`. */
  ghost predicate RoadIn(s: nat, tops: seq<Option<Piece>>, groups: seq<nat>, c: Color, lo: nat, hi: nat)
    requires s > 0 && |groups| == |tops| == s * s
  {
    exists x :: 0 <= x < s * s && lo <= groups[x] < hi && TopColor(tops[x]) == Some(c) && Spans(s, groups, groups[x])
  }

  /** Colour `c` has a road: some square topped by `c` has a nonzero label that spans the board. */
  ghost predicate HasRoad(s: nat, tops: seq<Option<Piece>>, groups: seq<nat>, c: Color)
    requires s > 0 && |groups| == |tops| == s * s
  {
    exists x :: 0 <= x < s * s && groups[x] >= 1 && TopColor(tops[x]) == Some(c) && Spans(s, groups, groups[x])
  }

  /** The squares topped by a flat or capstone of colour `c`. */
  ghost function RoadSquares(tops: seq<Option<Piece>>, c: Color): set<nat>
  {
    set x | 0 <= x < |tops| && IsRoadOf(tops, c, x)
  }

  /** A walk through `area` from the first rank to the last, or from the first file to the last. */
  ghost predicate IsRoad(s: nat, area: set<nat>, path: seq<nat>)
    requires s > 0
  {
    Walk(s, area, path) &&
    ((Rank(s, path[0]) == 0 && Rank(s, path[|path| - 1]) == s - 1) ||
     (File(s, path[0]) == 0 && File(s, path[|path| - 1]) == s - 1))
  }

  /** Colour `c` has a road on the board. */
  ghost predicate HasRoadOn(s: nat, tops: seq<Option<Piece>>, c: Color)
    requires s > 0
  {
    exists path :: IsRoad(s, RoadSquares(tops, c), path)
  }

  /**
   * The decision `game_result` makes once repetitions are ruled out: a road of the side that
   * just moved wins, else a road of the side to move (a suicide), else the flat count when it
   * is due, else no result.
   */
  ghost function RoadOrFlats(s: nat, p: Position): Option<GameResult>
    requires s > 0
  {
    var tops := Tops(p.cells);
    if HasRoadOn(s, tops, p.toMove.Opposite()) then Some(WinFor(p.toMove.Opposite()))
    else if HasRoadOn(s, tops, p.toMove) then Some(WinFor(p.toMove))
    else if FlatCountDue(p) then Some(FlatWinner(tops))
    else None
  }

  /** `game_result`: the group data is computed from the position first. */
  method GameResultOf(s: nat, p: Position) returns (r: Result<Option<GameResult>>)
    requires ValidSize(s) && |p.cells| == s * s
    ensures r == Ok(if Repetitions(p.hashHistory, p.hash) >= 2 then Some(Draw) else RoadOrFlats(s, p))
  {
    var g := GroupDataOf(s, Tops(p.cells));
    r := GameResultWith(s, p, g);
    GameResultWithGroupData(s, p, g);
  }

  /** With the position's own group data, `game_result_with_group_data` never panics and decides as above. */
  lemma GameResultWithGroupData(s: nat, p: Position, g: GroupData)
    requires ValidSize(s) && |p.cells| == s * s && GroupsOf(s, Tops(p.cells), g)
    ensures GameResultWith(s, p, g) ==
            Ok(if Repetitions(p.hashHistory, p.hash) >= 2 then Some(Draw) else RoadOrFlats(s, p))
  {
    var tops := Tops(p.cells);
    if Repetitions(p.hashHistory, p.hash) < 2 {
      AnyWinningOn(s, tops, g);
      if AnyWinning(g.amountInGroup) {
        RoadWinnerOn(s, tops, g, p.toMove);
        WinByRoadOn(s, tops, g, p.toMove);
      }
    }
  }

  /** A group mask is a road exactly when a colour has a road on the board. */
  lemma AnyWinningOn(s: nat, tops: seq<Option<Piece>>, g: GroupData)
    requires ValidSize(s) && |tops| == s * s && GroupsOf(s, tops, g)
    ensures AnyWinning(g.amountInGroup) <==> HasRoadOn(s, tops, White) || HasRoadOn(s, tops, Black)
  {
    AnyWinningIffRoad(s, tops, g);
    RoadIffSpans(s, tops, g, White);
    RoadIffSpans(s, tops, g, Black);
  }

  /** The winner the label loop should report is the one the roads on the board determine. */
  lemma RoadWinnerOn(s: nat, tops: seq<Option<Piece>>, g: GroupData, toMove: Color)
    requires ValidSize(s) && |tops| == s * s && GroupsOf(s, tops, g)
    ensures RoadWinner(s, tops, g.groups, FirstEmpty(g.amountInGroup, 1), toMove, 1, false) ==
            if HasRoadOn(s, tops, toMove.Opposite()) then Some(toMove.Opposite())
            else if HasRoadOn(s, tops, toMove) then Some(toMove)
            else None
  {
    RoadIffSpans(s, tops, g, toMove);
    RoadIffSpans(s, tops, g, toMove.Opposite());
    RoadBelowNext(s, tops, g, toMove);
    RoadBelowNext(s, tops, g, toMove.Opposite());
  }

  /** `is_win_by_road` over the labels of `group_data` never panics and reports that winner. */
  lemma WinByRoadOn(s: nat, tops: seq<Option<Piece>>, g: GroupData, toMove: Color)
    requires ValidSize(s) && |tops| == s * s && GroupsOf(s, tops, g)
    ensures var next := FirstEmpty(g.amountInGroup, 1);
            var r := WinByRoadFrom(s, tops, g.groups, toMove, 1, next, None);
            r.Ok? && ColorAt(tops, r.value) == RoadWinner(s, tops, g.groups, next, toMove, 1, false)
  {
    GroupDataWellLabelled(s, tops, g);
    WinByRoadFromSpec(s, tops, g.groups, FirstEmpty(g.amountInGroup, 1), toMove, 1, None);
  }

  // ---------------------------------------------------------------------------
  // Facts about the labels of `group_data`

  /** A labelled square exists on edge `e`. */
  ghost predicate LabelOn(s: nat, groups: seq<nat>, k: nat, e: Edge)
    requires s > 0 && |groups| == s * s
  {
    exists x :: 0 <= x < s * s && groups[x] == k && OnEdge(s, x, e)
  }

  /** Exactly the road squares are labelled, every label is below the first empty id, and a label has one colour. */
  lemma LabelFacts(s: nat, tops: seq<Option<Piece>>, g: GroupData, x: nat, y: nat)
    requires ValidSize(s) && |tops| == s * s && GroupsOf(s, tops, g)
    requires x < s * s && y < s * s
    ensures g.groups[x] != 0 <==> IsRoadTop(tops[x])
    ensures g.groups[x] < FirstEmpty(g.amountInGroup, 1)
    ensures g.groups[x] == g.groups[y] != 0 ==> TopColor(tops[x]) == TopColor(tops[y])
  {
    var w, b := g.WhiteRoadPieces(), g.BlackRoadPieces();
    assert x in w <==> tops[x] == Some(WhiteFlat) || tops[x] == Some(WhiteCap);
    assert x in b <==> tops[x] == Some(BlackFlat) || tops[x] == Some(BlackCap);
    assert y in w <==> tops[y] == Some(WhiteFlat) || tops[y] == Some(WhiteCap);
    assert y in b <==> tops[y] == Some(BlackFlat) || tops[y] == Some(BlackCap);
  }

  /** The file and rank tests of `is_win_by_road` are the edge tests of `connect_square`. */
  lemma LinesAreEdges(s: nat, groups: seq<nat>, k: nat)
    requires s > 0 && |groups| == s * s
    ensures OnFile(s, groups, k, 0) <==> LabelOn(s, groups, k, WestEdge)
    ensures OnFile(s, groups, k, s - 1) <==> LabelOn(s, groups, k, EastEdge)
    ensures OnRank(s, groups, k, 0) <==> LabelOn(s, groups, k, SouthEdge)
    ensures OnRank(s, groups, k, s - 1) <==> LabelOn(s, groups, k, NorthEdge)
  {
    forall e: Edge | LabelOn(s, groups, k, e)
      ensures match e
              case WestEdge => OnFile(s, groups, k, 0)
              case EastEdge => OnFile(s, groups, k, s - 1)
              case SouthEdge => OnRank(s, groups, k, 0)
              case NorthEdge => OnRank(s, groups, k, s - 1)
    {
      var x :| 0 <= x < s * s && groups[x] == k && OnEdge(s, x, e);
      RankFileOf(s, x);
      var y := FromRankFile(s, Rank(s, x), File(s, x));
      SameRankFile(s, x, y);
    }
  }

  /** For a nonzero label, the stored edge mask is a road exactly when `is_win_by_road`'s test holds. */
  lemma WinningIffSpans(s: nat, tops: seq<Option<Piece>>, g: GroupData, k: nat)
    requires ValidSize(s) && |tops| == s * s && GroupsOf(s, tops, g)
    requires 1 <= k < |g.amountInGroup|
    ensures g.amountInGroup[k].1.IsWinning() <==> Spans(s, g.groups, k)
  {
    LinesAreEdges(s, g.groups, k);
    WinningHas(g.amountInGroup[k].1);
    forall e: Edge
      ensures Has(g.amountInGroup[k].1, e) <==> LabelOn(s, g.groups, k, e)
    {
      EdgesBelowHas(s, tops, g.groups, k, s * s, e);
      if LabelOn(s, g.groups, k, e) {
        var x :| 0 <= x < s * s && g.groups[x] == k && OnEdge(s, x, e);
        LabelFacts(s, tops, g, x, x);
      }
    }
  }

  /** Label 0 holds no road square, so its mask is empty. */
  lemma ZeroNotWinning(s: nat, tops: seq<Option<Piece>>, g: GroupData)
    requires ValidSize(s) && |tops| == s * s && GroupsOf(s, tops, g)
    ensures !g.amountInGroup[0].1.IsWinning()
  {
    WinningHas(g.amountInGroup[0].1);
    forall e: Edge ensures !Has(g.amountInGroup[0].1, e) {
      EdgesBelowHas(s, tops, g.groups, 0, s * s, e);
      forall x | 0 <= x < s * s && g.groups[x] == 0 ensures !IsRoadTop(tops[x]) {
        LabelFacts(s, tops, g, x, x);
      }
    }
  }

  /** A spanning label has a square, and it is topped by a road piece. */
  lemma SpanningLabelRoad(s: nat, tops: seq<Option<Piece>>, g: GroupData, k: nat)
    requires ValidSize(s) && |tops| == s * s && GroupsOf(s, tops, g)
    requires k >= 1 && Spans(s, g.groups, k)
    ensures HasRoad(s, tops, g.groups, White) || HasRoad(s, tops, g.groups, Black)
  {
    var f := if OnFile(s, g.groups, k, 0) then 0 else s - 1;
    var x :| 0 <= x < s && (OnFile(s, g.groups, k, 0) ==> g.groups[FromRankFile(s, x, 0)] == k) &&
             (!OnFile(s, g.groups, k, 0) ==> g.groups[FromRankFile(s, 0, x)] == k);
    var sq := if OnFile(s, g.groups, k, 0) then FromRankFile(s, x, 0) else FromRankFile(s, 0, x);
    LabelFacts(s, tops, g, sq, sq);
    assert TopColor(tops[sq]) == Some(White) || TopColor(tops[sq]) == Some(Black);
  }

  /** Some group's mask is a road exactly when either colour has a road. */
  lemma AnyWinningIffRoad(s: nat, tops: seq<Option<Piece>>, g: GroupData)
    requires ValidSize(s) && |tops| == s * s && GroupsOf(s, tops, g)
    ensures AnyWinning(g.amountInGroup) <==> HasRoad(s, tops, g.groups, White) || HasRoad(s, tops, g.groups, Black)
  {
    if AnyWinning(g.amountInGroup) {
      var k :| 0 <= k < |g.amountInGroup| && g.amountInGroup[k].1.IsWinning();
      ZeroNotWinning(s, tops, g);
      WinningIffSpans(s, tops, g, k);
      SpanningLabelRoad(s, tops, g, k);
    }
    if HasRoad(s, tops, g.groups, White) || HasRoad(s, tops, g.groups, Black) {
      var x :| 0 <= x < s * s && g.groups[x] >= 1 && TopColor(tops[x]).Some? && Spans(s, g.groups, g.groups[x]);
      LabelFacts(s, tops, g, x, x);
      WinningIffSpans(s, tops, g, g.groups[x]);
    }
  }

  /** Every label is below the first empty id, so a road is a road among the labels `1 .. next - 1`. */
  lemma RoadBelowNext(s: nat, tops: seq<Option<Piece>>, g: GroupData, c: Color)
    requires ValidSize(s) && |tops| == s * s && GroupsOf(s, tops, g)
    ensures HasRoad(s, tops, g.groups, c) <==> RoadIn(s, tops, g.groups, c, 1, FirstEmpty(g.amountInGroup, 1))
  {
    if HasRoad(s, tops, g.groups, c) {
      var x :| 0 <= x < s * s && g.groups[x] >= 1 && TopColor(tops[x]) == Some(c) && Spans(s, g.groups, g.groups[x]);
      LabelFacts(s, tops, g, x, x);
    }
  }

  /** The facts about labels that `is_win_by_road` relies on. */
  ghost predicate WellLabelled(s: nat, tops: seq<Option<Piece>>, groups: seq<nat>, next: nat)
    requires s > 0 && |groups| == |tops| == s * s
  {
    (forall x :: 0 <= x < s * s ==> groups[x] < next && (groups[x] != 0 <==> IsRoadTop(tops[x]))) &&
    (forall x, y :: 0 <= x < s * s && 0 <= y < s * s && groups[x] == groups[y] != 0 ==> TopColor(tops[x]) == TopColor(tops[y])) &&
    (forall k :: 1 <= k < next ==> k in groups)
  }

  lemma GroupDataWellLabelled(s: nat, tops: seq<Option<Piece>>, g: GroupData)
    requires ValidSize(s) && |tops| == s * s && GroupsOf(s, tops, g)
    ensures WellLabelled(s, tops, g.groups, FirstEmpty(g.amountInGroup, 1))
  {
    forall x, y | 0 <= x < s * s && 0 <= y < s * s
      ensures g.groups[x] < FirstEmpty(g.amountInGroup, 1) && (g.groups[x] != 0 <==> IsRoadTop(tops[x]))
      ensures g.groups[x] == g.groups[y] != 0 ==> TopColor(tops[x]) == TopColor(tops[y])
    {
      LabelFacts(s, tops, g, x, y);
    }
  }

  /** Peeling label `id` off a range: its squares share the colour of `sq`. */
  lemma RoadInStep(s: nat, tops: seq<Option<Piece>>, groups: seq<nat>, next: nat, c: Color, id: nat, hi: nat, sq: nat)
    requires s > 0 && |groups| == |tops| == s * s && WellLabelled(s, tops, groups, next)
    requires 1 <= id < hi && sq < s * s && groups[sq] == id
    ensures RoadIn(s, tops, groups, c, id, hi) <==>
            (Spans(s, groups, id) && TopColor(tops[sq]) == Some(c)) || RoadIn(s, tops, groups, c, id + 1, hi)
  {
    if RoadIn(s, tops, groups, c, id, hi) {
      var x :| 0 <= x < s * s && id <= groups[x] < hi && TopColor(tops[x]) == Some(c) && Spans(s, groups, groups[x]);
      assert groups[x] == groups[sq] ==> TopColor(tops[x]) == TopColor(tops[sq]);
    }
  }

  /** The same without a square: a label that does not span adds nothing. */
  lemma RoadInSkip(s: nat, tops: seq<Option<Piece>>, groups: seq<nat>, c: Color, id: nat, hi: nat)
    requires s > 0 && |groups| == |tops| == s * s && !Spans(s, groups, id)
    ensures RoadIn(s, tops, groups, c, id, hi) <==> RoadIn(s, tops, groups, c, id + 1, hi)
  {
  }

  /** The colour on top of the square a search returned, if it returned one. */
  function ColorAt(tops: seq<Option<Piece>>, r: Option<nat>): Option<Color>
  {
    if r.Some? && r.value < |tops| then TopColor(tops[r.value]) else None
  }

  /** The winner `is_win_by_road` should report among the labels `id .. next - 1`. */
  ghost function RoadWinner(s: nat, tops: seq<Option<Piece>>, groups: seq<nat>, next: nat,
                            toMove: Color, id: nat, suicide: bool): Option<Color>
    requires s > 0 && |groups| == |tops| == s * s
  {
    if RoadIn(s, tops, groups, toMove.Opposite(), id, next) then Some(toMove.Opposite())
    else if suicide || RoadIn(s, tops, groups, toMove, id, next) then Some(toMove)
    else None
  }

  /**
   * The loop of `is_win_by_road` over the labels `id .. next - 1`: it never panics, it returns
   * a square of the opponent of the side to move when that opponent has a road among them, and
   * otherwise a square of the side to move if that side has one or one was remembered.
   */
  lemma {:induction false} WinByRoadFromSpec(s: nat, tops: seq<Option<Piece>>, groups: seq<nat>, next: nat,
                                              toMove: Color, id: nat, suicide: Option<nat>)
    requires s > 0 && |groups| == |tops| == s * s && WellLabelled(s, tops, groups, next)
    requires 1 <= id <= next
    requires suicide.Some? ==> suicide.value < s * s && tops[suicide.value].Some? && TopColor(tops[suicide.value]) == Some(toMove)
    ensures var r := WinByRoadFrom(s, tops, groups, toMove, id, next, suicide);
            r.Ok? && ColorAt(tops, r.value) == RoadWinner(s, tops, groups, next, toMove, id, suicide.Some?)
    decreases next - id
  {
    var r := WinByRoadFrom(s, tops, groups, toMove, id, next, suicide);
    if id < next {
      if Spans(s, groups, id) {
        assert id in groups;
        var sq := FirstWith(groups, id, 0).value;
        RoadInStep(s, tops, groups, next, toMove, id, next, sq);
        RoadInStep(s, tops, groups, next, toMove.Opposite(), id, next, sq);
        if tops[sq].value.Color() == toMove {
          assert r == WinByRoadFrom(s, tops, groups, toMove, id + 1, next, Some(sq));
          WinByRoadFromSpec(s, tops, groups, next, toMove, id + 1, Some(sq));
        } else {
          assert r == Ok(Some(sq));
        }
      } else {
        assert r == WinByRoadFrom(s, tops, groups, toMove, id + 1, next, suicide);
        RoadInSkip(s, tops, groups, toMove, id, next);
        RoadInSkip(s, tops, groups, toMove.Opposite(), id, next);
        WinByRoadFromSpec(s, tops, groups, next, toMove, id + 1, suicide);
      }
    }
  }

  // ---------------------------------------------------------------------------
  // Labels and roads

  /** The road squares of a colour are the squares in its road bitboard. */
  lemma RoadSquaresArePieces(s: nat, tops: seq<Option<Piece>>, g: GroupData, c: Color)
    requires ValidSize(s) && |tops| == s * s && GroupsOf(s, tops, g)
    ensures RoadSquares(tops, c) == if c == White then g.WhiteRoadPieces() else g.BlackRoadPieces()
  {
  }

  /** A spanning label of colour `c` holds a road: its squares on opposite edges are joined inside it. */
  lemma SpansGivesRoad(s: nat, tops: seq<Option<Piece>>, groups: seq<nat>, next: nat, c: Color, x: nat)
    requires s > 0 && |groups| == |tops| == s * s
    requires WellLabelled(s, tops, groups, next) && LabelsConnected(s, groups, 1)
    requires x < s * s && groups[x] >= 1 && TopColor(tops[x]) == Some(c) && Spans(s, groups, groups[x])
    ensures HasRoadOn(s, tops, c)
  {
    var k := groups[x];
    var area := RoadSquares(tops, c);
    forall y | y in LabelSet(groups, k) ensures y in area {
      assert groups[x] == groups[y] != 0 ==> TopColor(tops[x]) == TopColor(tops[y]);
    }
    LinesAreEdges(s, groups, k);
    var byFiles := OnFile(s, groups, k, 0) && OnFile(s, groups, k, s - 1);
    var e1, e2 := if byFiles then WestEdge else SouthEdge, if byFiles then EastEdge else NorthEdge;
    var a :| 0 <= a < s * s && groups[a] == k && OnEdge(s, a, e1);
    var b :| 0 <= b < s * s && groups[b] == k && OnEdge(s, b, e2);
    assert Linked(s, LabelSet(groups, groups[a]), a, b);
    LinkedMono(s, LabelSet(groups, k), area, a, b);
    var path :| Walk(s, area, path) && path[0] == a && path[|path| - 1] == b;
    assert IsRoad(s, area, path);
  }

  /** A road of colour `c` lies inside one label, and that label spans. */
  lemma RoadGivesSpans(s: nat, tops: seq<Option<Piece>>, g: GroupData, c: Color)
    requires ValidSize(s) && |tops| == s * s && GroupsOf(s, tops, g)
    requires HasRoadOn(s, tops, c)
    ensures HasRoad(s, tops, g.groups, c)
  {
    var area := RoadSquares(tops, c);
    var path :| IsRoad(s, area, path);
    RoadSquaresArePieces(s, tops, g, c);
    WalkSameLabel(s, g.groups, g.WhiteRoadPieces(), g.BlackRoadPieces(), FirstEmpty(g.amountInGroup, 1), area, path);
    var a, b := path[0], path[|path| - 1];
    var k := g.groups[a];
    LabelFacts(s, tops, g, a, a);
    assert g.groups[b] == k;
    LinesAreEdges(s, g.groups, k);
    if Rank(s, a) == 0 && Rank(s, b) == s - 1 {
      assert LabelOn(s, g.groups, k, SouthEdge) && LabelOn(s, g.groups, k, NorthEdge);
    } else {
      assert LabelOn(s, g.groups, k, WestEdge) && LabelOn(s, g.groups, k, EastEdge);
    }
  }

  /** Whether a colour has a road does not depend on how the labels were numbered. */
  lemma RoadIffSpans(s: nat, tops: seq<Option<Piece>>, g: GroupData, c: Color)
    requires ValidSize(s) && |tops| == s * s && GroupsOf(s, tops, g)
    ensures HasRoad(s, tops, g.groups, c) <==> HasRoadOn(s, tops, c)
  {
    if HasRoad(s, tops, g.groups, c) {
      var x :| 0 <= x < s * s && g.groups[x] >= 1 && TopColor(tops[x]) == Some(c) && Spans(s, g.groups, g.groups[x]);
      GroupDataWellLabelled(s, tops, g);
      SpansGivesRoad(s, tops, g.groups, FirstEmpty(g.amountInGroup, 1), c, x);
    }
    if HasRoadOn(s, tops, c) {
      RoadGivesSpans(s, tops, g, c);
    }
  }
}
