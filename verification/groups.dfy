/**
 * Road groups (`group_data`, `connected_components_graph`, `connect_component` and
 * `is_critical_square_from_scratch` in board.rs): the squares topped by a flat or capstone of
 * one colour are labelled with group ids by flood fill, every group records which board edges
 * it touches, and a square is critical for a colour when a piece there would complete a road.
 */
module Groups {
  import opened Wrappers
  import opened Pieces
  import opened Squares
  import opened BitBoards

  /** The top piece of a stack given bottom to top. */
  function TopOf(ps: seq<Piece>): Option<Piece>
  {
    if ps == [] then None else Some(ps[|ps| - 1])
  }

  /** The square holds a road piece (flat or capstone) of colour `c` on top. */
  predicate IsRoadOf(tops: seq<Option<Piece>>, c: Color, x: nat)
  {
    x < |tops| && tops[x].Some? && tops[x].value.IsRoadPiece() && tops[x].value.Color() == c
  }

  // ---------------------------------------------------------------------------
  // Walks

  /** `path` steps orthogonally from square to square and stays inside `area`. */
  ghost predicate Walk(s: nat, area: set<nat>, path: seq<nat>)
    requires s > 0
  {
    |path| >= 1 &&
    (forall i :: 0 <= i < |path| ==> path[i] in area) &&
    (forall i :: 0 <= i < |path| - 1 ==> Adjacent(s, path[i], path[i + 1]))
  }

  /** `a` and `b` are joined by a walk inside `area`. */
  ghost predicate Linked(s: nat, area: set<nat>, a: nat, b: nat)
    requires s > 0
  {
    exists path :: Walk(s, area, path) && path[0] == a && path[|path| - 1] == b
  }

  /** The squares carrying label `id`. */
  ghost function LabelSet(c: seq<nat>, id: nat): set<nat>
  {
    set x | 0 <= x < |c| && c[x] == id
  }

  lemma LinkedMono(s: nat, a1: set<nat>, a2: set<nat>, x: nat, y: nat)
    requires s > 0 && a1 <= a2 && Linked(s, a1, x, y)
    ensures Linked(s, a2, x, y)
  {
    var p :| Walk(s, a1, p) && p[0] == x && p[|p| - 1] == y;
    assert Walk(s, a2, p);
  }

  lemma LinkedStep(s: nat, area: set<nat>, x: nat, y: nat)
    requires s > 0 && x in area && y in area && Adjacent(s, x, y)
    ensures Linked(s, area, x, y)
  {
    assert Walk(s, area, [x, y]);
  }

  lemma LinkedSym(s: nat, area: set<nat>, x: nat, y: nat)
    requires s > 0 && Linked(s, area, x, y)
    ensures Linked(s, area, y, x)
  {
    var p :| Walk(s, area, p) && p[0] == x && p[|p| - 1] == y;
    var q := seq(|p|, i requires 0 <= i < |p| => p[|p| - 1 - i]);
    forall i | 0 <= i < |q| - 1
      ensures Adjacent(s, q[i], q[i + 1])
    {
      var j := |p| - 2 - i;
      assert Adjacent(s, p[j], p[j + 1]);
      AdjacentSymmetric(s, p[j], p[j + 1]);
    }
    assert Walk(s, area, q);
  }

  lemma LinkedTrans(s: nat, area: set<nat>, x: nat, y: nat, z: nat)
    requires s > 0 && Linked(s, area, x, y) && Linked(s, area, y, z)
    ensures Linked(s, area, x, z)
  {
    var p :| Walk(s, area, p) && p[0] == x && p[|p| - 1] == y;
    var q :| Walk(s, area, q) && q[0] == y && q[|q| - 1] == z;
    var r := p + q[1..];
    forall i | 0 <= i < |r| - 1
      ensures Adjacent(s, r[i], r[i + 1])
    {
      if i < |p| - 1 {
        assert r[i] == p[i] && r[i + 1] == p[i + 1];
      } else {
        assert r[i] == q[i - |p| + 1] && r[i + 1] == q[i - |p| + 2];
      }
    }
    assert Walk(s, area, r);
  }

  // ---------------------------------------------------------------------------
  // Flood fill

  /** Road squares not labelled yet. */
  ghost function Unlabelled(c: seq<nat>, road: set<nat>): set<nat>
  {
    set x | 0 <= x < |c| && x in road && c[x] == 0
  }

  /** From `c1` to `c2` only unlabelled squares got a label, namely `id`, and only road squares. */
  ghost predicate Grown(c1: seq<nat>, c2: seq<nat>, road: set<nat>, id: nat)
  {
    |c1| == |c2| &&
    forall x :: 0 <= x < |c1| ==>
      (c1[x] != 0 ==> c2[x] == c1[x]) && (c1[x] == 0 && c2[x] != 0 ==> c2[x] == id && x in road)
  }

  /** Every square labelled on the way from `c1` to `c2`, except `sq`, has its road neighbours labelled. */
  ghost predicate ClosedExcept(s: nat, c1: seq<nat>, c2: seq<nat>, road: set<nat>, sq: int)
    requires s > 0 && |c1| == |c2|
  {
    forall x, y ::
      (0 <= x < |c1| && 0 <= y < |c1| && x != sq && c1[x] == 0 && c2[x] != 0 &&
       y in road && Adjacent(s, x, y)) ==> c2[y] != 0
  }

  lemma GrownTrans(c1: seq<nat>, c2: seq<nat>, c3: seq<nat>, road: set<nat>, id: nat)
    requires Grown(c1, c2, road, id) && Grown(c2, c3, road, id)
    ensures Grown(c1, c3, road, id)
  {
  }

  /** Labelling a square removes it from the unlabelled ones: the flood fill terminates. */
  lemma UnlabelledShrinks(c1: seq<nat>, c2: seq<nat>, road: set<nat>, id: nat, sq: nat)
    requires Grown(c1, c2, road, id) && sq < |c1| && sq in road && c1[sq] == 0 && c2[sq] != 0
    ensures |Unlabelled(c2, road)| < |Unlabelled(c1, road)|
  {
    var u1, u2 := Unlabelled(c1, road), Unlabelled(c2, road);
    assert u2 <= u1 - {sq};
    assert u1 == (u1 - {sq}) + {sq};
    SubsetCard(u2, u1 - {sq});
  }

  lemma SubsetCard<T>(a: set<T>, b: set<T>)
    requires a <= b
    ensures |a| <= |b|
  {
    assert b == a + (b - a);
  }

  lemma NeighboursOnBoard(s: nat, sq: nat)
    requires s >= 2 && sq < s * s
    ensures forall i :: 0 <= i < |Neighbours(s, sq)| ==> Neighbours(s, sq)[i] < s * s
  {
    DirectionsAndNeighbours(s, sq);
  }

  /** Every square labelled on the way from `c0` to `c` is joined to `sq` through squares labelled `id`. */
  ghost predicate StarFrom(s: nat, c0: seq<nat>, c: seq<nat>, id: nat, sq: nat)
    requires s > 0 && |c0| == |c|
  {
    forall x :: 0 <= x < |c0| && c0[x] == 0 && c[x] != 0 ==> Linked(s, LabelSet(c, id), sq, x)
  }

  /** A recursive call from the neighbour `nb` extends the squares joined to `sq`. */
  lemma StarStep(s: nat, c0: seq<nat>, cm: seq<nat>, c2: seq<nat>, road: set<nat>, id: nat, sq: nat, nb: nat)
    requires s > 0 && id > 0 && Grown(c0, cm, road, id) && Grown(cm, c2, road, id)
    requires StarFrom(s, c0, cm, id, sq) && StarFrom(s, cm, c2, id, nb)
    requires sq < |c0| && nb < |c0| && c2[sq] == id && c2[nb] == id && Adjacent(s, sq, nb)
    ensures StarFrom(s, c0, c2, id, sq)
  {
    var a1, a2 := LabelSet(cm, id), LabelSet(c2, id);
    assert a1 <= a2;
    forall x | 0 <= x < |c0| && c0[x] == 0 && c2[x] != 0
      ensures Linked(s, a2, sq, x)
    {
      if cm[x] != 0 {
        LinkedMono(s, a1, a2, sq, x);
      } else {
        LinkedStep(s, a2, sq, nb);
        LinkedTrans(s, a2, sq, nb, x);
      }
    }
  }

  /**
   * The state of the neighbour loop of `connect_component` once the first `k` neighbours are
   * done: `c0` is the labelling before the call, `c1` the one just after `sq` got its label.
   */
  ghost predicate Visiting(s: nat, c0: seq<nat>, c1: seq<nat>, c: seq<nat>, road: set<nat>, id: nat,
                           sq: nat, ns: seq<nat>, k: nat)
    requires s > 0
  {
    && k <= |ns| && sq < |c0| && |c1| == |c0| && |c| == |c0|
    && c[sq] == id
    && Grown(c1, c, road, id) && Grown(c0, c, road, id)
    && ClosedExcept(s, c0, c, road, sq) && StarFrom(s, c0, c, id, sq)
    && forall j :: 0 <= j < k && ns[j] < |c| && ns[j] in road ==> c[ns[j]] != 0
  }

  /** Labelling `sq` starts the neighbour loop. */
  lemma VisitStart(s: nat, c0: seq<nat>, c1: seq<nat>, road: set<nat>, id: nat, sq: nat, ns: seq<nat>)
    requires s > 0 && id > 0 && sq < |c0| && sq in road && c0[sq] == 0 && c1 == c0[sq := id]
    ensures Visiting(s, c0, c1, c1, road, id, sq, ns, 0)
  {
    assert Walk(s, LabelSet(c1, id), [sq]);
  }

  /** A neighbour that is no road square or already labelled needs no call. */
  lemma VisitSkip(s: nat, c0: seq<nat>, c1: seq<nat>, c: seq<nat>, road: set<nat>, id: nat,
                  sq: nat, ns: seq<nat>, k: nat)
    requires s > 0 && Visiting(s, c0, c1, c, road, id, sq, ns, k) && k < |ns|
    requires ns[k] < |c| ==> ns[k] !in road || c[ns[k]] != 0
    ensures Visiting(s, c0, c1, c, road, id, sq, ns, k + 1)
  {
  }

  /** The state of the neighbour loop after a recursive call from the neighbour `nb = ns[k]`. */
  lemma AfterVisit(s: nat, c0: seq<nat>, c1: seq<nat>, cm: seq<nat>, c2: seq<nat>, road: set<nat>, id: nat,
                   sq: nat, ns: seq<nat>, k: nat)
    requires s > 0 && id > 0 && Visiting(s, c0, c1, cm, road, id, sq, ns, k) && k < |ns|
    requires ns[k] < |c0| && Adjacent(s, sq, ns[k])
    requires Grown(cm, c2, road, id) && ClosedExcept(s, cm, c2, road, -1)
    requires StarFrom(s, cm, c2, id, ns[k]) && c2[ns[k]] == id
    ensures Visiting(s, c0, c1, c2, road, id, sq, ns, k + 1)
  {
    StarStep(s, c0, cm, c2, road, id, sq, ns[k]);
    GrownTrans(c1, cm, c2, road, id);
    GrownTrans(c0, cm, c2, road, id);
    ClosedStep(s, c0, cm, c2, road, id, sq);
  }

  /** A recursive call's labels are closed, and the earlier ones stay closed. */
  lemma ClosedStep(s: nat, c0: seq<nat>, c1: seq<nat>, c2: seq<nat>, road: set<nat>, id: nat, sq: nat)
    requires s > 0 && Grown(c0, c1, road, id) && Grown(c1, c2, road, id)
    requires ClosedExcept(s, c0, c1, road, sq) && ClosedExcept(s, c1, c2, road, -1)
    ensures ClosedExcept(s, c0, c2, road, sq)
  {
  }

  /** Once every neighbour is done, the road neighbours of `sq` are labelled too. */
  lemma VisitEnd(s: nat, c0: seq<nat>, c1: seq<nat>, c: seq<nat>, road: set<nat>, id: nat, sq: nat)
    requires s >= 2 && |c0| == s * s && sq < s * s
    requires Visiting(s, c0, c1, c, road, id, sq, Neighbours(s, sq), |Neighbours(s, sq)|)
    ensures ClosedExcept(s, c0, c, road, -1)
  {
    var ns := Neighbours(s, sq);
    NeighboursOnBoard(s, sq);
    forall y | 0 <= y < s * s && y in road && Adjacent(s, sq, y)
      ensures c[y] != 0
    {
      NeighbourIffAdjacent(s, sq, y);
      var j :| 0 <= j < |ns| && ns[j] == y;
    }
  }

  /**
   * `connect_component`: labels `sq` with `id`, then every road neighbour that is still
   * unlabelled, recursively.
   */
  method ConnectComponent(s: nat, road: BitBoard, comps: array<nat>, sq: nat, id: nat)
    requires s >= 2 && comps.Length == s * s && sq < s * s
    requires sq in road && comps[sq] == 0 && id > 0
    modifies comps
    ensures comps[sq] == id
    ensures Grown(old(comps[..]), comps[..], road, id)
    ensures ClosedExcept(s, old(comps[..]), comps[..], road, -1)
    ensures StarFrom(s, old(comps[..]), comps[..], id, sq)
    decreases |Unlabelled(comps[..], road)|
  {
    ghost var c0 := comps[..];
    comps[sq] := id;
    ghost var c1 := comps[..];
    UnlabelledShrinks(c0, c1, road, id, sq);
    var ns := Neighbours(s, sq);
    NeighboursOnBoard(s, sq);
    VisitStart(s, c0, c1, road, id, sq, ns);
    var k := 0;
    while k < |ns|
      invariant Visiting(s, c0, c1, comps[..], road, id, sq, ns, k)
    {
      var nb := ns[k];
      if nb in road && comps[nb] == 0 {
        ghost var cm := comps[..];
        UnlabelledShrinks(c0, cm, road, id, sq);
        ConnectComponent(s, road, comps, nb, id);
        NeighbourIffAdjacent(s, sq, nb);
        AfterVisit(s, c0, c1, cm, comps[..], road, id, sq, ns, k);
      } else {
        VisitSkip(s, c0, c1, comps[..], road, id, sq, ns, k);
      }
      k := k + 1;
    }
    VisitEnd(s, c0, c1, comps[..], road, id, sq);
  }

  // ---------------------------------------------------------------------------
  // One colour's pass over the board

  /** The squares holding a label of this pass (a label at least `start`). */
  ghost function LabelledFrom(c: seq<nat>, start: nat): set<nat>
  {
    set x | 0 <= x < |c| && c[x] >= start
  }

  /**
   * The labels `start .. id - 1` of one pass over `road`: they sit on road squares only, a road
   * square has either no label or one of them, road neighbours share their label, and every
   * label in the range has a square. Counting the earlier passes too, no more labels than
   * labelled squares have been handed out.
   */
  ghost predicate PassLabels(s: nat, c: seq<nat>, road: set<nat>, start: nat, id: nat)
    requires s > 0
  {
    1 <= start <= id &&
    (forall x :: 0 <= x < |c| && c[x] >= start ==> c[x] < id && x in road) &&
    (forall x :: 0 <= x < |c| && x in road ==> c[x] == 0 || c[x] >= start) &&
    (forall x, y :: 0 <= x < |c| && 0 <= y < |c| && c[x] >= start && y in road && Adjacent(s, x, y)
       ==> c[y] == c[x]) &&
    (forall k :: start <= k < id ==> k in c) &&
    id - 1 <= |LabelledFrom(c, 1)|
  }

  /** Any two squares that share a label of at least `start` are joined through squares with that label. */
  ghost predicate LabelsConnected(s: nat, c: seq<nat>, start: nat)
    requires s > 0
  {
    forall x, y {:trigger Linked(s, LabelSet(c, c[x]), x, y)} ::
      0 <= x < |c| && 0 <= y < |c| && c[x] >= start && c[y] == c[x] ==> Linked(s, LabelSet(c, c[x]), x, y)
  }

  /** A flood fill joins every square it labels to its start, so the new label is connected too. */
  lemma ConnectedStep(s: nat, c1: seq<nat>, c2: seq<nat>, road: set<nat>, start: nat, id: nat, sq: nat)
    requires s > 0 && start >= 1 && LabelsConnected(s, c1, start) && Grown(c1, c2, road, id)
    requires forall x :: 0 <= x < |c1| && c1[x] >= start ==> c1[x] < id
    requires StarFrom(s, c1, c2, id, sq) && sq < |c1| && c1[sq] == 0 && c2[sq] == id
    ensures LabelsConnected(s, c2, start)
  {
    forall x, y | 0 <= x < |c2| && 0 <= y < |c2| && c2[x] >= start && c2[y] == c2[x]
      ensures Linked(s, LabelSet(c2, c2[x]), x, y)
    {
      if c1[x] == 0 {
        assert c1[y] == 0;
        LinkedSym(s, LabelSet(c2, id), sq, x);
        LinkedTrans(s, LabelSet(c2, id), x, sq, y);
      } else {
        assert c1[y] == c1[x];
        assert LabelSet(c1, c1[x]) <= LabelSet(c2, c1[x]);
        LinkedMono(s, LabelSet(c1, c1[x]), LabelSet(c2, c1[x]), x, y);
      }
    }
  }

  /** Labels only appear, on road squares. */
  ghost predicate Kept(c1: seq<nat>, c2: seq<nat>, road: set<nat>)
  {
    |c1| == |c2| &&
    forall x :: 0 <= x < |c1| ==> (c1[x] != 0 ==> c2[x] == c1[x]) && (c1[x] == 0 && c2[x] != 0 ==> x in road)
  }

  /** A flood fill from an unlabelled road square adds one closed group with the next label. */
  lemma PassStep(s: nat, c1: seq<nat>, c2: seq<nat>, road: set<nat>, start: nat, id: nat, sq: nat)
    requires s > 0 && PassLabels(s, c1, road, start, id)
    requires Grown(c1, c2, road, id) && ClosedExcept(s, c1, c2, road, -1)
    requires sq < |c1| && sq in road && c1[sq] == 0 && c2[sq] == id
    ensures PassLabels(s, c2, road, start, id + 1)
  {
    forall x, y | 0 <= x < |c2| && 0 <= y < |c2| && c2[x] >= start && y in road && Adjacent(s, x, y)
      ensures c2[y] == c2[x]
    {
      AdjacentSymmetric(s, x, y);
    }
    UsedStep(c1, c2, road, start, id, sq);
    var l1, l2 := LabelledFrom(c1, 1), LabelledFrom(c2, 1);
    assert l1 + {sq} <= l2;
    SubsetCard(l1 + {sq}, l2);
  }

  /** Labels in use stay in use, and the new one is used at `sq`. */
  lemma UsedStep(c1: seq<nat>, c2: seq<nat>, road: set<nat>, start: nat, id: nat, sq: nat)
    requires Grown(c1, c2, road, id) && sq < |c1| && c2[sq] == id && start >= 1
    requires forall k :: start <= k < id ==> k in c1
    ensures forall k :: start <= k < id + 1 ==> k in c2
  {
    forall k | start <= k < id + 1
      ensures k in c2
    {
      if k < id {
        assert k in c1;
        var x :| 0 <= x < |c1| && c1[x] == k;
        assert c2[x] == k;
      } else {
        assert c2[sq] == k;
      }
    }
  }

  lemma KeptTrans(c1: seq<nat>, c2: seq<nat>, c3: seq<nat>, road: set<nat>, id: nat)
    requires Kept(c1, c2, road) && Grown(c2, c3, road, id)
    ensures Kept(c1, c3, road)
  {
  }

  /** Every index of `c` holds a label of at least 0. */
  lemma {:induction false} AllIndices(c: seq<nat>)
    ensures |LabelledFrom(c, 0)| == |c|
  {
    if c != [] {
      var n := |c| - 1;
      AllIndices(c[..n]);
      assert LabelledFrom(c, 0) == LabelledFrom(c[..n], 0) + {n};
    }
  }

  /** A pass uses at most one label per square. */
  lemma PassBound(s: nat, c: seq<nat>, road: set<nat>, start: nat, id: nat)
    requires s > 0 && PassLabels(s, c, road, start, id)
    ensures id - 1 <= |c|
  {
    AllIndices(c);
    SubsetCard(LabelledFrom(c, 1), LabelledFrom(c, 0));
  }

  /** The state of the loop of `connected_components_graph` after a flood fill from `sq`. */
  lemma AfterFill(s: nat, c0: seq<nat>, c1: seq<nat>, c2: seq<nat>, road: set<nat>, id: nat, next: nat, sq: nat)
    requires s > 0 && PassLabels(s, c1, road, id, next) && LabelsConnected(s, c1, id) && Kept(c0, c1, road)
    requires Grown(c1, c2, road, next) && ClosedExcept(s, c1, c2, road, -1) && StarFrom(s, c1, c2, next, sq)
    requires sq < |c1| && sq in road && c1[sq] == 0 && c2[sq] == next
    requires forall x :: 0 <= x < sq && x in road ==> c1[x] != 0
    ensures PassLabels(s, c2, road, id, next + 1) && LabelsConnected(s, c2, id) && Kept(c0, c2, road)
    ensures forall x :: 0 <= x < sq + 1 && x in road ==> c2[x] != 0
  {
    PassStep(s, c1, c2, road, id, next, sq);
    ConnectedStep(s, c1, c2, road, id, next, sq);
    KeptTrans(c0, c1, c2, road, next);
  }

  /**
   * `connected_components_graph`: every unlabelled square of `road` starts a new group with
   * the next label; returns the label after the last one used.
   */
  method ConnectedComponentsGraph(s: nat, road: BitBoard, comps: array<nat>, id: nat) returns (next: nat)
    requires s >= 2 && comps.Length == s * s
    requires PassLabels(s, comps[..], road, id, id)
    modifies comps
    ensures PassLabels(s, comps[..], road, id, next)
    ensures LabelsConnected(s, comps[..], id)
    ensures Kept(old(comps[..]), comps[..], road)
    ensures forall x :: 0 <= x < s * s && x in road ==> comps[x] != 0
  {
    ghost var c0 := comps[..];
    next := id;
    var sq := 0;
    while sq < s * s
      invariant sq <= s * s
      invariant PassLabels(s, comps[..], road, id, next)
      invariant LabelsConnected(s, comps[..], id)
      invariant Kept(c0, comps[..], road)
      invariant forall x :: 0 <= x < sq && x in road ==> comps[x] != 0
    {
      if comps[sq] == 0 && sq in road {
        ghost var c1 := comps[..];
        ConnectComponent(s, road, comps, sq, next);
        AfterFill(s, c0, c1, comps[..], road, id, next, sq);
        next := next + 1;
      }
      sq := sq + 1;
    }
  }

  // ---------------------------------------------------------------------------
  // Both colours

  /** The labelling `group_data` ends with, stated on the two road sets. */
  ghost predicate LabelsSound(s: nat, groups: seq<nat>, white: set<nat>, black: set<nat>, next: nat)
    requires s > 0
  {
    |groups| == s * s && 1 <= next <= s * s + 1 &&
    (forall x :: 0 <= x < s * s ==> (groups[x] != 0 <==> x in white || x in black)) &&
    (forall x, y ::
       (0 <= x < s * s && 0 <= y < s * s && Adjacent(s, x, y) &&
        ((x in white && y in white) || (x in black && y in black))) ==> groups[x] == groups[y]) &&
    (forall x, y :: 0 <= x < s * s && 0 <= y < s * s && x in white && y in black ==> groups[x] != groups[y]) &&
    (forall x :: 0 <= x < s * s ==> groups[x] < next) &&
    (forall k :: 1 <= k < next ==> k in groups)
  }

  /** The labels of `group_data`: sound as above, and each label is one connected group. */
  ghost predicate GroupLabels(s: nat, groups: seq<nat>, white: set<nat>, black: set<nat>, next: nat)
    requires s > 0
  {
    LabelsSound(s, groups, white, black, next) && LabelsConnected(s, groups, 1)
  }

  /** The two `connected_components_graph` calls of `group_data`, white road pieces first. */
  method LabelGroups(s: nat, white: BitBoard, black: BitBoard) returns (groups: seq<nat>, next: nat)
    requires s >= 2 && (forall x :: x in black ==> x !in white)
    requires forall x :: x in white + black ==> x < s * s
    ensures GroupLabels(s, groups, white, black, next)
  {
    var comps := new nat[s * s](_ => 0);
    ghost var c0 := comps[..];
    assert LabelledFrom(c0, 1) == {};
    var mid := ConnectedComponentsGraph(s, white, comps, 1);
    ghost var c1 := comps[..];
    WhiteThenBlack(s, c0, c1, white, black, mid);
    next := ConnectedComponentsGraph(s, black, comps, mid);
    groups := comps[..];
    BothPasses(s, c0, c1, groups, white, black, mid, next);
    BothConnected(s, c1, groups, white, black, mid, next);
  }

  /** After the white pass, the black pass starts with no black square labelled. */
  lemma WhiteThenBlack(s: nat, c0: seq<nat>, c1: seq<nat>, white: set<nat>, black: set<nat>, mid: nat)
    requires s >= 2 && (forall x :: x in black ==> x !in white) && |c0| == s * s
    requires forall x :: 0 <= x < |c0| ==> c0[x] == 0
    requires PassLabels(s, c1, white, 1, mid) && Kept(c0, c1, white)
    ensures PassLabels(s, c1, black, mid, mid)
  {
    forall x | 0 <= x < |c1| && x in black
      ensures c1[x] == 0
    {
      assert x !in white;
    }
  }

  lemma BothPasses(s: nat, c0: seq<nat>, c1: seq<nat>, c2: seq<nat>, white: set<nat>, black: set<nat>,
                   mid: nat, next: nat)
    requires s >= 2 && (forall x :: x in black ==> x !in white) && |c0| == s * s
    requires forall x :: x in white + black ==> x < s * s
    requires forall x :: 0 <= x < |c0| ==> c0[x] == 0
    requires PassLabels(s, c1, white, 1, mid) && Kept(c0, c1, white)
    requires forall x :: 0 <= x < s * s && x in white ==> c1[x] != 0
    requires PassLabels(s, c2, black, mid, next) && Kept(c1, c2, black)
    requires forall x :: 0 <= x < s * s && x in black ==> c2[x] != 0
    ensures LabelsSound(s, c2, white, black, next)
  {
    PassBound(s, c2, black, mid, next);
    forall k | 1 <= k < next
      ensures k in c2
    {
      if k < mid {
        assert k in c1;
        var x :| 0 <= x < |c1| && c1[x] == k;
        assert c2[x] == k;
      }
    }
  }

  /** Along a walk through one colour's road squares the label never changes. */
  lemma {:induction false} WalkSameLabel(s: nat, groups: seq<nat>, white: set<nat>, black: set<nat>, next: nat,
                                         side: set<nat>, path: seq<nat>)
    requires s > 0 && LabelsSound(s, groups, white, black, next) && (side == white || side == black)
    requires Walk(s, side, path) && forall i :: 0 <= i < |path| ==> path[i] < s * s
    ensures forall i :: 0 <= i < |path| ==> groups[path[i]] == groups[path[0]]
  {
    if |path| > 1 {
      var n := |path| - 1;
      assert Walk(s, side, path[..n]);
      WalkSameLabel(s, groups, white, black, next, side, path[..n]);
      assert path[..n][n - 1] == path[n - 1];
      assert Adjacent(s, path[n - 1], path[n]);
    }
  }

  /** The white labels stay connected through the black pass. */
  lemma BothConnected(s: nat, c1: seq<nat>, c2: seq<nat>, white: set<nat>, black: set<nat>, mid: nat, next: nat)
    requires s >= 2
    requires PassLabels(s, c1, white, 1, mid) && LabelsConnected(s, c1, 1)
    requires PassLabels(s, c2, black, mid, next) && LabelsConnected(s, c2, mid) && Kept(c1, c2, black)
    ensures LabelsConnected(s, c2, 1)
  {
    forall x, y | 0 <= x < |c2| && 0 <= y < |c2| && c2[x] >= 1 && c2[y] == c2[x] && c2[x] < mid
      ensures Linked(s, LabelSet(c2, c2[x]), x, y)
    {
      assert c1[x] == c2[x] && c1[y] == c2[y];
      assert LabelSet(c1, c1[x]) <= LabelSet(c2, c1[x]);
      LinkedMono(s, LabelSet(c1, c1[x]), LabelSet(c2, c1[x]), x, y);
    }
  }

  // ---------------------------------------------------------------------------
  // Piece bitboards

  /** The squares below `n` whose top is `p`. */
  function TopsBelow(tops: seq<Option<Piece>>, p: Piece, n: nat): (r: BitBoard)
    requires n <= |tops| <= 64
    ensures forall x: nat :: x in r <==> x < n && tops[x] == Some(p)
  {
    if n == 0 then {} else
      var r := TopsBelow(tops, p, n - 1);
      if tops[n - 1] == Some(p) then Set(r, n - 1) else r
  }

  /** The first loop of `group_data`: one bitboard per piece kind, of the squares it tops. */
  method PieceBoards(tops: seq<Option<Piece>>) returns (wf: BitBoard, bf: BitBoard, ww: BitBoard,
                                                        bw: BitBoard, wc: BitBoard, bc: BitBoard)
    requires |tops| <= 64
    ensures wf == TopsBelow(tops, WhiteFlat, |tops|) && bf == TopsBelow(tops, BlackFlat, |tops|)
    ensures ww == TopsBelow(tops, WhiteWall, |tops|) && bw == TopsBelow(tops, BlackWall, |tops|)
    ensures wc == TopsBelow(tops, WhiteCap, |tops|) && bc == TopsBelow(tops, BlackCap, |tops|)
  {
    wf, bf, ww, bw, wc, bc := {}, {}, {}, {}, {}, {};
    var sq := 0;
    while sq < |tops|
      invariant sq <= |tops|
      invariant wf == TopsBelow(tops, WhiteFlat, sq) && bf == TopsBelow(tops, BlackFlat, sq)
      invariant ww == TopsBelow(tops, WhiteWall, sq) && bw == TopsBelow(tops, BlackWall, sq)
      invariant wc == TopsBelow(tops, WhiteCap, sq) && bc == TopsBelow(tops, BlackCap, sq)
    {
      match tops[sq] {
        case Some(WhiteFlat) => wf := Set(wf, sq);
        case Some(BlackFlat) => bf := Set(bf, sq);
        case Some(WhiteWall) => ww := Set(ww, sq);
        case Some(BlackWall) => bw := Set(bw, sq);
        case Some(WhiteCap) => wc := Set(wc, sq);
        case Some(BlackCap) => bc := Set(bc, sq);
        case None =>
      }
      sq := sq + 1;
    }
  }

  // ---------------------------------------------------------------------------
  // Group sizes and edges (`amount_in_group`)

  /** The four board edges. */
  datatype Edge = NorthEdge | SouthEdge | EastEdge | WestEdge

  predicate Has(ec: EdgeConnection, e: Edge)
  {
    match e
    case NorthEdge => ec.North()
    case SouthEdge => ec.South()
    case EastEdge => ec.East()
    case WestEdge => ec.West()
  }

  predicate OnEdge(s: nat, x: nat, e: Edge)
    requires s > 0
  {
    match e
    case NorthEdge => Rank(s, x) == s - 1
    case SouthEdge => Rank(s, x) == 0
    case EastEdge => File(s, x) == s - 1
    case WestEdge => File(s, x) == 0
  }

  /** `is_winning` in terms of `Has`. */
  lemma WinningHas(ec: EdgeConnection)
    ensures ec.IsWinning() <==> (Has(ec, NorthEdge) && Has(ec, SouthEdge)) || (Has(ec, EastEdge) && Has(ec, WestEdge))
  {
  }

  predicate IsRoadTop(t: Option<Piece>)
  {
    t.Some? && t.value.IsRoadPiece()
  }

  /** How many of the squares below `n` carry label `k`. */
  function CountBelow(groups: seq<nat>, k: nat, n: nat): nat
    requires n <= |groups|
  {
    if n == 0 then 0 else CountBelow(groups, k, n - 1) + (if groups[n - 1] == k then 1 else 0)
  }

  /** The edges touched by the road squares below `n` with label `k`, folded in square order. */
  function EdgesBelow(s: nat, tops: seq<Option<Piece>>, groups: seq<nat>, k: nat, n: nat): EdgeConnection
    requires s > 0 && n <= |groups| && n <= |tops|
  {
    if n == 0 then NoEdges
    else
      var e := EdgesBelow(s, tops, groups, k, n - 1);
      if groups[n - 1] == k && IsRoadTop(tops[n - 1]) then e.ConnectSquare(s, n - 1) else e
  }

  /** A label's count is zero exactly when no square carries it. */
  lemma {:induction false} CountBelowZero(groups: seq<nat>, k: nat, n: nat)
    requires n <= |groups|
    ensures CountBelow(groups, k, n) == 0 <==> forall x :: 0 <= x < n ==> groups[x] != k
  {
    if n > 0 {
      CountBelowZero(groups, k, n - 1);
    }
  }

  /** A group's mask has an edge exactly when one of its road squares lies on that edge. */
  lemma {:induction false} EdgesBelowHas(s: nat, tops: seq<Option<Piece>>, groups: seq<nat>, k: nat, n: nat, e: Edge)
    requires s > 0 && n <= |groups| && n <= |tops|
    ensures Has(EdgesBelow(s, tops, groups, k, n), e) <==>
            exists x :: 0 <= x < n && groups[x] == k && IsRoadTop(tops[x]) && OnEdge(s, x, e)
  {
    if n == 0 {
      NoEdgesConnected();
    } else {
      EdgesBelowHas(s, tops, groups, k, n - 1, e);
    }
  }

  /** The second loop of `group_data`: the size and the edge mask of every group. */
  method AmountInGroup(s: nat, tops: seq<Option<Piece>>, groups: seq<nat>) returns (amounts: seq<(nat, EdgeConnection)>)
    requires s > 0 && |tops| == |groups| == s * s
    requires forall x :: 0 <= x < s * s ==> groups[x] <= s * s
    ensures |amounts| == s * s + 1
    ensures forall k :: 0 <= k < |amounts| ==>
              amounts[k] == (CountBelow(groups, k, s * s), EdgesBelow(s, tops, groups, k, s * s))
  {
    var a := new (nat, EdgeConnection)[s * s + 1](_ => (0, NoEdges));
    var sq := 0;
    while sq < s * s
      invariant sq <= s * s
      invariant forall k :: 0 <= k < a.Length ==>
                  a[k] == (CountBelow(groups, k, sq), EdgesBelow(s, tops, groups, k, sq))
    {
      var g := groups[sq];
      a[g] := (a[g].0 + 1, a[g].1);
      if IsRoadTop(tops[sq]) {
        a[g] := (a[g].0, a[g].1.ConnectSquare(s, sq));
      }
      sq := sq + 1;
    }
    amounts := a[..];
  }

  // ---------------------------------------------------------------------------
  // Critical squares

  /** The colour of the top piece, if any. */
  function TopColor(t: Option<Piece>): Option<Color>
  {
    if t.Some? then Some(t.value.Color()) else None
  }

  /** The fold of `is_critical_square_from_scratch` over the neighbours `ns`. */
  function NeighbourEdges(tops: seq<Option<Piece>>, groups: seq<nat>, amounts: seq<(nat, EdgeConnection)>,
                          ns: seq<nat>, c: Color, acc: EdgeConnection): EdgeConnection
    requires forall i :: 0 <= i < |ns| ==> ns[i] < |tops| && ns[i] < |groups| && groups[ns[i]] < |amounts|
  {
    if ns == [] then acc
    else
      var acc' := if TopColor(tops[ns[0]]) == Some(c) then acc.Or(amounts[groups[ns[0]]].1) else acc;
      NeighbourEdges(tops, groups, amounts, ns[1..], c, acc')
  }

  /**
   * `is_critical_square_from_scratch`: the edges of `sq` itself and of the groups of the
   * neighbours topped by colour `c` (any role) make a road.
   */
  predicate IsCriticalFromScratch(s: nat, tops: seq<Option<Piece>>, groups: seq<nat>,
                                  amounts: seq<(nat, EdgeConnection)>, sq: nat, c: Color)
    requires s >= 2 && sq < s * s && |tops| == |groups| == s * s
    requires forall x :: 0 <= x < s * s ==> groups[x] < |amounts|
  {
    CriticalMask(s, tops, groups, amounts, sq, c).IsWinning()
  }

  /** The mask `is_critical_square_from_scratch` folds together. */
  function CriticalMask(s: nat, tops: seq<Option<Piece>>, groups: seq<nat>,
                        amounts: seq<(nat, EdgeConnection)>, sq: nat, c: Color): EdgeConnection
    requires s >= 2 && sq < s * s && |tops| == |groups| == s * s
    requires forall x :: 0 <= x < s * s ==> groups[x] < |amounts|
  {
    NeighboursOnBoard(s, sq);
    NeighbourEdges(tops, groups, amounts, Neighbours(s, sq), c, NoEdges.ConnectSquare(s, sq))
  }

  lemma {:induction false} NeighbourEdgesHas(tops: seq<Option<Piece>>, groups: seq<nat>,
                                             amounts: seq<(nat, EdgeConnection)>, ns: seq<nat>, c: Color,
                                             acc: EdgeConnection, e: Edge)
    requires forall i :: 0 <= i < |ns| ==> ns[i] < |tops| && ns[i] < |groups| && groups[ns[i]] < |amounts|
    ensures Has(NeighbourEdges(tops, groups, amounts, ns, c, acc), e) <==>
            Has(acc, e) ||
            exists i :: 0 <= i < |ns| && TopColor(tops[ns[i]]) == Some(c) && Has(amounts[groups[ns[i]]].1, e)
  {
    if ns != [] {
      var acc' := if TopColor(tops[ns[0]]) == Some(c) then acc.Or(amounts[groups[ns[0]]].1) else acc;
      NeighbourEdgesHas(tops, groups, amounts, ns[1..], c, acc', e);
      if exists i :: 0 <= i < |ns| && TopColor(tops[ns[i]]) == Some(c) && Has(amounts[groups[ns[i]]].1, e) {
        var i :| 0 <= i < |ns| && TopColor(tops[ns[i]]) == Some(c) && Has(amounts[groups[ns[i]]].1, e);
        if i > 0 {
          assert ns[1..][i - 1] == ns[i];
        }
      }
    }
  }

  /**
   * Edge `e` is reachable from `sq` for colour `c`: `sq` lies on it, or a neighbour topped by
   * `c` belongs to a group whose mask has it.
   */
  predicate ReachesEdge(s: nat, tops: seq<Option<Piece>>, groups: seq<nat>,
                        amounts: seq<(nat, EdgeConnection)>, sq: nat, c: Color, e: Edge)
    requires s >= 2 && sq < s * s && |tops| == |groups| == s * s
    requires forall x :: 0 <= x < s * s ==> groups[x] < |amounts|
  {
    OnEdge(s, sq, e) ||
    exists nb :: 0 <= nb < s * s && Adjacent(s, sq, nb) && TopColor(tops[nb]) == Some(c) && Has(amounts[groups[nb]].1, e)
  }

  lemma CriticalEdge(s: nat, tops: seq<Option<Piece>>, groups: seq<nat>,
                     amounts: seq<(nat, EdgeConnection)>, sq: nat, c: Color, e: Edge)
    requires s >= 2 && sq < s * s && |tops| == |groups| == s * s
    requires forall x :: 0 <= x < s * s ==> groups[x] < |amounts|
    ensures Has(CriticalMask(s, tops, groups, amounts, sq, c), e) <==> ReachesEdge(s, tops, groups, amounts, sq, c, e)
  {
    NeighboursOnBoard(s, sq);
    var ns := Neighbours(s, sq);
    NeighbourEdgesHas(tops, groups, amounts, ns, c, NoEdges.ConnectSquare(s, sq), e);
    NoEdgesConnected();
    assert Has(NoEdges.ConnectSquare(s, sq), e) <==> OnEdge(s, sq, e);
    if exists i :: 0 <= i < |ns| && TopColor(tops[ns[i]]) == Some(c) && Has(amounts[groups[ns[i]]].1, e) {
      var i :| 0 <= i < |ns| && TopColor(tops[ns[i]]) == Some(c) && Has(amounts[groups[ns[i]]].1, e);
      NeighbourIffAdjacent(s, sq, ns[i]);
    }
    if exists nb :: 0 <= nb < s * s && Adjacent(s, sq, nb) && TopColor(tops[nb]) == Some(c) && Has(amounts[groups[nb]].1, e) {
      var nb :| 0 <= nb < s * s && Adjacent(s, sq, nb) && TopColor(tops[nb]) == Some(c) && Has(amounts[groups[nb]].1, e);
      NeighbourIffAdjacent(s, sq, nb);
      var i :| 0 <= i < |ns| && ns[i] == nb;
    }
  }

  /**
   * A square is critical for `c` exactly when, counting the square itself and the groups of its
   * `c`-topped neighbours, both the north and south edges or both the east and west edges are reached.
   */
  lemma CriticalIff(s: nat, tops: seq<Option<Piece>>, groups: seq<nat>,
                    amounts: seq<(nat, EdgeConnection)>, sq: nat, c: Color)
    requires s >= 2 && sq < s * s && |tops| == |groups| == s * s
    requires forall x :: 0 <= x < s * s ==> groups[x] < |amounts|
    ensures IsCriticalFromScratch(s, tops, groups, amounts, sq, c) <==>
            (ReachesEdge(s, tops, groups, amounts, sq, c, NorthEdge) && ReachesEdge(s, tops, groups, amounts, sq, c, SouthEdge)) ||
            (ReachesEdge(s, tops, groups, amounts, sq, c, EastEdge) && ReachesEdge(s, tops, groups, amounts, sq, c, WestEdge))
  {
    WinningHas(CriticalMask(s, tops, groups, amounts, sq, c));
    CriticalEdge(s, tops, groups, amounts, sq, c, NorthEdge);
    CriticalEdge(s, tops, groups, amounts, sq, c, SouthEdge);
    CriticalEdge(s, tops, groups, amounts, sq, c, EastEdge);
    CriticalEdge(s, tops, groups, amounts, sq, c, WestEdge);
  }

  /** The squares below `n` that are critical for `c`. */
  function CriticalBelow(s: nat, tops: seq<Option<Piece>>, groups: seq<nat>,
                         amounts: seq<(nat, EdgeConnection)>, c: Color, n: nat): (r: BitBoard)
    requires s >= 2 && n <= s * s <= 64 && |tops| == |groups| == s * s
    requires forall x :: 0 <= x < s * s ==> groups[x] < |amounts|
    ensures forall x: nat :: x in r <==> x < n && IsCriticalFromScratch(s, tops, groups, amounts, x, c)
  {
    if n == 0 then {} else
      var r := CriticalBelow(s, tops, groups, amounts, c, n - 1);
      if IsCriticalFromScratch(s, tops, groups, amounts, n - 1, c) then Set(r, n - 1) else r
  }

  /** The third loop of `group_data`. */
  method CriticalSquares(s: nat, tops: seq<Option<Piece>>, groups: seq<nat>, amounts: seq<(nat, EdgeConnection)>)
    returns (white: BitBoard, black: BitBoard)
    requires s >= 2 && s * s <= 64 && |tops| == |groups| == s * s
    requires forall x :: 0 <= x < s * s ==> groups[x] < |amounts|
    ensures white == CriticalBelow(s, tops, groups, amounts, White, s * s)
    ensures black == CriticalBelow(s, tops, groups, amounts, Black, s * s)
  {
    white, black := {}, {};
    var sq := 0;
    while sq < s * s
      invariant sq <= s * s
      invariant white == CriticalBelow(s, tops, groups, amounts, White, sq)
      invariant black == CriticalBelow(s, tops, groups, amounts, Black, sq)
    {
      if IsCriticalFromScratch(s, tops, groups, amounts, sq, White) {
        white := Set(white, sq);
      }
      if IsCriticalFromScratch(s, tops, groups, amounts, sq, Black) {
        black := Set(black, sq);
      }
      sq := sq + 1;
    }
  }

  // ---------------------------------------------------------------------------
  // `GroupData`

  datatype GroupData = GroupData(
    groups: seq<nat>,
    amountInGroup: seq<(nat, EdgeConnection)>,
    whiteCritical: BitBoard,
    blackCritical: BitBoard,
    whiteFlats: BitBoard,
    blackFlats: BitBoard,
    whiteCaps: BitBoard,
    blackCaps: BitBoard,
    whiteWalls: BitBoard,
    blackWalls: BitBoard)
  {
    function WhiteRoadPieces(): BitBoard { whiteFlats + whiteCaps }
    function BlackRoadPieces(): BitBoard { blackFlats + blackCaps }
    function WhiteBlockingPieces(): BitBoard { whiteWalls + whiteCaps }
    function BlackBlockingPieces(): BitBoard { blackWalls + blackCaps }
    function AllPieces(): BitBoard
    {
      whiteFlats + WhiteBlockingPieces() + blackFlats + BlackBlockingPieces()
    }

    /** `is_critical_square` reads the stored bitboard of the colour. */
    predicate IsCriticalSquare(sq: nat, c: Color)
    {
      if c == White then sq in whiteCritical else sq in blackCritical
    }
  }

  /** The first index from `i` on whose group count is 0, or `|amounts|` (`S * S + 1`) when none is. */
  function FirstEmpty(amounts: seq<(nat, EdgeConnection)>, i: nat): (r: nat)
    requires i <= |amounts|
    ensures i <= r <= |amounts|
    ensures r < |amounts| ==> amounts[r].0 == 0
    ensures forall k :: i <= k < r ==> amounts[k].0 != 0
    decreases |amounts| - i
  {
    if i == |amounts| then i
    else if amounts[i].0 == 0 then i
    else FirstEmpty(amounts, i + 1)
  }

  /** Because labels are dense, the first empty group id is the id after the highest one used. */
  lemma HighestComponentId(s: nat, tops: seq<Option<Piece>>, groups: seq<nat>, white: set<nat>, black: set<nat>,
                           next: nat, amounts: seq<(nat, EdgeConnection)>)
    requires s > 0 && GroupLabels(s, groups, white, black, next) && |tops| == s * s
    requires |amounts| == s * s + 1
    requires forall k :: 0 <= k < |amounts| ==> amounts[k].0 == CountBelow(groups, k, s * s)
    ensures FirstEmpty(amounts, 1) == next
  {
    var r := FirstEmpty(amounts, 1);
    if r < next {
      assert r in groups;
      var x :| 0 <= x < s * s && groups[x] == r;
      CountBelowZero(groups, r, s * s);
    } else if r > next {
      assert next < |amounts|;
      CountBelowZero(groups, next, s * s);
    }
  }

  /** The piece bitboards, labels and per-label counts and edges `group_data` computes from `tops`. */
  ghost predicate GroupsOf(s: nat, tops: seq<Option<Piece>>, g: GroupData)
    requires ValidSize(s) && |tops| == s * s
  {
    g.whiteFlats == TopsBelow(tops, WhiteFlat, s * s) && g.blackFlats == TopsBelow(tops, BlackFlat, s * s) &&
    g.whiteWalls == TopsBelow(tops, WhiteWall, s * s) && g.blackWalls == TopsBelow(tops, BlackWall, s * s) &&
    g.whiteCaps == TopsBelow(tops, WhiteCap, s * s) && g.blackCaps == TopsBelow(tops, BlackCap, s * s) &&
    |g.amountInGroup| == s * s + 1 &&
    GroupLabels(s, g.groups, g.WhiteRoadPieces(), g.BlackRoadPieces(), FirstEmpty(g.amountInGroup, 1)) &&
    (forall k :: 0 <= k < |g.amountInGroup| ==>
       g.amountInGroup[k] == (CountBelow(g.groups, k, s * s), EdgesBelow(s, tops, g.groups, k, s * s)))
  }

  /** What `group_data` computes from the top pieces `tops`. */
  ghost predicate IsGroupDataOf(s: nat, tops: seq<Option<Piece>>, g: GroupData)
    requires ValidSize(s) && |tops| == s * s
  {
    GroupsOf(s, tops, g) &&
    g.whiteCritical == CriticalBelow(s, tops, g.groups, g.amountInGroup, White, s * s) &&
    g.blackCritical == CriticalBelow(s, tops, g.groups, g.amountInGroup, Black, s * s)
  }

  /** `group_data`: every derived quantity of the position's top pieces. */
  method GroupDataOf(s: nat, tops: seq<Option<Piece>>) returns (g: GroupData)
    requires ValidSize(s) && |tops| == s * s
    ensures IsGroupDataOf(s, tops, g)
  {
    var wf, bf, ww, bw, wc, bc := PieceBoards(tops);
    var groups, next := LabelGroups(s, wf + wc, bf + bc);
    var amounts := AmountInGroup(s, tops, groups);
    HighestComponentId(s, tops, groups, wf + wc, bf + bc, next, amounts);
    var whiteCritical, blackCritical := CriticalSquares(s, tops, groups, amounts);
    g := GroupData(groups, amounts, whiteCritical, blackCritical, wf, bf, wc, bc, ww, bw);
  }
}
