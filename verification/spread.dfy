/**
 * What a spread does to the board (the stack-moving loops of `do_move` and `reverse_move` in
 * board.rs), stated on the pieces of each square from the bottom up. Each step carries the top
 * `t` pieces of one square onto its neighbour, keeping their order and flattening the piece they
 * land on.
 */
module Spreads {
  import opened Pieces
  import opened Squares
  import opened Stacks
  import opened Moves

  /** The pieces of a stack: everything below the top is a flat, and it fits the layer word. */
  predicate StackShape(ps: seq<Piece>)
  {
    |ps| <= MaxHeight && forall i :: 0 <= i < |ps| - 1 ==> ps[i].Role() == Flat
  }

  /** A board of `s * s` stacks. */
  predicate ValidCells(s: nat, cells: seq<seq<Piece>>)
  {
    ValidSize(s) && |cells| == s * s && forall i :: 0 <= i < |cells| ==> StackShape(cells[i])
  }

  /** The top piece is there and has the given role. */
  predicate TopIs(ps: seq<Piece>, role: Role)
  {
    |ps| > 0 && ps[|ps| - 1].Role() == role
  }

  /** Carried pieces on top of a flattened stack make a stack. */
  lemma AppendShape(qs: seq<Piece>, ps: seq<Piece>)
    requires StackShape(qs) && StackShape(ps) && |qs| + |ps| <= MaxHeight
    ensures StackShape(FlattenTop(qs) + ps)
  {
    var r := FlattenTop(qs) + ps;
    forall i | 0 <= i < |r| - 1
      ensures r[i].Role() == Flat
    {
      if i < |qs| {
        assert r[i] == FlattenTop(qs)[i];
      } else {
        assert r[i] == ps[i - |qs|];
      }
    }
  }

  /** Flattening the top of a stack that is empty or has a flat on top changes nothing. */
  lemma FlattenTopFlat(ps: seq<Piece>)
    requires !TopIs(ps, Wall) && !TopIs(ps, Cap)
    ensures FlattenTop(ps) == ps
  {
    if |ps| > 0 {
      FromRoleColorOfPiece(ps[|ps| - 1]);
    }
  }

  // ---------------------------------------------------------------------------
  // One step

  /** One step of a spread can run: there is a neighbour, enough pieces, and room on top of it. */
  predicate StepOk(s: nat, cells: seq<seq<Piece>>, from: nat, d: Direction, t: nat)
    requires ValidCells(s, cells) && from < s * s
  {
    var to := GoDirection(s, from, d);
    to.Some? && t <= |cells[from]| && |cells[to.value]| + t <= MaxHeight
  }

  /**
   * One step of a spread: the top `t` pieces of `from` go, in order, onto its neighbour in
   * direction `d`, whose old top is flattened under them. Carrying nothing changes nothing.
   */
  function Step(s: nat, cells: seq<seq<Piece>>, from: nat, d: Direction, t: nat): (r: seq<seq<Piece>>)
    requires ValidCells(s, cells) && from < s * s && StepOk(s, cells, from, d, t)
    ensures ValidCells(s, r)
    ensures |r[from]| == |cells[from]| - t
    ensures |r[GoDirection(s, from, d).value]| == |cells[GoDirection(s, from, d).value]| + t
  {
    var to := GoDirection(s, from, d).value;
    var ps := cells[from];
    var n := |ps| - t;
    if t == 0 then cells
    else
      AppendShape(cells[to], ps[n..]);
      cells[from := ps[..n]][to := FlattenTop(cells[to]) + ps[n..]]
  }

  /** The number of pieces on the board (`count_all_pieces`). */
  function PiecesOnBoard(cells: seq<seq<Piece>>): nat
  {
    if cells == [] then 0 else PiecesOnBoard(cells[..|cells| - 1]) + |cells[|cells| - 1]|
  }

  /** A board of `n` empty squares. */
  function EmptyCells(n: nat): (r: seq<seq<Piece>>)
    ensures |r| == n && forall i :: 0 <= i < n ==> r[i] == []
  {
    seq(n, i => [])
  }

  /** An empty board holds no pieces. */
  lemma {:induction false} EmptyCount(n: nat)
    ensures PiecesOnBoard(EmptyCells(n)) == 0
  {
    if n > 0 {
      assert EmptyCells(n)[..n - 1] == EmptyCells(n - 1);
      EmptyCount(n - 1);
    }
  }

  /** Replacing one square's pieces changes the count by the difference in height. */
  lemma {:induction false} PiecesOnBoardUpdate(cells: seq<seq<Piece>>, i: nat, v: seq<Piece>)
    requires i < |cells|
    ensures PiecesOnBoard(cells[i := v]) + |cells[i]| == PiecesOnBoard(cells) + |v|
    decreases |cells|
  {
    var n := |cells| - 1;
    var c := cells[i := v];
    if i == n {
      assert c[..n] == cells[..n];
    } else {
      assert c[..n] == cells[..n][i := v];
      PiecesOnBoardUpdate(cells[..n], i, v);
    }
  }

  /** A step moves pieces between two squares and changes the count of none. */
  lemma StepCount(s: nat, cells: seq<seq<Piece>>, from: nat, d: Direction, t: nat)
    requires ValidCells(s, cells) && from < s * s && StepOk(s, cells, from, d, t)
    ensures PiecesOnBoard(Step(s, cells, from, d, t)) == PiecesOnBoard(cells)
  {
    if t > 0 {
      var to := GoDirection(s, from, d).value;
      var ps := cells[from];
      var n := |ps| - t;
      var c1 := cells[from := ps[..n]];
      PiecesOnBoardUpdate(cells, from, ps[..n]);
      PiecesOnBoardUpdate(c1, to, FlattenTop(cells[to]) + ps[n..]);
    }
  }

  /** A step changes only its two squares. */
  lemma StepFrame(s: nat, cells: seq<seq<Piece>>, from: nat, d: Direction, t: nat, x: nat)
    requires ValidCells(s, cells) && from < s * s && StepOk(s, cells, from, d, t)
    requires x < s * s && x != from && x != GoDirection(s, from, d).value
    ensures Step(s, cells, from, d, t)[x] == cells[x]
  {
  }

  /** A step does not look at any square other than its two. */
  lemma StepUpdate(s: nat, cells: seq<seq<Piece>>, from: nat, d: Direction, t: nat, x: nat, v: seq<Piece>)
    requires ValidCells(s, cells) && from < s * s && StepOk(s, cells, from, d, t)
    requires x < s * s && x != from && x != GoDirection(s, from, d).value && StackShape(v)
    ensures ValidCells(s, cells[x := v]) && StepOk(s, cells[x := v], from, d, t)
    ensures Step(s, cells[x := v], from, d, t) == Step(s, cells, from, d, t)[x := v]
  {
    var to := GoDirection(s, from, d).value;
    if t > 0 {
      var ps := cells[from];
      var n := |ps| - t;
      assert cells[x := v][from := ps[..n]][to := FlattenTop(cells[to]) + ps[n..]]
          == cells[from := ps[..n]][to := FlattenTop(cells[to]) + ps[n..]][x := v];
    }
  }

  /**
   * Carrying `t >= 1` pieces one square and straight back restores the board, except that the
   * top of the neighbour, which was buried for a moment, comes back flattened.
   */
  lemma StepInverse(s: nat, cells: seq<seq<Piece>>, from: nat, d: Direction, t: nat)
    requires ValidCells(s, cells) && from < s * s && StepOk(s, cells, from, d, t) && t > 0
    ensures var to := GoDirection(s, from, d).value;
            && StepOk(s, Step(s, cells, from, d, t), to, d.Reverse(), t)
            && Step(s, Step(s, cells, from, d, t), to, d.Reverse(), t) == cells[to := FlattenTop(cells[to])]
  {
    var to := GoDirection(s, from, d).value;
    GoDirectionReverse(s, from, d);
    var ps, qs := cells[from], cells[to];
    var n := |ps| - t;
    var c1 := Step(s, cells, from, d, t);
    assert c1[to] == FlattenTop(qs) + ps[n..];
    assert c1[from] == ps[..n];
    var c2 := Step(s, c1, to, d.Reverse(), t);
    assert (FlattenTop(qs) + ps[n..])[..|qs|] == FlattenTop(qs);
    assert (FlattenTop(qs) + ps[n..])[|qs|..] == ps[n..];
    assert c2[to] == FlattenTop(qs);
    assert c2[from] == FlattenTop(ps[..n]) + ps[n..];
    if n > 0 {
      FlattenTopFlat(ps[..n]);
    }
    assert ps[..n] + ps[n..] == ps;
    assert c2 == cells[to := FlattenTop(qs)];
  }

  // ---------------------------------------------------------------------------
  // A whole spread

  /** Every step of the spread can run, on the board as the earlier steps left it. */
  predicate SpreadOk(s: nat, cells: seq<seq<Piece>>, from: nat, d: Direction, takes: seq<nat>)
    requires ValidCells(s, cells) && from < s * s
    decreases |takes|
  {
    takes == [] ||
    (StepOk(s, cells, from, d, takes[0]) &&
     SpreadOk(s, Step(s, cells, from, d, takes[0]), GoDirection(s, from, d).value, d, takes[1..]))
  }

  /** The board after all the steps of the spread. */
  function SpreadCells(s: nat, cells: seq<seq<Piece>>, from: nat, d: Direction, takes: seq<nat>): (r: seq<seq<Piece>>)
    requires ValidCells(s, cells) && from < s * s && SpreadOk(s, cells, from, d, takes)
    ensures ValidCells(s, r)
    decreases |takes|
  {
    if takes == [] then cells
    else SpreadCells(s, Step(s, cells, from, d, takes[0]), GoDirection(s, from, d).value, d, takes[1..])
  }

  /** A spread that can run is its first step, then the rest of it from the neighbour. */
  lemma SpreadCons(s: nat, cells: seq<seq<Piece>>, from: nat, d: Direction, takes: seq<nat>)
    requires ValidCells(s, cells) && from < s * s && SpreadOk(s, cells, from, d, takes) && takes != []
    ensures StepOk(s, cells, from, d, takes[0])
    ensures var c1 := Step(s, cells, from, d, takes[0]);
            var to := GoDirection(s, from, d).value;
            && SpreadOk(s, c1, to, d, takes[1..])
            && SpreadCells(s, cells, from, d, takes) == SpreadCells(s, c1, to, d, takes[1..])
  {
  }

  /** A spread keeps the number of pieces on the board. */
  lemma {:induction false} SpreadCount(s: nat, cells: seq<seq<Piece>>, from: nat, d: Direction, takes: seq<nat>)
    requires ValidCells(s, cells) && from < s * s && SpreadOk(s, cells, from, d, takes)
    ensures PiecesOnBoard(SpreadCells(s, cells, from, d, takes)) == PiecesOnBoard(cells)
    decreases |takes|
  {
    if takes != [] {
      StepCount(s, cells, from, d, takes[0]);
      SpreadCount(s, Step(s, cells, from, d, takes[0]), GoDirection(s, from, d).value, d, takes[1..]);
    }
  }

  /** `flattens_stone`: some step lands on a wall. */
  predicate SpreadFlattens(s: nat, cells: seq<seq<Piece>>, from: nat, d: Direction, takes: seq<nat>)
    requires ValidCells(s, cells) && from < s * s && SpreadOk(s, cells, from, d, takes)
    decreases |takes|
  {
    && takes != []
    && var to := GoDirection(s, from, d).value;
       (TopIs(cells[to], Wall) || SpreadFlattens(s, Step(s, cells, from, d, takes[0]), to, d, takes[1..]))
  }

  /** The square the spread ends on (the last square `MoveIterator` yields). */
  function SpreadEnd(s: nat, from: nat, d: Direction, takes: seq<nat>): (r: nat)
    requires s > 0 && from < s * s
    ensures r < s * s
  {
    Path(s, from, d, |takes|)[|takes|]
  }

  /** A spread that can run walks on the board. */
  lemma {:induction false} SpreadOkWalk(s: nat, cells: seq<seq<Piece>>, from: nat, d: Direction, takes: seq<nat>)
    requires ValidCells(s, cells) && from < s * s && SpreadOk(s, cells, from, d, takes)
    ensures WalkOnBoard(s, from, d, |takes|)
    decreases |takes|
  {
    RankFileOf(s, from);
    if takes != [] {
      var to := GoDirection(s, from, d).value;
      SpreadOkWalk(s, Step(s, cells, from, d, takes[0]), to, d, takes[1..]);
      WalkOnBoardStep(s, from, d, |takes|);
    }
  }

  /** The squares a spread that can run passes over are listed once each. */
  lemma SpreadPathDistinct(s: nat, cells: seq<seq<Piece>>, from: nat, d: Direction, takes: seq<nat>)
    requires ValidCells(s, cells) && from < s * s && SpreadOk(s, cells, from, d, takes)
    ensures forall k, l :: 0 <= k < l <= |takes| ==> Path(s, from, d, |takes|)[k] != Path(s, from, d, |takes|)[l]
  {
    SpreadOkWalk(s, cells, from, d, takes);
    var n := |takes|;
    forall k, l | 0 <= k < l < n + 1
      ensures Path(s, from, d, n)[k] != Path(s, from, d, n)[l]
    {
      PathDistinct(s, from, d, n, k, l);
    }
  }

  /** A spread leaves a square off its path as it was. */
  lemma {:induction false} SpreadFrameAt(s: nat, cells: seq<seq<Piece>>, from: nat, d: Direction, takes: seq<nat>, x: nat)
    requires ValidCells(s, cells) && from < s * s && SpreadOk(s, cells, from, d, takes)
    requires x < s * s && x !in Path(s, from, d, |takes|)
    ensures SpreadCells(s, cells, from, d, takes)[x] == cells[x]
    decreases |takes|
  {
    if takes != [] {
      var to := GoDirection(s, from, d).value;
      var c1 := Step(s, cells, from, d, takes[0]);
      var rest := Path(s, to, d, |takes| - 1);
      PathCons(s, from, d, |takes|);
      assert x !in rest;
      SpreadFrameAt(s, c1, to, d, takes[1..], x);
      StepFrame(s, cells, from, d, takes[0], x);
    }
  }

  /** A spread changes only the squares of its path. */
  lemma SpreadFrame(s: nat, cells: seq<seq<Piece>>, from: nat, d: Direction, takes: seq<nat>)
    requires ValidCells(s, cells) && from < s * s && SpreadOk(s, cells, from, d, takes)
    ensures forall i :: 0 <= i < |cells| && i !in Path(s, from, d, |takes|) ==>
              SpreadCells(s, cells, from, d, takes)[i] == cells[i]
  {
    forall i | 0 <= i < |cells| && i !in Path(s, from, d, |takes|)
      ensures SpreadCells(s, cells, from, d, takes)[i] == cells[i]
    {
      SpreadFrameAt(s, cells, from, d, takes, i);
    }
  }

  /** A spread that takes its first step to a neighbour ends where the rest of it ends. */
  lemma SpreadEndCons(s: nat, from: nat, d: Direction, takes: seq<nat>)
    requires s > 0 && from < s * s && takes != [] && GoDirection(s, from, d).Some?
    ensures SpreadEnd(s, from, d, takes) == SpreadEnd(s, GoDirection(s, from, d).value, d, takes[1..])
  {
    var to := GoDirection(s, from, d).value;
    assert StepOrZero(s, from, d) == to;
    assert Path(s, from, d, |takes|) == [from] + Path(s, to, d, |takes| - 1);
  }

  /** A spread one step longer is the spread followed by one more step from where it ended. */
  lemma {:induction false} SpreadSnoc(s: nat, cells: seq<seq<Piece>>, from: nat, d: Direction, takes: seq<nat>, t: nat)
    requires ValidCells(s, cells) && from < s * s
    ensures SpreadOk(s, cells, from, d, takes + [t]) ==> SpreadOk(s, cells, from, d, takes)
    ensures SpreadOk(s, cells, from, d, takes) ==>
              (SpreadOk(s, cells, from, d, takes + [t]) <==>
               StepOk(s, SpreadCells(s, cells, from, d, takes), SpreadEnd(s, from, d, takes), d, t))
    ensures SpreadOk(s, cells, from, d, takes + [t]) ==>
              SpreadCells(s, cells, from, d, takes + [t]) ==
              Step(s, SpreadCells(s, cells, from, d, takes), SpreadEnd(s, from, d, takes), d, t)
    decreases |takes|
  {
    if takes == [] {
      assert [t][1..] == [];
    } else {
      var more := takes + [t];
      assert more[0] == takes[0];
      assert more[1..] == takes[1..] + [t];
      if StepOk(s, cells, from, d, takes[0]) {
        var to := GoDirection(s, from, d).value;
        var c1 := Step(s, cells, from, d, takes[0]);
        SpreadEndCons(s, from, d, takes);
        SpreadSnoc(s, c1, to, d, takes[1..], t);
        assert SpreadOk(s, cells, from, d, more) == SpreadOk(s, c1, to, d, takes[1..] + [t]);
        assert SpreadOk(s, cells, from, d, takes) == SpreadOk(s, c1, to, d, takes[1..]);
        if SpreadOk(s, cells, from, d, takes) {
          assert SpreadCells(s, cells, from, d, takes) == SpreadCells(s, c1, to, d, takes[1..]);
        }
        if SpreadOk(s, cells, from, d, more) {
          assert SpreadCells(s, cells, from, d, more) == SpreadCells(s, c1, to, d, takes[1..] + [t]);
        }
      }
    }
  }

  // ---------------------------------------------------------------------------
  // Legal spreads, stated on the board before the move

  /**
   * What `do_move` expects of a spread: a walk on the board, at least one step, at least one
   * piece carried on every step and fewer on each step than on the one before, no more than the
   * origin holds; no wall or capstone on the squares passed over, no capstone at the end, and a
   * wall at the end only under a capstone (`debug_assert` in `do_move`); room on every stack.
   */
  predicate SpreadLegal(s: nat, cells: seq<seq<Piece>>, from: nat, d: Direction, takes: seq<nat>)
    requires ValidCells(s, cells) && from < s * s
  {
    var n := |takes|;
    var path := Path(s, from, d, n);
    && n >= 1
    && WalkOnBoard(s, from, d, n)
    && takes[0] <= |cells[from]|
    && (forall i :: 0 < i < n ==> takes[i] < takes[i - 1])
    && takes[n - 1] >= 1
    && (forall i :: 1 <= i <= n ==> |cells[path[i]]| + takes[i - 1] <= MaxHeight)
    && (forall i :: 1 <= i < n ==> !TopIs(cells[path[i]], Wall) && !TopIs(cells[path[i]], Cap))
    && !TopIs(cells[path[n]], Cap)
    && (TopIs(cells[path[n]], Wall) ==> TopIs(cells[from], Cap))
  }

  /** Strictly decreasing counts that end at one or more are all positive. */
  lemma {:induction false} TakesPositive(takes: seq<nat>)
    requires |takes| >= 1 && takes[|takes| - 1] >= 1
    requires forall i :: 0 < i < |takes| ==> takes[i] < takes[i - 1]
    ensures forall i :: 0 <= i < |takes| ==> takes[i] >= |takes| - i
    decreases |takes|
  {
    if |takes| > 1 {
      var tail := takes[1..];
      TakesPositive(tail);
      forall i | 0 <= i < |takes|
        ensures takes[i] >= |takes| - i
      {
        if i == 0 {
          assert takes[1] == tail[0];
        } else {
          assert takes[i] == tail[i - 1];
        }
      }
    }
  }

  /** The top piece carried by a step is the new top of the square it lands on. */
  lemma StepTop(s: nat, cells: seq<seq<Piece>>, from: nat, d: Direction, t: nat)
    requires ValidCells(s, cells) && from < s * s && StepOk(s, cells, from, d, t) && t > 0
    ensures var r := Step(s, cells, from, d, t)[GoDirection(s, from, d).value];
            && |r| > 0 && r[|r| - 1] == cells[from][|cells[from]| - 1]
            && (TopIs(r, Cap) <==> TopIs(cells[from], Cap))
  {
  }

  /**
   * The rest of a legal spread is legal from its second square, on any board that agrees with
   * the old one on the squares still ahead and whose second square has the old origin's top.
   */
  lemma LegalTailOn(s: nat, cells: seq<seq<Piece>>, c1: seq<seq<Piece>>, from: nat, d: Direction, takes: seq<nat>)
    requires ValidCells(s, cells) && from < s * s && SpreadLegal(s, cells, from, d, takes)
    requires |takes| >= 2 && ValidCells(s, c1)
    requires var path := Path(s, from, d, |takes|);
             && |c1[path[1]]| >= takes[0]
             && (TopIs(c1[path[1]], Cap) <==> TopIs(cells[from], Cap))
             && forall i :: 2 <= i <= |takes| ==> c1[path[i]] == cells[path[i]]
    ensures SpreadLegal(s, c1, Path(s, from, d, |takes|)[1], d, takes[1..])
  {
    var n := |takes|;
    var path := Path(s, from, d, n);
    var to := path[1];
    var tail := takes[1..];
    PathAt(s, from, d, n, 0);
    WalkOnBoardStep(s, from, d, n);
    assert StepOrZero(s, from, d) == to;
    var path' := Path(s, to, d, n - 1);
    assert path == [from] + path';
    assert forall i :: 1 <= i <= n - 1 ==> c1[path'[i]] == cells[path[i + 1]];
  }

  /** After the first step of a legal spread, the rest of it is a legal spread from the neighbour. */
  lemma LegalTail(s: nat, cells: seq<seq<Piece>>, from: nat, d: Direction, takes: seq<nat>)
    requires ValidCells(s, cells) && from < s * s && SpreadLegal(s, cells, from, d, takes)
    ensures StepOk(s, cells, from, d, takes[0])
    ensures var to := GoDirection(s, from, d).value;
            var c1 := Step(s, cells, from, d, takes[0]);
            && to == Path(s, from, d, |takes|)[1]
            && (TopIs(c1[to], Cap) <==> TopIs(cells[from], Cap))
            && (|takes| >= 2 ==> SpreadLegal(s, c1, to, d, takes[1..]))
  {
    var n := |takes|;
    var path := Path(s, from, d, n);
    TakesPositive(takes);
    PathAt(s, from, d, n, 0);
    var to := GoDirection(s, from, d).value;
    var c1 := Step(s, cells, from, d, takes[0]);
    StepTop(s, cells, from, d, takes[0]);
    if n >= 2 {
      forall i | 2 <= i <= n
        ensures c1[path[i]] == cells[path[i]]
      {
        PathDistinct(s, from, d, n, 0, i);
        PathDistinct(s, from, d, n, 1, i);
        StepFrame(s, cells, from, d, takes[0], path[i]);
      }
      assert path[1] == to;
      assert |c1[to]| >= takes[0];
      LegalTailOn(s, cells, c1, from, d, takes);
    }
  }

  /** A legal spread can run. */
  lemma {:induction false} LegalSpreadOk(s: nat, cells: seq<seq<Piece>>, from: nat, d: Direction, takes: seq<nat>)
    requires ValidCells(s, cells) && from < s * s && SpreadLegal(s, cells, from, d, takes)
    ensures SpreadOk(s, cells, from, d, takes)
    decreases |takes|
  {
    LegalTail(s, cells, from, d, takes);
    var to := GoDirection(s, from, d).value;
    if |takes| >= 2 {
      LegalSpreadOk(s, Step(s, cells, from, d, takes[0]), to, d, takes[1..]);
    } else {
      assert takes[1..] == [];
    }
  }

  /** A legal spread flattens a wall exactly when it ends on one. */
  lemma {:induction false} LegalSpreadFlattens(s: nat, cells: seq<seq<Piece>>, from: nat, d: Direction, takes: seq<nat>)
    requires ValidCells(s, cells) && from < s * s && SpreadLegal(s, cells, from, d, takes)
    ensures SpreadOk(s, cells, from, d, takes)
    ensures SpreadFlattens(s, cells, from, d, takes) <==> TopIs(cells[SpreadEnd(s, from, d, takes)], Wall)
    decreases |takes|
  {
    LegalSpreadOk(s, cells, from, d, takes);
    LegalTail(s, cells, from, d, takes);
    var n := |takes|;
    var to := GoDirection(s, from, d).value;
    var c1 := Step(s, cells, from, d, takes[0]);
    var path := Path(s, from, d, n);
    assert StepOrZero(s, from, d) == to;
    assert path == [from] + Path(s, to, d, n - 1);
    if n >= 2 {
      LegalSpreadFlattens(s, c1, to, d, takes[1..]);
      PathDistinct(s, from, d, n, 0, n);
      PathDistinct(s, from, d, n, 1, n);
      StepFrame(s, cells, from, d, takes[0], path[n]);
      assert !TopIs(cells[path[1]], Wall);
    } else {
      assert takes[1..] == [];
    }
  }

  /**
   * The last step of undoing a spread: once the rest of the spread is undone, carrying the first
   * step's pieces back to where they came from finishes the job.
   */
  lemma InverseCons(s: nat, cells: seq<seq<Piece>>, from: nat, d: Direction, t: nat, e: nat,
                    after: seq<seq<Piece>>, rr: seq<nat>)
    requires ValidCells(s, cells) && from < s * s && StepOk(s, cells, from, d, t) && t > 0
    requires var to := GoDirection(s, from, d).value;
             && e < s * s && e != from && e != to
             && !TopIs(cells[to], Wall) && !TopIs(cells[to], Cap)
    requires ValidCells(s, after) && SpreadOk(s, after, e, d.Reverse(), rr)
    requires SpreadEnd(s, e, d.Reverse(), rr) == GoDirection(s, from, d).value
    requires var c1 := Step(s, cells, from, d, t);
             SpreadCells(s, after, e, d.Reverse(), rr) == c1[e := FlattenTop(c1[e])]
    ensures SpreadOk(s, after, e, d.Reverse(), rr + [t])
    ensures SpreadCells(s, after, e, d.Reverse(), rr + [t]) == cells[e := FlattenTop(cells[e])]
  {
    var to := GoDirection(s, from, d).value;
    var rd := d.Reverse();
    var c1 := Step(s, cells, from, d, t);
    StepFrame(s, cells, from, d, t, e);
    var v := FlattenTop(cells[e]);
    assert StackShape(v);
    GoDirectionReverse(s, from, d);
    StepInverse(s, cells, from, d, t);
    StepUpdate(s, c1, to, rd, t, e, v);
    FlattenTopFlat(cells[to]);
    assert Step(s, c1, to, rd, t) == cells;
    SpreadSnoc(s, after, e, rd, rr, t);
  }

  /**
   * Undoing a legal spread: spreading back from where it ended, in the reverse direction, with
   * the counts in reverse order, can run, ends on the origin and restores the board, except that
   * the end square's top comes back flattened.
   */
  lemma {:induction false} SpreadInverse(s: nat, cells: seq<seq<Piece>>, from: nat, d: Direction, takes: seq<nat>)
    requires ValidCells(s, cells) && from < s * s && SpreadLegal(s, cells, from, d, takes)
    ensures SpreadOk(s, cells, from, d, takes)
    ensures var after := SpreadCells(s, cells, from, d, takes);
            var e := SpreadEnd(s, from, d, takes);
            && SpreadOk(s, after, e, d.Reverse(), Reversed(takes))
            && SpreadEnd(s, e, d.Reverse(), Reversed(takes)) == from
            && SpreadCells(s, after, e, d.Reverse(), Reversed(takes)) == cells[e := FlattenTop(cells[e])]
    decreases |takes|
  {
    LegalSpreadOk(s, cells, from, d, takes);
    LegalTail(s, cells, from, d, takes);
    var n := |takes|;
    var t := takes[0];
    var to := GoDirection(s, from, d).value;
    var c1 := Step(s, cells, from, d, t);
    var after := SpreadCells(s, cells, from, d, takes);
    var e := SpreadEnd(s, from, d, takes);
    var rd := d.Reverse();
    SpreadEndCons(s, from, d, takes);
    GoDirectionReverse(s, from, d);
    StepInverse(s, cells, from, d, t);
    if n == 1 {
      assert takes[1..] == [];
      assert Reversed(takes) == [t];
      assert [t][1..] == [];
      assert StepOrZero(s, e, rd) == from;
    } else {
      var rest := takes[1..];
      SpreadInverse(s, c1, to, d, rest);
      assert Reversed(takes) == Reversed(rest) + [t];
      assert SpreadEnd(s, e, rd, Reversed(rest)) == to;
      PathDistinct(s, from, d, n, 0, n);
      PathDistinct(s, from, d, n, 1, n);
      var rrest := Reversed(rest);
      assert after == SpreadCells(s, c1, to, d, rest);
      InverseCons(s, cells, from, d, t, e, after, rrest);
      PathSnoc(s, e, rd, |rrest|);
      assert StepOrZero(s, to, rd) == from;
    }
  }
}
