/**
 * The move generator (move_gen.rs): placements on empty squares, the recursive enumeration of
 * the spreads of a stack in one direction (one enumeration for stacks led by a capstone, one for
 * the rest), and the filter that drops spreads handing the opponent a road.
 */
module MoveGen {
  import opened Wrappers
  import opened Pieces
  import opened Squares
  import opened Stacks
  import opened Moves
  import opened Spreads
  import opened Positions
  import opened BitBoards
  import opened Groups
  import opened GameResults
  import opened Seqs

  function Min(a: int, b: int): int
  {
    if a < b then a else b
  }

  /**
   * `max_pieces_to_take`: at the origin all the pieces carried, further on one fewer than the
   * previous step carried (at least one was carried there), never more than the board size.
   */
  function MaxTake(s: nat, atOrigin: bool, carried: nat): (r: nat)
    requires atOrigin || carried >= 1
    ensures r <= s && (if atOrigin then r <= carried else r < carried)
  {
    if atOrigin then Min(carried, s) else Min(carried - 1, s)
  }

  // ---------------------------------------------------------------------------
  // The enumeration, as the source's recursion appends it

  /**
   * The movement lists `generate_moving_moves_cap` (`cap`) or `generate_moving_moves_non_cap`
   * (`!cap`) appends, in order, when called on `sq` with `carried` pieces after the movements
   * `partial` of a spread from `origin` in direction `d`.
   */
  function Movements(s: nat, cells: seq<seq<Piece>>, d: Direction, cap: bool, origin: nat, sq: nat,
                     carried: nat, partial: seq<nat>): seq<seq<nat>>
    requires s > 0 && |cells| == s * s && sq < s * s && (sq == origin || carried >= 1)
    decreases carried, if sq == origin then 1 else 0, 1, 0
  {
    match GoDirection(s, sq, d)
    case None => []
    case Some(nb) =>
      var max := MaxTake(s, sq == origin, carried);
      if cap then
        if TopIs(cells[nb], Cap) then []
        else if TopIs(cells[nb], Wall) && max > 0 then [partial + [1]]
        else MovementsFrom(s, cells, d, cap, origin, sq, carried, partial, nb, 1, max)
      else if TopIs(cells[nb], Wall) || TopIs(cells[nb], Cap) then []
      else MovementsFrom(s, cells, d, cap, origin, sq, carried, partial, nb, 1, max)
  }

  /**
   * The `for pieces_to_take in t..=max` loop: for each count, first everything the recursion
   * from the neighbour appends, then the movement list that stops at the neighbour.
   */
  function MovementsFrom(s: nat, cells: seq<seq<Piece>>, d: Direction, cap: bool, origin: nat, sq: nat,
                         carried: nat, partial: seq<nat>, nb: nat, t: nat, max: nat): seq<seq<nat>>
    requires s > 0 && |cells| == s * s && sq < s * s && (sq == origin || carried >= 1)
    requires GoDirection(s, sq, d) == Some(nb) && max == MaxTake(s, sq == origin, carried) && t >= 1
    decreases carried, if sq == origin then 1 else 0, 0, max + 1 - t
  {
    if t > max then []
    else Movements(s, cells, d, cap, origin, nb, t, partial + [t]) + [partial + [t]]
         + MovementsFrom(s, cells, d, cap, origin, sq, carried, partial, nb, t + 1, max)
  }

  /**
   * The movement lists the recursion from `sq` can build, one step at a time: the neighbour is
   * on the board and not a capstone; a wall is entered only by a capstone, carrying one piece,
   * as the last step, and only when something can be dropped first; every step carries between
   * one and `max_pieces_to_take`.
   */
  predicate Emits(s: nat, cells: seq<seq<Piece>>, d: Direction, cap: bool, origin: nat, sq: nat,
                  carried: nat, rest: seq<nat>)
    requires s > 0 && |cells| == s * s && sq < s * s && (sq == origin || carried >= 1)
    decreases |rest|
  {
    && |rest| >= 1
    && GoDirection(s, sq, d).Some?
    && var nb := GoDirection(s, sq, d).value;
       var max := MaxTake(s, sq == origin, carried);
       && !TopIs(cells[nb], Cap)
       && (TopIs(cells[nb], Wall) ==> cap && max > 0 && rest == [1])
       && 1 <= rest[0] <= max
       && (|rest| == 1 || Emits(s, cells, d, cap, origin, nb, rest[0], rest[1..]))
  }

  /** Every list the enumeration appends extends `partial` by a list of movements it can build. */
  lemma MovementsSound(s: nat, cells: seq<seq<Piece>>, d: Direction, cap: bool, origin: nat, sq: nat,
                       carried: nat, partial: seq<nat>, e: seq<nat>)
    requires s > 0 && |cells| == s * s && sq < s * s && (sq == origin || carried >= 1)
    requires e in Movements(s, cells, d, cap, origin, sq, carried, partial)
    ensures |e| > |partial| && e[..|partial|] == partial
    ensures Emits(s, cells, d, cap, origin, sq, carried, e[|partial|..])
    decreases carried, if sq == origin then 1 else 0, 1, 0
  {
    var nb := GoDirection(s, sq, d).value;
    var max := MaxTake(s, sq == origin, carried);
    if cap && !TopIs(cells[nb], Cap) && TopIs(cells[nb], Wall) && max > 0 {
      assert e == partial + [1];
      assert e[|partial|..] == [1];
    } else {
      FromSound(s, cells, d, cap, origin, sq, carried, partial, nb, 1, max, e);
      var rest := e[|partial|..];
      if |rest| > 1 {
        assert rest[1..] == e[|partial| + 1..];
      }
    }
  }

  lemma FromSound(s: nat, cells: seq<seq<Piece>>, d: Direction, cap: bool, origin: nat, sq: nat,
                  carried: nat, partial: seq<nat>, nb: nat, t: nat, max: nat, e: seq<nat>)
    requires s > 0 && |cells| == s * s && sq < s * s && (sq == origin || carried >= 1)
    requires GoDirection(s, sq, d) == Some(nb) && max == MaxTake(s, sq == origin, carried) && t >= 1
    requires e in MovementsFrom(s, cells, d, cap, origin, sq, carried, partial, nb, t, max)
    ensures |e| > |partial| && e[..|partial|] == partial && t <= e[|partial|] <= max
    ensures |e| == |partial| + 1 || Emits(s, cells, d, cap, origin, nb, e[|partial|], e[|partial| + 1..])
    decreases carried, if sq == origin then 1 else 0, 0, max + 1 - t
  {
    var p := partial + [t];
    var here := Movements(s, cells, d, cap, origin, nb, t, p);
    if e in here {
      MovementsSound(s, cells, d, cap, origin, nb, t, p, e);
      assert e[..|partial|] == e[..|p|][..|partial|];
      assert e[|partial|] == e[..|p|][|partial|];
      assert e[|p|..] == e[|partial| + 1..];
    } else if e != p {
      FromSound(s, cells, d, cap, origin, sq, carried, partial, nb, t + 1, max, e);
    }
  }

  /** Every list of movements the recursion can build is appended, after `partial`. */
  lemma MovementsComplete(s: nat, cells: seq<seq<Piece>>, d: Direction, cap: bool, origin: nat, sq: nat,
                          carried: nat, partial: seq<nat>, rest: seq<nat>)
    requires s > 0 && |cells| == s * s && sq < s * s && (sq == origin || carried >= 1)
    requires Emits(s, cells, d, cap, origin, sq, carried, rest)
    ensures partial + rest in Movements(s, cells, d, cap, origin, sq, carried, partial)
    decreases carried, if sq == origin then 1 else 0, 1, 0
  {
    var nb := GoDirection(s, sq, d).value;
    var max := MaxTake(s, sq == origin, carried);
    if !TopIs(cells[nb], Wall) {
      FromComplete(s, cells, d, cap, origin, sq, carried, partial, nb, 1, max, rest);
    }
  }

  lemma FromComplete(s: nat, cells: seq<seq<Piece>>, d: Direction, cap: bool, origin: nat, sq: nat,
                     carried: nat, partial: seq<nat>, nb: nat, t: nat, max: nat, rest: seq<nat>)
    requires s > 0 && |cells| == s * s && sq < s * s && (sq == origin || carried >= 1)
    requires GoDirection(s, sq, d) == Some(nb) && max == MaxTake(s, sq == origin, carried) && t >= 1
    requires |rest| >= 1 && t <= rest[0] <= max
    requires |rest| == 1 || Emits(s, cells, d, cap, origin, nb, rest[0], rest[1..])
    ensures partial + rest in MovementsFrom(s, cells, d, cap, origin, sq, carried, partial, nb, t, max)
    decreases carried, if sq == origin then 1 else 0, 0, max + 1 - t
  {
    if rest[0] == t {
      var p := partial + [t];
      if |rest| == 1 {
        assert partial + rest == p;
      } else {
        MovementsComplete(s, cells, d, cap, origin, nb, t, p, rest[1..]);
        assert p + rest[1..] == partial + rest;
      }
    } else {
      FromComplete(s, cells, d, cap, origin, sq, carried, partial, nb, t + 1, max, rest);
    }
  }

  /** No list appears twice. */
  predicate NoDup(xs: seq<seq<nat>>)
  {
    forall i, j :: 0 <= i < j < |xs| ==> xs[i] != xs[j]
  }

  lemma NoDupAppend(a: seq<seq<nat>>, b: seq<seq<nat>>)
    requires NoDup(a) && NoDup(b) && forall x :: x in a ==> x !in b
    ensures NoDup(a + b)
  {
    forall i, j | 0 <= i < j < |a + b|
      ensures (a + b)[i] != (a + b)[j]
    {
      if i < |a| && j >= |a| {
        assert (a + b)[i] in a && (a + b)[j] in b;
      }
    }
  }

  /** Each recursion path is appended once: the enumeration has no duplicates. */
  lemma MovementsNoDup(s: nat, cells: seq<seq<Piece>>, d: Direction, cap: bool, origin: nat, sq: nat,
                       carried: nat, partial: seq<nat>)
    requires s > 0 && |cells| == s * s && sq < s * s && (sq == origin || carried >= 1)
    ensures NoDup(Movements(s, cells, d, cap, origin, sq, carried, partial))
    decreases carried, if sq == origin then 1 else 0, 1, 0
  {
    var next := GoDirection(s, sq, d);
    if next.Some? {
      var max := MaxTake(s, sq == origin, carried);
      FromNoDup(s, cells, d, cap, origin, sq, carried, partial, next.value, 1, max);
    }
  }

  lemma FromNoDup(s: nat, cells: seq<seq<Piece>>, d: Direction, cap: bool, origin: nat, sq: nat,
                  carried: nat, partial: seq<nat>, nb: nat, t: nat, max: nat)
    requires s > 0 && |cells| == s * s && sq < s * s && (sq == origin || carried >= 1)
    requires GoDirection(s, sq, d) == Some(nb) && max == MaxTake(s, sq == origin, carried) && t >= 1
    ensures NoDup(MovementsFrom(s, cells, d, cap, origin, sq, carried, partial, nb, t, max))
    decreases carried, if sq == origin then 1 else 0, 0, max + 1 - t
  {
    if t <= max {
      var p := partial + [t];
      var a := Movements(s, cells, d, cap, origin, nb, t, p);
      var c := MovementsFrom(s, cells, d, cap, origin, sq, carried, partial, nb, t + 1, max);
      MovementsNoDup(s, cells, d, cap, origin, nb, t, p);
      FromNoDup(s, cells, d, cap, origin, sq, carried, partial, nb, t + 1, max);
      forall e | e in a
        ensures |e| > |p| && e[|partial|] == t
      {
        MovementsSound(s, cells, d, cap, origin, nb, t, p, e);
        assert e[|partial|] == e[..|p|][|partial|];
      }
      forall e | e in c
        ensures |e| > |partial| && e[|partial|] > t
      {
        FromSound(s, cells, d, cap, origin, sq, carried, partial, nb, t + 1, max, e);
      }
      NoDupAppend(a, [p]);
      NoDupAppend(a + [p], c);
    }
  }

  // ---------------------------------------------------------------------------
  // What the enumerated spreads are

  /** The walk of an accepted movement list stays on the board. */
  lemma {:induction false} EmitsWalk(s: nat, cells: seq<seq<Piece>>, d: Direction, cap: bool, origin: nat,
                                      sq: nat, carried: nat, rest: seq<nat>)
    requires s > 0 && |cells| == s * s && sq < s * s && (sq == origin || carried >= 1)
    requires Emits(s, cells, d, cap, origin, sq, carried, rest)
    ensures WalkOnBoard(s, sq, d, |rest|)
    decreases |rest|
  {
    var nb := GoDirection(s, sq, d).value;
    WalkOnBoardStep(s, sq, d, |rest|);
    if |rest| == 1 {
      RankFileOf(s, nb);
    } else {
      EmitsWalk(s, cells, d, cap, origin, nb, rest[0], rest[1..]);
    }
  }

  lemma {:induction false} EmitsCounts(s: nat, cells: seq<seq<Piece>>, d: Direction, cap: bool, origin: nat,
                                        sq: nat, carried: nat, rest: seq<nat>)
    requires s > 0 && |cells| == s * s && sq < s * s && (sq == origin || carried >= 1)
    requires Emits(s, cells, d, cap, origin, sq, carried, rest)
    ensures CountsAlong(s, origin, Path(s, sq, d, |rest|), rest)
    decreases |rest|
  {
    var n := |rest|;
    var nb := GoDirection(s, sq, d).value;
    PathCons(s, sq, d, n);
    if n > 1 {
      var tail := rest[1..];
      EmitsCounts(s, cells, d, cap, origin, nb, rest[0], tail);
      assert rest == [rest[0]] + tail;
      CountsCons(s, origin, sq, Path(s, nb, d, n - 1), rest[0], tail);
    }
  }

  lemma {:induction false} EmitsUnblocked(s: nat, cells: seq<seq<Piece>>, d: Direction, cap: bool, origin: nat,
                                           sq: nat, carried: nat, rest: seq<nat>)
    requires s > 0 && |cells| == s * s && sq < s * s && (sq == origin || carried >= 1)
    requires Emits(s, cells, d, cap, origin, sq, carried, rest)
    ensures Unblocked(cells, Path(s, sq, d, |rest|), |rest|)
    decreases |rest|
  {
    var n := |rest|;
    var nb := GoDirection(s, sq, d).value;
    PathCons(s, sq, d, n);
    if n > 1 {
      EmitsUnblocked(s, cells, d, cap, origin, nb, rest[0], rest[1..]);
      UnblockedCons(cells, sq, Path(s, nb, d, n - 1), n - 1);
    }
  }

  lemma {:induction false} EmitsEnd(s: nat, cells: seq<seq<Piece>>, d: Direction, cap: bool, origin: nat,
                                     sq: nat, carried: nat, rest: seq<nat>)
    requires s > 0 && |cells| == s * s && sq < s * s && (sq == origin || carried >= 1)
    requires Emits(s, cells, d, cap, origin, sq, carried, rest)
    ensures var path := Path(s, sq, d, |rest|);
            !TopIs(cells[path[|rest|]], Cap) && (TopIs(cells[path[|rest|]], Wall) ==> cap)
    decreases |rest|
  {
    var n := |rest|;
    var nb := GoDirection(s, sq, d).value;
    PathCons(s, sq, d, n);
    if n > 1 {
      EmitsEnd(s, cells, d, cap, origin, nb, rest[0], rest[1..]);
    }
  }

  /**
   * A movement list the enumeration accepts walks on the board, keeps every count within its
   * bound, crosses neither walls nor capstones, and ends on a wall only under a capstone.
   */
  lemma EmitsAlongPath(s: nat, cells: seq<seq<Piece>>, d: Direction, cap: bool, origin: nat,
                       sq: nat, carried: nat, rest: seq<nat>)
    requires s > 0 && |cells| == s * s && sq < s * s && (sq == origin || carried >= 1)
    requires Emits(s, cells, d, cap, origin, sq, carried, rest)
    ensures var n := |rest|;
            var path := Path(s, sq, d, n);
            && WalkOnBoard(s, sq, d, n)
            && 1 <= rest[0] <= MaxTake(s, sq == origin, carried)
            && CountsAlong(s, origin, path, rest)
            && Unblocked(cells, path, n)
            && !TopIs(cells[path[n]], Cap)
            && (TopIs(cells[path[n]], Wall) ==> cap)
  {
    EmitsWalk(s, cells, d, cap, origin, sq, carried, rest);
    EmitsCounts(s, cells, d, cap, origin, sq, carried, rest);
    EmitsUnblocked(s, cells, d, cap, origin, sq, carried, rest);
    EmitsEnd(s, cells, d, cap, origin, sq, carried, rest);
  }

  /** Each count after the first is within the bound its square and the previous count allow. */
  predicate CountsAlong(s: nat, origin: nat, path: seq<nat>, rest: seq<nat>)
    requires |path| > |rest|
  {
    && (forall i :: 0 <= i < |rest| ==> rest[i] >= 1)
    && forall i :: 0 < i < |rest| ==> rest[i] <= MaxTake(s, path[i] == origin, rest[i - 1])
  }

  lemma CountsCons(s: nat, origin: nat, sq: nat, rpath: seq<nat>, first: nat, tail: seq<nat>)
    requires |rpath| > |tail| >= 1 && first >= 1
    requires CountsAlong(s, origin, rpath, tail) && tail[0] <= MaxTake(s, rpath[0] == origin, first)
    ensures CountsAlong(s, origin, [sq] + rpath, [first] + tail)
  {
    var path := [sq] + rpath;
    var rest := [first] + tail;
    forall i | 0 < i < |rest|
      ensures rest[i] <= MaxTake(s, path[i] == origin, rest[i - 1])
    {
      assert rest[i] == tail[i - 1] && path[i] == rpath[i - 1];
      if i > 1 {
        assert rest[i - 1] == tail[i - 2];
      }
    }
  }

  /** No square strictly inside the walk is topped by a wall or a capstone. */
  predicate Unblocked(cells: seq<seq<Piece>>, path: seq<nat>, n: nat)
    requires n <= |path| && forall i :: 0 <= i < |path| ==> path[i] < |cells|
  {
    forall i :: 1 <= i < n ==> !TopIs(cells[path[i]], Wall) && !TopIs(cells[path[i]], Cap)
  }

  lemma UnblockedCons(cells: seq<seq<Piece>>, sq: nat, rpath: seq<nat>, n: nat)
    requires 1 <= n <= |rpath| && sq < |cells| && forall i :: 0 <= i < |rpath| ==> rpath[i] < |cells|
    requires Unblocked(cells, rpath, n)
    requires !TopIs(cells[rpath[0]], Wall) && !TopIs(cells[rpath[0]], Cap)
    ensures Unblocked(cells, [sq] + rpath, n + 1)
  {
    var path := [sq] + rpath;
    forall i | 1 <= i < n + 1
      ensures !TopIs(cells[path[i]], Wall) && !TopIs(cells[path[i]], Cap)
    {
      assert path[i] == rpath[i - 1];
    }
  }

  /**
   * No spread can pile more on a stack than a `Stack` holds: the height of any square plus the
   * most a spread carries off any other square (the board size, or that square's height when
   * lower) is at most `MaxHeight`.
   */
  predicate Roomy(s: nat, cells: seq<seq<Piece>>)
  {
    forall i, j :: 0 <= i < |cells| && 0 <= j < |cells| && i != j ==>
      |cells[j]| + (if |cells[i]| < s then |cells[i]| else s) <= MaxHeight
  }

  /** A board whose every stack has room for a full carry is roomy. */
  lemma RoomyWhenLow(s: nat, cells: seq<seq<Piece>>)
    requires forall j :: 0 <= j < |cells| ==> |cells[j]| + s <= MaxHeight
    ensures Roomy(s, cells)
  {
  }

  /**
   * The counts of every movement list the enumeration builds from a stack: at least one each,
   * strictly decreasing, the first at most the height and at most the board size; the walk stays
   * on the board, so there are at most `S - 1` of them, the capacity of the source's list.
   */
  lemma EmitsTakes(s: nat, cells: seq<seq<Piece>>, d: Direction, cap: bool, origin: nat, takes: seq<nat>)
    requires s > 0 && |cells| == s * s && origin < s * s
    requires Emits(s, cells, d, cap, origin, origin, |cells[origin]|, takes)
    ensures |takes| >= 1 && takes[0] <= |cells[origin]| && takes[0] <= s
    ensures forall i :: 0 <= i < |takes| ==> takes[i] >= 1
    ensures forall i :: 0 < i < |takes| ==> takes[i] < takes[i - 1]
    ensures TakesFit(cells[origin], takes)
    ensures WalkOnBoard(s, origin, d, |takes|) && |takes| <= s - 1
  {
    var n := |takes|;
    var path := Path(s, origin, d, n);
    EmitsAlongPath(s, cells, d, cap, origin, origin, |cells[origin]|, takes);
    forall i | 0 < i <= n
      ensures path[i] != origin
    {
      PathDistinct(s, origin, d, n, 0, i);
    }
    TakesAtMost(takes, |cells[origin]|);
    RankFileOf(s, origin);
  }

  /**
   * Every movement list the enumeration builds from a stack is a legal spread of that stack:
   * besides the counts above, it never steps onto a capstone, crosses no wall, and ends on a wall
   * only under a capstone.
   */
  lemma EmitsLegal(s: nat, cells: seq<seq<Piece>>, d: Direction, cap: bool, origin: nat, takes: seq<nat>)
    requires ValidCells(s, cells) && origin < s * s && Roomy(s, cells)
    requires cap <==> TopIs(cells[origin], Cap)
    requires Emits(s, cells, d, cap, origin, origin, |cells[origin]|, takes)
    ensures SpreadLegal(s, cells, origin, d, takes)
  {
    var n := |takes|;
    var path := Path(s, origin, d, n);
    EmitsTakes(s, cells, d, cap, origin, takes);
    EmitsAlongPath(s, cells, d, cap, origin, origin, |cells[origin]|, takes);
    TakesAtMost(takes, takes[0]);
    forall i | 1 <= i <= n
      ensures |cells[path[i]]| + takes[i - 1] <= MaxHeight
    {
      PathDistinct(s, origin, d, n, 0, i);
      assert takes[i - 1] <= takes[0];
    }
  }

  /** Strictly decreasing counts starting at most `h` stay at most `h`. */
  lemma {:induction false} TakesAtMost(takes: seq<nat>, h: nat)
    requires |takes| >= 1 && takes[0] <= h
    requires forall i :: 0 < i < |takes| ==> takes[i] < takes[i - 1]
    ensures forall i :: 0 <= i < |takes| ==> takes[i] <= h
    decreases |takes|
  {
    if |takes| > 1 {
      TakesAtMost(takes[..|takes| - 1], h);
      assert takes[|takes| - 1] < takes[|takes| - 2];
    }
  }

  // ---------------------------------------------------------------------------
  // The pieces a spread leaves on top

  /** Every count is at most the height of the stack. */
  predicate TakesFit(ps: seq<Piece>, takes: seq<nat>)
  {
    forall i :: 0 <= i < |takes| ==> takes[i] <= |ps|
  }

  /**
   * `top_stones_left_behind_by_move` for a spread of the stack `ps`: for each movement, the
   * piece left on top of the square it leaves (what remains of the original stack once that
   * many pieces are lifted off), then the original top, which ends on the last square.
   */
  function LeftBehind(ps: seq<Piece>, takes: seq<nat>): (r: seq<Option<Piece>>)
    requires TakesFit(ps, takes)
    ensures |r| == |takes| + 1 && r[|takes|] == TopOf(ps)
    ensures forall i :: 0 <= i < |takes| ==> r[i] == TopOf(ps[..|ps| - takes[i]])
  {
    seq(|takes|, i requires 0 <= i < |takes| =>
      var k := |ps| - takes[i];
      if k == 0 then None else Some(ps[k - 1]))
    + [TopOf(ps)]
  }

  /**
   * After the first step, the rest of the spread leaves behind the same pieces: the carried
   * pieces sit on top of the neighbour in their original order.
   */
  lemma LeftBehindTail(ps: seq<Piece>, below: seq<Piece>, q: seq<Piece>, takes: seq<nat>, j: nat)
    requires |takes| >= 2 && takes[0] <= |ps| && TakesFit(ps, takes) && j < |takes|
    requires forall i :: 0 < i < |takes| ==> 1 <= takes[i] < takes[i - 1]
    requires q == below + ps[|ps| - takes[0]..]
    ensures TakesFit(q, takes[1..]) && LeftBehind(q, takes[1..])[j] == LeftBehind(ps, takes)[j + 1]
  {
    var h := |ps|;
    var tail := takes[1..];
    forall k | 0 <= k < |tail|
      ensures tail[k] < takes[0]
    {
      TakesAtMost(takes[1..k + 2], takes[1]);
      assert tail[k] == takes[1..k + 2][k];
    }
    assert TakesFit(q, tail);
    if j < |tail| {
      var m := |q| - tail[j];
      assert tail[j] == takes[j + 1];
      assert q[..m][m - 1] == ps[h - tail[j] - 1];
      assert ps[..h - takes[j + 1]][h - tail[j] - 1] == ps[h - tail[j] - 1];
    }
  }

  /** The origin of a spread along the board keeps what its first movement does not lift. */
  lemma SpreadOrigin(s: nat, cells: seq<seq<Piece>>, from: nat, d: Direction, takes: seq<nat>)
    requires ValidCells(s, cells) && from < s * s && |takes| >= 1
    requires WalkOnBoard(s, from, d, |takes|) && SpreadOk(s, cells, from, d, takes)
    ensures SpreadCells(s, cells, from, d, takes)[from] == cells[from][..|cells[from]| - takes[0]]
  {
    var n := |takes|;
    var to := GoDirection(s, from, d).value;
    var c1 := Step(s, cells, from, d, takes[0]);
    var tail := takes[1..];
    SpreadCons(s, cells, from, d, takes);
    StepOrigin(s, cells, from, d, takes[0]);
    if n == 1 {
      assert SpreadCells(s, c1, to, d, tail) == c1;
    } else {
      OriginNotAhead(s, from, d, takes);
      SpreadFrameAt(s, c1, to, d, tail, from);
    }
  }

  /** A step leaves the pieces it does not lift on the square it leaves. */
  lemma StepOrigin(s: nat, cells: seq<seq<Piece>>, from: nat, d: Direction, t: nat)
    requires ValidCells(s, cells) && from < s * s && StepOk(s, cells, from, d, t)
    ensures Step(s, cells, from, d, t)[from] == cells[from][..|cells[from]| - t]
  {
  }

  /** A walk along the board never comes back to its start. */
  lemma OriginNotAhead(s: nat, from: nat, d: Direction, takes: seq<nat>)
    requires s > 0 && from < s * s && |takes| >= 1 && WalkOnBoard(s, from, d, |takes|)
    ensures GoDirection(s, from, d).Some? && from !in Path(s, GoDirection(s, from, d).value, d, |takes[1..]|)
  {
    var n := |takes|;
    assert |takes[1..]| == n - 1;
    WalkOnBoardStep(s, from, d, n);
    PathCons(s, from, d, n);
    var rest := Path(s, GoDirection(s, from, d).value, d, n - 1);
    forall k | 0 <= k < |rest|
      ensures rest[k] != from
    {
      PathDistinct(s, from, d, n, 0, k + 1);
    }
  }

  /**
   * What `top_stones_left_behind_by_move` computes is what a legal spread leaves on top of each
   * square of its path, the origin first.
   */
  lemma {:induction false} SpreadTops(s: nat, cells: seq<seq<Piece>>, from: nat, d: Direction, takes: seq<nat>, i: nat)
    requires ValidCells(s, cells) && from < s * s && SpreadLegal(s, cells, from, d, takes) && i <= |takes|
    ensures && SpreadOk(s, cells, from, d, takes) && TakesFit(cells[from], takes)
            && TopOf(SpreadCells(s, cells, from, d, takes)[Path(s, from, d, |takes|)[i]])
               == LeftBehind(cells[from], takes)[i]
    decreases |takes|, 1
  {
    TakesAtMost(takes, |cells[from]|);
    if i == 0 {
      LegalSpreadOk(s, cells, from, d, takes);
      SpreadOrigin(s, cells, from, d, takes);
    } else {
      SpreadTopsAhead(s, cells, from, d, takes, i);
    }
  }

  /** The squares after the origin: the first step, then the rest of the spread from the neighbour. */
  lemma {:induction false} SpreadTopsAhead(s: nat, cells: seq<seq<Piece>>, from: nat, d: Direction, takes: seq<nat>, i: nat)
    requires ValidCells(s, cells) && from < s * s && SpreadLegal(s, cells, from, d, takes) && 1 <= i <= |takes|
    requires TakesFit(cells[from], takes)
    ensures && SpreadOk(s, cells, from, d, takes)
            && TopOf(SpreadCells(s, cells, from, d, takes)[Path(s, from, d, |takes|)[i]])
               == LeftBehind(cells[from], takes)[i]
    decreases |takes|, 0
  {
    var n := |takes|;
    TakesPositive(takes);
    LegalSpreadOk(s, cells, from, d, takes);
    LegalTail(s, cells, from, d, takes);
    var to := GoDirection(s, from, d).value;
    var c1 := Step(s, cells, from, d, takes[0]);
    var tail := takes[1..];
    SpreadCons(s, cells, from, d, takes);
    PathCons(s, from, d, n);
    if n == 1 {
      assert SpreadCells(s, c1, to, d, tail) == c1;
      StepTop(s, cells, from, d, takes[0]);
    } else {
      var h := |cells[from]|;
      assert c1[to] == FlattenTop(cells[to]) + cells[from][h - takes[0]..];
      LeftBehindTail(cells[from], FlattenTop(cells[to]), c1[to], takes, i - 1);
      SpreadTops(s, c1, to, d, tail, i - 1);
      assert Path(s, from, d, n)[i] == Path(s, to, d, n - 1)[i - 1];
    }
  }

  // ---------------------------------------------------------------------------
  // Roads on one road bitboard (the free `connected_components_graph` and `is_win_by_road`)

  /** A walk through `road` from one edge of the board to the opposite one. */
  ghost predicate RoadOn(s: nat, road: set<nat>)
    requires s > 0
  {
    exists path :: IsRoad(s, road, path)
  }

  /** A label reaching an edge has a square. */
  lemma SpansHasSquare(s: nat, comps: seq<nat>, id: nat)
    requires s > 0 && |comps| == s * s && Spans(s, comps, id)
    ensures FirstWith(comps, id, 0).Some?
  {
    if OnFile(s, comps, id, 0) {
      var r :| 0 <= r < s && comps[FromRankFile(s, r, 0)] == id;
      assert comps[FromRankFile(s, r, 0)] == id;
    } else {
      var f :| 0 <= f < s && comps[FromRankFile(s, 0, f)] == id;
      assert comps[FromRankFile(s, 0, f)] == id;
    }
  }

  /**
   * `is_win_by_road` on a labelling alone, as move_gen.rs calls it: the first square of the first
   * label in `id .. highest - 1` that reaches two opposite edges.
   */
  function FirstSpanning(s: nat, comps: seq<nat>, id: nat, highest: nat): (r: Option<nat>)
    requires s > 0 && |comps| == s * s
    ensures r.Some? ==> r.value < s * s && id <= comps[r.value] < highest && Spans(s, comps, comps[r.value])
    ensures r.None? <==> forall k :: id <= k < highest ==> !Spans(s, comps, k)
    decreases highest - id
  {
    if id >= highest then None
    else if Spans(s, comps, id) then
      SpansHasSquare(s, comps, id);
      FirstWith(comps, id, 0)
    else FirstSpanning(s, comps, id + 1, highest)
  }

  /** Every square of `road` is on the board. */
  predicate OnBoard(s: nat, road: set<nat>)
  {
    forall x :: x in road ==> x < s * s
  }

  /**
   * The free `connected_components_graph` of move_gen.rs: labels the groups of `road` from 1 on
   * a fresh board of zeros and returns the labels with the first unused one.
   */
  method RoadComponents(s: nat, road: BitBoard) returns (comps: seq<nat>, next: nat)
    requires s >= 2 && OnBoard(s, road)
    ensures |comps| == s * s && PassLabels(s, comps, road, 1, next) && LabelsConnected(s, comps, 1)
    ensures forall x :: x in road ==> comps[x] != 0
  {
    var a := new nat[s * s](_ => 0);
    assert PassLabels(s, a[..], road, 1, 1);
    next := ConnectedComponentsGraph(s, road, a, 1);
    comps := a[..];
  }

  /** Along a walk through the road squares the label never changes. */
  lemma {:induction false} PassWalkSameLabel(s: nat, comps: seq<nat>, road: set<nat>, next: nat, path: seq<nat>)
    requires s > 0 && |comps| == s * s && PassLabels(s, comps, road, 1, next)
    requires forall x :: x in road ==> x < s * s && comps[x] != 0
    requires Walk(s, road, path)
    ensures forall i :: 0 <= i < |path| ==> comps[path[i]] == comps[path[0]]
  {
    if |path| > 1 {
      var n := |path| - 1;
      assert Walk(s, road, path[..n]);
      PassWalkSameLabel(s, comps, road, next, path[..n]);
      assert path[..n][n - 1] == path[n - 1];
      assert Adjacent(s, path[n - 1], path[n]);
    }
  }

  /**
   * On a fresh labelling, `is_win_by_road` finds a square exactly when the road bitboard holds a
   * road.
   */
  lemma SpanningIffRoad(s: nat, road: set<nat>, comps: seq<nat>, next: nat)
    requires s > 0 && |comps| == s * s && PassLabels(s, comps, road, 1, next) && LabelsConnected(s, comps, 1)
    requires forall x :: x in road ==> x < s * s && comps[x] != 0
    ensures FirstSpanning(s, comps, 1, next).Some? <==> RoadOn(s, road)
  {
    var r := FirstSpanning(s, comps, 1, next);
    if r.Some? {
      SpanningGivesRoad(s, road, comps, next, comps[r.value]);
    }
    if RoadOn(s, road) {
      var path :| IsRoad(s, road, path);
      RoadGivesSpanning(s, road, comps, next, path);
    }
  }

  /** A label that reaches two opposite edges joins them by a road through its squares. */
  lemma SpanningGivesRoad(s: nat, road: set<nat>, comps: seq<nat>, next: nat, k: nat)
    requires s > 0 && |comps| == s * s && PassLabels(s, comps, road, 1, next) && LabelsConnected(s, comps, 1)
    requires 1 <= k && Spans(s, comps, k)
    ensures RoadOn(s, road)
  {
    forall y | y in LabelSet(comps, k) ensures y in road {
    }
    LinesAreEdges(s, comps, k);
    var byFiles := OnFile(s, comps, k, 0) && OnFile(s, comps, k, s - 1);
    var e1, e2 := if byFiles then WestEdge else SouthEdge, if byFiles then EastEdge else NorthEdge;
    var a :| 0 <= a < s * s && comps[a] == k && OnEdge(s, a, e1);
    var b :| 0 <= b < s * s && comps[b] == k && OnEdge(s, b, e2);
    assert Linked(s, LabelSet(comps, comps[a]), a, b);
    LinkedMono(s, LabelSet(comps, k), road, a, b);
    var path :| Walk(s, road, path) && path[0] == a && path[|path| - 1] == b;
    assert IsRoad(s, road, path);
  }

  /** A road lies inside one label, and that label reaches two opposite edges. */
  lemma RoadGivesSpanning(s: nat, road: set<nat>, comps: seq<nat>, next: nat, path: seq<nat>)
    requires s > 0 && |comps| == s * s && PassLabels(s, comps, road, 1, next)
    requires forall x :: x in road ==> x < s * s && comps[x] != 0
    requires IsRoad(s, road, path)
    ensures FirstSpanning(s, comps, 1, next).Some?
  {
    PassWalkSameLabel(s, comps, road, next, path);
    var a, b := path[0], path[|path| - 1];
    var k := comps[a];
    assert comps[b] == k;
    LinesAreEdges(s, comps, k);
    if Rank(s, a) == 0 && Rank(s, b) == s - 1 {
      assert LabelOn(s, comps, k, SouthEdge) && LabelOn(s, comps, k, NorthEdge);
    } else {
      assert LabelOn(s, comps, k, WestEdge) && LabelOn(s, comps, k, EastEdge);
    }
    assert Spans(s, comps, k);
  }

  // ---------------------------------------------------------------------------
  // `move_is_suicide`

  /** `sq.go_direction(d).unwrap_or(sq)` */
  function Advance(s: nat, sq: nat, d: Direction): (r: nat)
    requires s > 0 && sq < s * s
    ensures r < s * s && (GoDirection(s, sq, d).Some? ==> r == GoDirection(s, sq, d).value)
  {
    match GoDirection(s, sq, d)
    case Some(next) => next
    case None => sq
  }

  /** The `n` squares the loop of `move_is_suicide` stands on, starting at `sq`. */
  function Visits(s: nat, sq: nat, d: Direction, n: nat): (r: seq<nat>)
    requires s > 0 && sq < s * s
    ensures |r| == n && forall k :: 0 <= k < n ==> r[k] < s * s
    decreases n
  {
    if n == 0 then [] else [sq] + Visits(s, Advance(s, sq, d), d, n - 1)
  }

  /** `Us::is_road_stone`: a flat or capstone of colour `c`. */
  predicate IsRoadStone(p: Option<Piece>, c: Color)
  {
    p.Some? && p.value.IsRoadPiece() && p.value.Color() == c
  }

  /** `Us::road_stones` of the board before the move, as a 64-bit board. */
  function RoadStones(tops: seq<Option<Piece>>, c: Color): (r: BitBoard)
    ensures forall x: nat :: x in r <==> x < |tops| && x < 64 && IsRoadStone(tops[x], c)
  {
    set x: nat | x < |tops| && x < 64 && IsRoadStone(tops[x], c)
  }

  /** The largest board has 64 squares. */
  lemma BoardFits(s: nat)
    requires ValidSize(s)
    ensures s * s <= 64
  {
    assert s * s <= 8 * s <= 64;
  }

  /**
   * The road bitboard of colour `c` once the squares `sqs` are cleared in turn, each set again
   * when the piece left on it is a road stone of `c`.
   */
  function Relaid(road: set<nat>, c: Color, lb: seq<Option<Piece>>, sqs: seq<nat>): set<nat>
    requires |lb| == |sqs|
    decreases |lb|
  {
    if lb == [] then road
    else
      var n := |lb| - 1;
      var before := Relaid(road, c, lb[..n], sqs[..n]);
      if IsRoadStone(lb[n], c) then before + {sqs[n]} else before - {sqs[n]}
  }

  /** The simulation only touches squares of the board. */
  lemma {:induction false} RelaidOnBoard(s: nat, road: set<nat>, c: Color, lb: seq<Option<Piece>>, sqs: seq<nat>)
    requires |lb| == |sqs| && OnBoard(s, road) && forall k :: 0 <= k < |sqs| ==> sqs[k] < s * s
    ensures OnBoard(s, Relaid(road, c, lb, sqs))
    decreases |lb|
  {
    if lb != [] {
      var n := |lb| - 1;
      RelaidOnBoard(s, road, c, lb[..n], sqs[..n]);
    }
  }

  /** Some piece left on top belongs to the opponent of `us`. */
  predicate LeavesTheirs(lb: seq<Option<Piece>>, us: Color)
  {
    exists i :: 0 <= i < |lb| && lb[i].Some? && lb[i].value.Color() != us
  }

  /**
   * What `move_is_suicide` decides: a spread that leaves an opponent's piece on top, after which
   * the mover has no road and the opponent has one, both judged on the road bitboards the
   * simulation produces.
   */
  ghost predicate IsSuicide(s: nat, cells: seq<seq<Piece>>, us: Color, m: Move)
    requires ValidCells(s, cells) && (m.Spread? ==> m.square < s * s && TakesFit(cells[m.square], m.takes))
  {
    match m
    case Place(_, _) => false
    case Spread(sq, d, takes) =>
      var lb := LeftBehind(cells[sq], takes);
      var sqs := Visits(s, sq, d, |lb|);
      var tops := Tops(cells);
      && LeavesTheirs(lb, us)
      && !RoadOn(s, Relaid(RoadStones(tops, us), us, lb, sqs))
      && RoadOn(s, Relaid(RoadStones(tops, us.Opposite()), us.Opposite(), lb, sqs))
  }

  /** One more square of the simulation. */
  lemma RelaidStep(road: set<nat>, c: Color, lb: seq<Option<Piece>>, sqs: seq<nat>, i: nat)
    requires |lb| == |sqs| && i < |lb|
    ensures Relaid(road, c, lb[..i + 1], sqs[..i + 1])
            == if IsRoadStone(lb[i], c) then Relaid(road, c, lb[..i], sqs[..i]) + {sqs[i]}
               else Relaid(road, c, lb[..i], sqs[..i]) - {sqs[i]}
  {
    assert lb[..i + 1][..i] == lb[..i];
    assert sqs[..i + 1][..i] == sqs[..i];
  }

  /**
   * The loop of `move_is_suicide`: walking from the origin, each square is cleared from both
   * road bitboards and set again in the one whose road stone is left on it.
   */
  method SimulateRoads(s: nat, tops: seq<Option<Piece>>, us: Color, origin: nat, d: Direction,
                       lb: seq<Option<Piece>>)
    returns (ours: BitBoard, theirs: BitBoard)
    requires s > 0 && |tops| == s * s <= 64 && origin < s * s
    ensures ours == Relaid(RoadStones(tops, us), us, lb, Visits(s, origin, d, |lb|))
    ensures theirs == Relaid(RoadStones(tops, us.Opposite()), us.Opposite(), lb, Visits(s, origin, d, |lb|))
    ensures OnBoard(s, ours) && OnBoard(s, theirs)
  {
    ghost var sqs := Visits(s, origin, d, |lb|);
    ours := RoadStones(tops, us);
    theirs := RoadStones(tops, us.Opposite());
    var sq: nat := origin;
    var i := 0;
    while i < |lb|
      invariant i <= |lb| && sq < s * s
      invariant Simulating(s, tops, us, d, lb, sqs, i, sq, ours, theirs)
    {
      ghost var (ours0, theirs0) := (ours, theirs);
      ours := Clear(ours, sq);
      theirs := Clear(theirs, sq);
      if lb[i].Some? {
        var piece := lb[i].value;
        if piece.IsRoadPiece() && piece.Color() == us {
          ours := Set(ours, sq);
        }
        if piece.IsRoadPiece() && piece.Color() == us.Opposite() {
          theirs := Set(theirs, sq);
        }
      }
      SimulateStep(s, tops, us, d, lb, sqs, i, sq, ours0, theirs0, ours, theirs);
      sq := Advance(s, sq, d);
      i := i + 1;
    }
    assert lb[..i] == lb && sqs[..i] == sqs;
    RelaidOnBoard(s, RoadStones(tops, us), us, lb, sqs);
    RelaidOnBoard(s, RoadStones(tops, us.Opposite()), us.Opposite(), lb, sqs);
  }

  /** The loop of `move_is_suicide` has handled the first `i` squares and stands on the next. */
  ghost predicate Simulating(s: nat, tops: seq<Option<Piece>>, us: Color, d: Direction, lb: seq<Option<Piece>>,
                             sqs: seq<nat>, i: nat, sq: nat, ours: set<nat>, theirs: set<nat>)
    requires s > 0 && |tops| <= 64 && sq < s * s && |lb| == |sqs| && i <= |lb|
  {
    && sqs[i..] == Visits(s, sq, d, |lb| - i)
    && ours == Relaid(RoadStones(tops, us), us, lb[..i], sqs[..i])
    && theirs == Relaid(RoadStones(tops, us.Opposite()), us.Opposite(), lb[..i], sqs[..i])
  }

  lemma SimulateStep(s: nat, tops: seq<Option<Piece>>, us: Color, d: Direction, lb: seq<Option<Piece>>,
                     sqs: seq<nat>, i: nat, sq: nat, ours0: set<nat>, theirs0: set<nat>, ours: set<nat>, theirs: set<nat>)
    requires s > 0 && |tops| <= 64 && sq < s * s && |lb| == |sqs| && i < |lb|
    requires Simulating(s, tops, us, d, lb, sqs, i, sq, ours0, theirs0)
    requires ours == if IsRoadStone(lb[i], us) then ours0 - {sq} + {sq} else ours0 - {sq}
    requires theirs == if IsRoadStone(lb[i], us.Opposite()) then theirs0 - {sq} + {sq} else theirs0 - {sq}
    ensures Simulating(s, tops, us, d, lb, sqs, i + 1, Advance(s, sq, d), ours, theirs)
  {
    assert sqs[i] == sq && sqs[i + 1..] == sqs[i..][1..];
    RelaidStep(RoadStones(tops, us), us, lb, sqs, i);
    RelaidStep(RoadStones(tops, us.Opposite()), us.Opposite(), lb, sqs, i);
  }

  /**
   * `move_is_suicide`: placements never are; a spread that leaves no opponent piece on top is
   * not; otherwise the two road bitboards are updated square by square and labelled, and the
   * move is suicide when the mover has no road and the opponent has one.
   */
  method MoveIsSuicide(s: nat, cells: seq<seq<Piece>>, us: Color, m: Move) returns (r: bool)
    requires ValidCells(s, cells) && (m.Spread? ==> m.square < s * s && TakesFit(cells[m.square], m.takes))
    ensures r == IsSuicide(s, cells, us, m)
  {
    if m.Place? {
      return false;
    }
    var lb := LeftBehind(cells[m.square], m.takes);
    if !LeavesTheirs(lb, us) {
      return false;
    }
    var ours, theirs := SimulateRoads(s, Tops(cells), us, m.square, m.dir, lb);
    var ourComps, ourNext := RoadComponents(s, ours);
    SpanningIffRoad(s, ours, ourComps, ourNext);
    if FirstSpanning(s, ourComps, 1, ourNext).Some? {
      return false;
    }
    var theirComps, theirNext := RoadComponents(s, theirs);
    SpanningIffRoad(s, theirs, theirComps, theirNext);
    r := FirstSpanning(s, theirComps, 1, theirNext).Some?;
  }

  /** On a walk that stays on the board the loop's squares are the spread's path. */
  lemma {:induction false} VisitsArePath(s: nat, sq: nat, d: Direction, n: nat)
    requires s > 0 && sq < s * s && WalkOnBoard(s, sq, d, n)
    ensures Visits(s, sq, d, n + 1) == Path(s, sq, d, n)
    decreases n
  {
    if n > 0 {
      WalkOnBoardStep(s, sq, d, n);
      PathCons(s, sq, d, n);
      VisitsArePath(s, GoDirection(s, sq, d).value, d, n - 1);
    }
  }

  /** No square occurs twice. */
  predicate Distinct(xs: seq<nat>)
  {
    forall i, j :: 0 <= i < j < |xs| ==> xs[i] != xs[j]
  }

  /** When the squares are distinct, each ends up decided by the piece left on it, the rest as they were. */
  lemma {:induction false} RelaidAt(road: set<nat>, c: Color, lb: seq<Option<Piece>>, sqs: seq<nat>, x: nat)
    requires |lb| == |sqs| && Distinct(sqs)
    ensures x !in sqs ==> (x in Relaid(road, c, lb, sqs) <==> x in road)
    ensures forall i :: 0 <= i < |sqs| && sqs[i] == x ==> (x in Relaid(road, c, lb, sqs) <==> IsRoadStone(lb[i], c))
    decreases |lb|
  {
    if lb != [] {
      var n := |lb| - 1;
      RelaidAt(road, c, lb[..n], sqs[..n], x);
      if x != sqs[n] {
        assert x in sqs ==> x in sqs[..n];
      }
    }
  }

  /**
   * For a legal spread the simulated road bitboards are exactly the road stones of each colour
   * on the board after the spread.
   */
  lemma SimulatedIsAfter(s: nat, cells: seq<seq<Piece>>, from: nat, d: Direction, takes: seq<nat>, c: Color)
    requires ValidCells(s, cells) && from < s * s && SpreadLegal(s, cells, from, d, takes)
    ensures && SpreadOk(s, cells, from, d, takes) && TakesFit(cells[from], takes)
            && Relaid(RoadStones(Tops(cells), c), c, LeftBehind(cells[from], takes), Visits(s, from, d, |takes| + 1))
               == RoadStones(Tops(SpreadCells(s, cells, from, d, takes)), c)
  {
    var n := |takes|;
    LegalSpreadOk(s, cells, from, d, takes);
    TakesAtMost(takes, |cells[from]|);
    VisitsArePath(s, from, d, n);
    var path := Path(s, from, d, n);
    forall i, j | 0 <= i < j < |path|
      ensures path[i] != path[j]
    {
      PathDistinct(s, from, d, n, i, j);
    }
    assert Distinct(path);
    forall x: nat
      ensures x in Relaid(RoadStones(Tops(cells), c), c, LeftBehind(cells[from], takes), path)
              <==> x in RoadStones(Tops(SpreadCells(s, cells, from, d, takes)), c)
    {
      SimulatedAt(s, cells, from, d, takes, c, x);
    }
  }

  /** One square of `SimulatedIsAfter`: on the path the piece left behind decides, elsewhere nothing changed. */
  lemma SimulatedAt(s: nat, cells: seq<seq<Piece>>, from: nat, d: Direction, takes: seq<nat>, c: Color, x: nat)
    requires ValidCells(s, cells) && from < s * s && SpreadLegal(s, cells, from, d, takes)
    requires SpreadOk(s, cells, from, d, takes) && TakesFit(cells[from], takes)
    requires Distinct(Path(s, from, d, |takes|))
    ensures x in Relaid(RoadStones(Tops(cells), c), c, LeftBehind(cells[from], takes), Path(s, from, d, |takes|))
            <==> x in RoadStones(Tops(SpreadCells(s, cells, from, d, takes)), c)
  {
    var path := Path(s, from, d, |takes|);
    var lb := LeftBehind(cells[from], takes);
    var before := Tops(cells);
    var after := Tops(SpreadCells(s, cells, from, d, takes));
    BoardFits(s);
    RelaidAt(RoadStones(before, c), c, lb, path, x);
    if x !in path {
      if x < s * s {
        SpreadFrameAt(s, cells, from, d, takes, x);
        assert after[x] == before[x];
      }
    } else {
      var i :| 0 <= i < |path| && path[i] == x;
      SpreadTops(s, cells, from, d, takes, i);
      assert after[x] == lb[i];
    }
  }

  /** The road stones of a colour are its road squares. */
  lemma RoadStonesAreRoadSquares(tops: seq<Option<Piece>>, c: Color)
    requires |tops| <= 64
    ensures RoadStones(tops, c) == RoadSquares(tops, c)
  {
  }

  /**
   * For a legal spread, `move_is_suicide` holds exactly when the spread leaves an opponent's
   * piece on top, and after it the mover has no road while the opponent has one.
   */
  lemma SuicideMeaning(s: nat, cells: seq<seq<Piece>>, us: Color, from: nat, d: Direction, takes: seq<nat>)
    requires ValidCells(s, cells) && from < s * s && SpreadLegal(s, cells, from, d, takes)
    ensures && SpreadOk(s, cells, from, d, takes) && TakesFit(cells[from], takes)
            && var after := Tops(SpreadCells(s, cells, from, d, takes));
               IsSuicide(s, cells, us, Spread(from, d, takes))
               <==> && LeavesTheirs(LeftBehind(cells[from], takes), us)
                    && !HasRoadOn(s, after, us) && HasRoadOn(s, after, us.Opposite())
  {
    SimulatedIsAfter(s, cells, from, d, takes, us);
    SimulatedIsAfter(s, cells, from, d, takes, us.Opposite());
    var after := Tops(SpreadCells(s, cells, from, d, takes));
    BoardFits(s);
    RoadStonesAreRoadSquares(after, us);
    RoadStonesAreRoadSquares(after, us.Opposite());
  }

  // ---------------------------------------------------------------------------
  // The enumeration, imperatively

  /** One turn of the `pieces_to_take` loop, as the generators' loop invariant needs it. */
  lemma FromStep(s: nat, cells: seq<seq<Piece>>, d: Direction, cap: bool, origin: nat, sq: nat,
                 carried: nat, partial: seq<nat>, nb: nat, t: nat, max: nat, before: seq<seq<nat>>)
    requires s > 0 && |cells| == s * s && sq < s * s && (sq == origin || carried >= 1)
    requires GoDirection(s, sq, d) == Some(nb) && max == MaxTake(s, sq == origin, carried) && 1 <= t <= max
    ensures before + Movements(s, cells, d, cap, origin, nb, t, partial + [t]) + [partial + [t]]
              + MovementsFrom(s, cells, d, cap, origin, sq, carried, partial, nb, t + 1, max)
            == before + MovementsFrom(s, cells, d, cap, origin, sq, carried, partial, nb, t, max)
  {
  }

  /**
   * `generate_moving_moves_cap`: appends to `movements` the movement lists of a spread led by a
   * capstone, continuing `partial` from `sq`.
   */
  method GenerateMovingMovesCap(s: nat, cells: seq<seq<Piece>>, d: Direction, origin: nat, sq: nat,
                                carried: nat, partial: seq<nat>, movements: seq<seq<nat>>)
    returns (out: seq<seq<nat>>)
    requires s > 0 && |cells| == s * s && sq < s * s && (sq == origin || carried >= 1)
    ensures out == movements + Movements(s, cells, d, true, origin, sq, carried, partial)
    decreases carried, if sq == origin then 1 else 0
  {
    out := movements;
    var next := GoDirection(s, sq, d);
    if next.None? {
      return;
    }
    var nb := next.value;
    var max: nat := if sq == origin then Min(carried, s) else Min(carried - 1, s);
    if TopIs(cells[nb], Cap) {
      return;
    }
    if TopIs(cells[nb], Wall) && max > 0 {
      out := out + [partial + [1]];
    } else {
      var t: nat := 1;
      while t <= max
        invariant 1 <= t <= max + 1
        invariant out + MovementsFrom(s, cells, d, true, origin, sq, carried, partial, nb, t, max)
               == movements + MovementsFrom(s, cells, d, true, origin, sq, carried, partial, nb, 1, max)
      {
        ghost var before := out;
        var step: seq<nat> := partial + [t];
        out := GenerateMovingMovesCap(s, cells, d, origin, nb, t, step, out);
        out := out + [step];
        FromStep(s, cells, d, true, origin, sq, carried, partial, nb, t, max, before);
        t := t + 1;
      }
    }
  }

  /**
   * `generate_moving_moves_non_cap`: the same for a stack led by a flat or a wall, which stops
   * before any wall or capstone.
   */
  method GenerateMovingMovesNonCap(s: nat, cells: seq<seq<Piece>>, d: Direction, origin: nat, sq: nat,
                                   carried: nat, partial: seq<nat>, movements: seq<seq<nat>>)
    returns (out: seq<seq<nat>>)
    requires s > 0 && |cells| == s * s && sq < s * s && (sq == origin || carried >= 1)
    ensures out == movements + Movements(s, cells, d, false, origin, sq, carried, partial)
    decreases carried, if sq == origin then 1 else 0
  {
    out := movements;
    var next := GoDirection(s, sq, d);
    if next.None? {
      return;
    }
    var nb := next.value;
    if TopIs(cells[nb], Wall) || TopIs(cells[nb], Cap) {
      return;
    }
    var max: nat := if sq == origin then Min(carried, s) else Min(carried - 1, s);
    var t: nat := 1;
    while t <= max
      invariant 1 <= t <= max + 1
      invariant out + MovementsFrom(s, cells, d, false, origin, sq, carried, partial, nb, t, max)
             == movements + MovementsFrom(s, cells, d, false, origin, sq, carried, partial, nb, 1, max)
    {
      ghost var before := out;
      var step: seq<nat> := partial + [t];
      out := GenerateMovingMovesNonCap(s, cells, d, origin, nb, t, step, out);
      out := out + [step];
      FromStep(s, cells, d, false, origin, sq, carried, partial, nb, t, max, before);
      t := t + 1;
    }
  }
  // ---------------------------------------------------------------------------
  // `generate_moves_colortr` and `generate_moves`

  /** Every movement list the enumeration builds from a stack fits the stack. */
  lemma MovementsFit(s: nat, cells: seq<seq<Piece>>, d: Direction, cap: bool, origin: nat)
    requires s > 0 && |cells| == s * s && origin < s * s
    ensures forall e :: e in Movements(s, cells, d, cap, origin, origin, |cells[origin]|, []) ==> TakesFit(cells[origin], e)
  {
    forall e | e in Movements(s, cells, d, cap, origin, origin, |cells[origin]|, [])
      ensures TakesFit(cells[origin], e)
    {
      MovementsSound(s, cells, d, cap, origin, origin, |cells[origin]|, [], e);
      assert e[0..] == e;
      EmitsTakes(s, cells, d, cap, origin, e);
    }
  }

  /** The moves the filter keeps from the movement lists `movs`: non-empty and not suicide. */
  ghost function KeptSpreads(s: nat, cells: seq<seq<Piece>>, us: Color, sq: nat, d: Direction,
                             movs: seq<seq<nat>>): seq<Move>
    requires ValidCells(s, cells) && sq < s * s && forall e :: e in movs ==> TakesFit(cells[sq], e)
    decreases |movs|
  {
    if movs == [] then []
    else
      var n := |movs| - 1;
      var e := movs[n];
      KeptSpreads(s, cells, us, sq, d, movs[..n])
      + if |e| > 0 && !IsSuicide(s, cells, us, Spread(sq, d, e)) then [Spread(sq, d, e)] else []
  }

  /** The spreads of the stack on `sq` in direction `d` that are pushed. */
  ghost function DirectionSpreads(s: nat, cells: seq<seq<Piece>>, us: Color, sq: nat, d: Direction): seq<Move>
    requires ValidCells(s, cells) && sq < s * s
  {
    var cap := TopIs(cells[sq], Cap);
    MovementsFit(s, cells, d, cap, sq);
    KeptSpreads(s, cells, us, sq, d, Movements(s, cells, d, cap, sq, sq, |cells[sq]|, []))
  }

  /** The spreads pushed for the directions `ds`, in order. */
  ghost function SquareSpreads(s: nat, cells: seq<seq<Piece>>, us: Color, sq: nat, ds: seq<Direction>): seq<Move>
    requires ValidCells(s, cells) && sq < s * s
    decreases |ds|
  {
    if ds == [] then []
    else SquareSpreads(s, cells, us, sq, ds[..|ds| - 1]) + DirectionSpreads(s, cells, us, sq, ds[|ds| - 1])
  }

  /** The placements on an empty square: flat and wall while stones remain, a capstone while caps remain. */
  function Placements(p: Position, us: Color, sq: nat): seq<Move>
  {
    (if Reserve(p, us, Flat) > 0 then [Place(Flat, sq), Place(Wall, sq)] else [])
    + (if Reserve(p, us, Cap) > 0 then [Place(Cap, sq)] else [])
  }

  /** What `generate_moves_colortr` pushes for one square. */
  ghost function SquareMoves(s: nat, p: Position, us: Color, sq: nat): seq<Move>
    requires ValidCells(s, p.cells) && sq < s * s
  {
    match TopOf(p.cells[sq])
    case None => Placements(p, us, sq)
    case Some(piece) =>
      if piece.Color() == us then SquareSpreads(s, p.cells, us, sq, Directions(s, sq)) else []
  }

  /** The moves pushed for each square, in board order. */
  ghost function SquareLists(s: nat, p: Position, us: Color): (r: seq<seq<Move>>)
    requires ValidCells(s, p.cells)
    ensures |r| == s * s && forall i :: 0 <= i < s * s ==> r[i] == SquareMoves(s, p, us, i)
  {
    seq(s * s, i requires 0 <= i < s * s => SquareMoves(s, p, us, i))
  }

  /** What `generate_moves_colortr` pushes for the squares below `n`. */
  ghost function ColortrMoves(s: nat, p: Position, us: Color, n: nat): seq<Move>
    requires ValidCells(s, p.cells) && n <= s * s
  {
    Concat(SquareLists(s, p, us)[..n])
  }

  /** What `generate_moves` pushes on the first two plies for the squares below `n`: a flat on each empty one. */
  function OpeningMoves(cells: seq<seq<Piece>>, n: nat): seq<Move>
    requires n <= |cells|
  {
    if n == 0 then []
    else OpeningMoves(cells, n - 1) + if cells[n - 1] == [] then [Place(Flat, n - 1)] else []
  }

  /** What `generate_moves` pushes. */
  ghost function AllMoves(s: nat, p: Position): seq<Move>
    requires ValidCells(s, p.cells)
  {
    if p.halfMoves <= 1 then OpeningMoves(p.cells, s * s) else ColortrMoves(s, p, p.toMove, s * s)
  }

  /** One more movement list adds the spread it makes, if it is kept. */
  lemma KeptStep(s: nat, cells: seq<seq<Piece>>, us: Color, sq: nat, d: Direction, movs: seq<seq<nat>>, j: nat,
                 moves: seq<Move>, before: seq<Move>, after: seq<Move>)
    requires ValidCells(s, cells) && sq < s * s && forall e :: e in movs ==> TakesFit(cells[sq], e)
    requires j < |movs|
    requires before == moves + KeptSpreads(s, cells, us, sq, d, movs[..j])
    requires after == before + if |movs[j]| > 0 && !IsSuicide(s, cells, us, Spread(sq, d, movs[j]))
                               then [Spread(sq, d, movs[j])] else []
    ensures after == moves + KeptSpreads(s, cells, us, sq, d, movs[..j + 1])
  {
    var e := movs[j];
    var kept := if |e| > 0 && !IsSuicide(s, cells, us, Spread(sq, d, e)) then [Spread(sq, d, e)] else [];
    assert movs[..j + 1][..j] == movs[..j];
    assert KeptSpreads(s, cells, us, sq, d, movs[..j + 1]) == KeptSpreads(s, cells, us, sq, d, movs[..j]) + kept;
    AppendAssoc(moves, KeptSpreads(s, cells, us, sq, d, movs[..j]), kept);
  }

  /** The filter loop: pushes the non-empty movement lists that are not suicide. */
  method PushSpreads(s: nat, cells: seq<seq<Piece>>, us: Color, sq: nat, d: Direction,
                     movs: seq<seq<nat>>, moves: seq<Move>)
    returns (out: seq<Move>)
    requires ValidCells(s, cells) && sq < s * s && forall e :: e in movs ==> TakesFit(cells[sq], e)
    ensures out == moves + KeptSpreads(s, cells, us, sq, d, movs)
  {
    out := moves;
    var j := 0;
    while j < |movs|
      invariant j <= |movs|
      invariant out == moves + KeptSpreads(s, cells, us, sq, d, movs[..j])
    {
      var e := movs[j];
      ghost var before := out;
      if |e| > 0 {
        var suicide := MoveIsSuicide(s, cells, us, Spread(sq, d, e));
        if !suicide {
          out := out + [Spread(sq, d, e)];
        }
      }
      KeptStep(s, cells, us, sq, d, movs, j, moves, before, out);
      j := j + 1;
    }
    assert movs[..j] == movs;
  }

  /** One more direction adds its kept spreads at the end. */
  lemma SquareSpreadsStep(s: nat, cells: seq<seq<Piece>>, us: Color, sq: nat, ds: seq<Direction>, k: nat,
                          moves: seq<Move>, before: seq<Move>, after: seq<Move>)
    requires ValidCells(s, cells) && sq < s * s && k < |ds|
    requires before == moves + SquareSpreads(s, cells, us, sq, ds[..k])
    requires after == before + DirectionSpreads(s, cells, us, sq, ds[k])
    ensures after == moves + SquareSpreads(s, cells, us, sq, ds[..k + 1])
  {
    assert ds[..k + 1][..k] == ds[..k];
    AppendAssoc(moves, SquareSpreads(s, cells, us, sq, ds[..k]), DirectionSpreads(s, cells, us, sq, ds[k]));
  }

  /** The spreads of one direction: enumerate the movements, then filter them. */
  method PushDirectionSpreads(s: nat, cells: seq<seq<Piece>>, us: Color, sq: nat, d: Direction, cap: bool,
                              moves: seq<Move>)
    returns (out: seq<Move>)
    requires ValidCells(s, cells) && sq < s * s && (cap <==> TopIs(cells[sq], Cap))
    ensures out == moves + DirectionSpreads(s, cells, us, sq, d)
  {
    var movements: seq<seq<nat>>;
    if cap {
      movements := GenerateMovingMovesCap(s, cells, d, sq, sq, |cells[sq]|, [], []);
    } else {
      movements := GenerateMovingMovesNonCap(s, cells, d, sq, sq, |cells[sq]|, [], []);
    }
    assert movements == Movements(s, cells, d, cap, sq, sq, |cells[sq]|, []);
    MovementsFit(s, cells, d, cap, sq);
    out := PushSpreads(s, cells, us, sq, d, movements, moves);
  }

  /** The loop over the directions of a square topped by a piece of the mover. */
  method PushSquareSpreads(s: nat, cells: seq<seq<Piece>>, us: Color, sq: nat, cap: bool, moves: seq<Move>)
    returns (out: seq<Move>)
    requires ValidCells(s, cells) && sq < s * s && (cap <==> TopIs(cells[sq], Cap))
    ensures out == moves + SquareSpreads(s, cells, us, sq, Directions(s, sq))
  {
    out := moves;
    var ds := Directions(s, sq);
    var k := 0;
    while k < |ds|
      invariant k <= |ds|
      invariant out == moves + SquareSpreads(s, cells, us, sq, ds[..k])
    {
      ghost var before := out;
      out := PushDirectionSpreads(s, cells, us, sq, ds[k], cap, out);
      SquareSpreadsStep(s, cells, us, sq, ds, k, moves, before, out);
      k := k + 1;
    }
    assert ds[..k] == ds;
  }

  /** What the body of `generate_moves_colortr`'s loop pushes for one square. */
  method PushSquareMoves(s: nat, p: Position, us: Color, sq: nat, moves: seq<Move>) returns (out: seq<Move>)
    requires ValidCells(s, p.cells) && sq < s * s
    ensures out == moves + SquareMoves(s, p, us, sq)
  {
    out := moves;
    match TopOf(p.cells[sq]) {
      case None =>
        if Reserve(p, us, Flat) > 0 {
          out := out + [Place(Flat, sq), Place(Wall, sq)];
        }
        if Reserve(p, us, Cap) > 0 {
          out := out + [Place(Cap, sq)];
        }
      case Some(piece) =>
        if piece.Color() == us {
          out := PushSquareSpreads(s, p.cells, us, sq, piece.Role() == Cap, out);
        }
    }
  }

  /** One more square adds its moves at the end. */
  lemma ColortrStep(s: nat, p: Position, us: Color, sq: nat, moves: seq<Move>, before: seq<Move>, after: seq<Move>)
    requires ValidCells(s, p.cells) && sq < s * s
    requires before == moves + ColortrMoves(s, p, us, sq)
    requires after == before + SquareMoves(s, p, us, sq)
    ensures after == moves + ColortrMoves(s, p, us, sq + 1)
  {
    ConcatSnoc(SquareLists(s, p, us), sq);
    AppendAssoc(moves, ColortrMoves(s, p, us, sq), SquareMoves(s, p, us, sq));
  }

  /**
   * `generate_moves_colortr`: placements on every empty square, as the reserves allow, and the
   * spreads of every stack the mover tops that are not suicide.
   */
  method GenerateMovesColortr(s: nat, p: Position, us: Color, moves: seq<Move>) returns (out: seq<Move>)
    requires ValidCells(s, p.cells)
    ensures out == moves + ColortrMoves(s, p, us, s * s)
  {
    out := moves;
    var n: nat := s * s;
    var sq: nat := 0;
    while sq < n
      invariant sq <= n
      invariant out == moves + ColortrMoves(s, p, us, sq)
    {
      ghost var before := out;
      out := PushSquareMoves(s, p, us, sq, out);
      ColortrStep(s, p, us, sq, moves, before, out);
      sq := sq + 1;
    }
  }

  /** `generate_moves`: a flat on every empty square on the first two plies, else the mover's moves. */
  method GenerateMoves(s: nat, p: Position, moves: seq<Move>) returns (out: seq<Move>)
    requires ValidCells(s, p.cells)
    ensures out == moves + AllMoves(s, p)
  {
    if p.halfMoves <= 1 {
      out := moves;
      var sq := 0;
      while sq < s * s
        invariant sq <= s * s
        invariant out == moves + OpeningMoves(p.cells, sq)
      {
        if p.cells[sq] == [] {
          out := out + [Place(Flat, sq)];
        }
        sq := sq + 1;
      }
    } else {
      out := GenerateMovesColortr(s, p, p.toMove, moves);
    }
  }
  // ---------------------------------------------------------------------------
  // What the generator yields

  /**
   * A spread the generator yields: from a stack the mover tops, along a movement list the
   * enumeration accepts (a capstone on top may flatten a wall at the end), and not suicide.
   */
  ghost predicate SpreadGenerated(s: nat, cells: seq<seq<Piece>>, us: Color, sq: nat, d: Direction, takes: seq<nat>)
    requires ValidCells(s, cells)
  {
    && sq < s * s
    && TopOf(cells[sq]).Some? && TopOf(cells[sq]).value.Color() == us
    && Emits(s, cells, d, TopIs(cells[sq], Cap), sq, sq, |cells[sq]|, takes)
    && TakesFit(cells[sq], takes)
    && !IsSuicide(s, cells, us, Spread(sq, d, takes))
  }

  /** A move `generate_moves_colortr` yields for the square it names. */
  ghost predicate GeneratedOn(s: nat, p: Position, us: Color, m: Move)
    requires ValidCells(s, p.cells) && m.square < s * s
  {
    match m
    case Place(role, sq) => p.cells[sq] == [] && Reserve(p, us, role) > 0
    case Spread(sq, d, takes) => SpreadGenerated(s, p.cells, us, sq, d, takes)
  }

  /** A move `generate_moves_colortr` yields for the squares below `n`. */
  ghost predicate ColortrGenerated(s: nat, p: Position, us: Color, n: nat, m: Move)
    requires ValidCells(s, p.cells) && n <= s * s
  {
    m.square < n && GeneratedOn(s, p, us, m)
  }

  lemma {:induction false} KeptSpreadsMembers(s: nat, cells: seq<seq<Piece>>, us: Color, sq: nat, d: Direction,
                                               movs: seq<seq<nat>>, m: Move)
    requires ValidCells(s, cells) && sq < s * s && forall e :: e in movs ==> TakesFit(cells[sq], e)
    ensures m in KeptSpreads(s, cells, us, sq, d, movs)
        <==> && m.Spread? && m.square == sq && m.dir == d && m.takes in movs && |m.takes| > 0
             && !IsSuicide(s, cells, us, m)
    decreases |movs|
  {
    if movs != [] {
      var n := |movs| - 1;
      KeptSpreadsMembers(s, cells, us, sq, d, movs[..n], m);
      assert movs == movs[..n] + [movs[n]];
    }
  }

  lemma DirectionSpreadsMembers(s: nat, cells: seq<seq<Piece>>, us: Color, sq: nat, d: Direction, m: Move)
    requires ValidCells(s, cells) && sq < s * s
    ensures m in DirectionSpreads(s, cells, us, sq, d)
        <==> && m.Spread? && m.square == sq && m.dir == d
             && Emits(s, cells, d, TopIs(cells[sq], Cap), sq, sq, |cells[sq]|, m.takes)
             && TakesFit(cells[sq], m.takes) && !IsSuicide(s, cells, us, m)
  {
    var cap := TopIs(cells[sq], Cap);
    var movs := Movements(s, cells, d, cap, sq, sq, |cells[sq]|, []);
    MovementsFit(s, cells, d, cap, sq);
    KeptSpreadsMembers(s, cells, us, sq, d, movs, m);
    if m.Spread? && m.square == sq && m.dir == d {
      if m.takes in movs {
        MovementsSound(s, cells, d, cap, sq, sq, |cells[sq]|, [], m.takes);
        assert m.takes[0..] == m.takes;
      }
      if Emits(s, cells, d, cap, sq, sq, |cells[sq]|, m.takes) {
        MovementsComplete(s, cells, d, cap, sq, sq, |cells[sq]|, [], m.takes);
        assert [] + m.takes == m.takes;
      }
    }
  }

  lemma {:induction false} SquareSpreadsMembers(s: nat, cells: seq<seq<Piece>>, us: Color, sq: nat,
                                                ds: seq<Direction>, m: Move)
    requires ValidCells(s, cells) && sq < s * s
    ensures m in SquareSpreads(s, cells, us, sq, ds)
        <==> m.Spread? && m.dir in ds && m in DirectionSpreads(s, cells, us, sq, m.dir)
    decreases |ds|
  {
    if ds != [] {
      var k := |ds| - 1;
      SquareSpreadsMembers(s, cells, us, sq, ds[..k], m);
      DirectionSpreadsMembers(s, cells, us, sq, ds[k], m);
      assert ds == ds[..k] + [ds[k]];
    }
  }

  /** The placements pushed for one square: those the reserves allow, on an empty square. */
  lemma SquareMovesPlace(s: nat, p: Position, us: Color, sq: nat, role: Role, x: nat)
    requires ValidCells(s, p.cells) && sq < s * s
    ensures Place(role, x) in SquareMoves(s, p, us, sq) <==> x == sq && p.cells[sq] == [] && Reserve(p, us, role) > 0
  {
    SquareSpreadsMembers(s, p.cells, us, sq, Directions(s, sq), Place(role, x));
  }

  /** The spreads pushed for one square: those the enumeration accepts from a stack of ours. */
  lemma SquareMovesSpread(s: nat, p: Position, us: Color, sq: nat, x: nat, d: Direction, takes: seq<nat>)
    requires ValidCells(s, p.cells) && sq < s * s
    ensures Spread(x, d, takes) in SquareMoves(s, p, us, sq) <==> x == sq && SpreadGenerated(s, p.cells, us, sq, d, takes)
  {
    var m := Spread(x, d, takes);
    var top := TopOf(p.cells[sq]);
    if top.Some? && top.value.Color() == us {
      assert SquareMoves(s, p, us, sq) == SquareSpreads(s, p.cells, us, sq, Directions(s, sq));
      SquareSpreadsMembers(s, p.cells, us, sq, Directions(s, sq), m);
      DirectionSpreadsMembers(s, p.cells, us, sq, d, m);
      DirectionsAndNeighbours(s, sq);
    } else {
      assert m !in SquareMoves(s, p, us, sq);
    }
  }

  /** The moves pushed for one square: placements on an empty one, generated spreads on one of ours. */
  lemma SquareMovesMembers(s: nat, p: Position, us: Color, sq: nat, m: Move)
    requires ValidCells(s, p.cells) && sq < s * s
    ensures m in SquareMoves(s, p, us, sq) <==> m.square == sq && GeneratedOn(s, p, us, m)
  {
    match m
    case Place(role, x) => SquareMovesPlace(s, p, us, sq, role, x);
    case Spread(x, d, takes) => SquareMovesSpread(s, p, us, sq, x, d, takes);
  }

  lemma ColortrMembers(s: nat, p: Position, us: Color, n: nat, m: Move)
    requires ValidCells(s, p.cells) && n <= s * s
    ensures m in ColortrMoves(s, p, us, n) <==> ColortrGenerated(s, p, us, n, m)
  {
    var xss := SquareLists(s, p, us)[..n];
    ConcatMembers(xss, m);
    if m in ColortrMoves(s, p, us, n) {
      var i :| 0 <= i < n && m in xss[i];
      SquareMovesMembers(s, p, us, i, m);
    }
    if ColortrGenerated(s, p, us, n, m) {
      SquareMovesMembers(s, p, us, m.square, m);
      assert m in xss[m.square];
    }
  }

  lemma {:induction false} OpeningMembers(cells: seq<seq<Piece>>, n: nat, m: Move)
    requires n <= |cells|
    ensures m in OpeningMoves(cells, n) <==> m.Place? && m.role == Flat && m.square < n && cells[m.square] == []
  {
    if n > 0 {
      OpeningMembers(cells, n - 1, m);
    }
  }

  /**
   * The moves `generate_moves` yields: on the first two plies a flat on every empty square;
   * afterwards every placement the reserves allow on an empty square and every spread the
   * enumeration accepts from a stack the mover tops that is not suicide, and nothing else.
   */
  lemma GeneratedMoves(s: nat, p: Position, m: Move)
    requires ValidCells(s, p.cells)
    ensures m in AllMoves(s, p)
        <==> if p.halfMoves <= 1 then m.Place? && m.role == Flat && m.square < s * s && p.cells[m.square] == []
             else ColortrGenerated(s, p, p.toMove, s * s, m)
  {
    if p.halfMoves <= 1 {
      OpeningMembers(p.cells, s * s, m);
    } else {
      ColortrMembers(s, p, p.toMove, s * s, m);
    }
  }

  /** A spread the enumeration accepts is legal and fits in a `StackMovement`. */
  lemma SpreadGeneratedOk(s: nat, cells: seq<seq<Piece>>, us: Color, sq: nat, d: Direction, takes: seq<nat>)
    requires ValidCells(s, cells) && Roomy(s, cells) && SpreadGenerated(s, cells, us, sq, d, takes)
    ensures SpreadLegal(s, cells, sq, d, takes) && |takes| <= MaxMovements
  {
    var cap := TopIs(cells[sq], Cap);
    EmitsTakes(s, cells, d, cap, sq, takes);
    EmitsLegal(s, cells, d, cap, sq, takes);
  }

  /** After the opening, every generated move is legal, as the assertions of `do_move` demand. */
  lemma GeneratedLegal(s: nat, p: Position, m: Move)
    requires ValidCells(s, p.cells) && Roomy(s, p.cells) && p.halfMoves > 1
    requires m in AllMoves(s, p)
    ensures MoveLegal(s, p, m)
  {
    GeneratedMoves(s, p, m);
    assert ColortrGenerated(s, p, p.toMove, s * s, m);
    match m
    case Place(role, sq) =>
      assert ColorToPlace(p) == p.toMove;
    case Spread(sq, d, takes) =>
      SpreadGeneratedOk(s, p.cells, p.toMove, sq, d, takes);
      LegalSpreadOk(s, p.cells, sq, d, takes);
  }

  /**
   * No spread the generator yields leaves an opponent's piece on top and, in the position it
   * leads to, hands the opponent a road while the mover has none.
   */
  lemma GeneratedNotSuicide(s: nat, p: Position, sq: nat, d: Direction, takes: seq<nat>)
    requires ValidCells(s, p.cells) && Roomy(s, p.cells) && p.halfMoves > 1
    requires Spread(sq, d, takes) in AllMoves(s, p)
    ensures && sq < s * s && SpreadLegal(s, p.cells, sq, d, takes)
            && SpreadOk(s, p.cells, sq, d, takes) && TakesFit(p.cells[sq], takes)
    ensures var after := Tops(SpreadCells(s, p.cells, sq, d, takes));
            LeavesTheirs(LeftBehind(p.cells[sq], takes), p.toMove) && HasRoadOn(s, after, p.toMove.Opposite())
            ==> HasRoadOn(s, after, p.toMove)
  {
    GeneratedMoves(s, p, Spread(sq, d, takes));
    assert SpreadGenerated(s, p.cells, p.toMove, sq, d, takes);
    SpreadGeneratedOk(s, p.cells, p.toMove, sq, d, takes);
    SuicideMeaning(s, p.cells, p.toMove, sq, d, takes);
  }
}
