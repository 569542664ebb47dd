/**
 * Squares, directions and edge masks of an S x S board (`Square`, `Direction` and
 * `GroupEdgeConnection` in board.rs). A square is the index `rank * S + file`; rank 0 is
 * the row printed as `S` in move notation, the last rank is the row printed as `1`.
 */
module Squares {
  import opened Wrappers

  /** Board sizes with zobrist keys and starting reserves. */
  predicate ValidSize(s: int)
  {
    4 <= s <= 8
  }

  predicate OnBoard(s: nat, sq: int)
  {
    0 <= sq < s * s
  }

  predicate InBounds(s: nat, rank: int, file: int)
  {
    0 <= rank < s && 0 <= file < s
  }

  function Rank(s: nat, sq: nat): nat
    requires s > 0
  {
    sq / s
  }

  function File(s: nat, sq: nat): nat
    requires s > 0
  {
    sq % s
  }

  // ---------------------------------------------------------------------------
  // Arithmetic helpers

  lemma {:induction false} MulAtLeast(a: int, s: int)
    requires a >= 1 && s > 0
    ensures a * s >= s
  {
    if a > 1 {
      MulAtLeast(a - 1, s);
      assert a * s == (a - 1) * s + s;
    }
  }

  /** Euclidean division is determined by its quotient and remainder. */
  lemma DivModUnique(x: int, s: int, q: int, r: int)
    requires s > 0 && 0 <= r < s && x == q * s + r
    ensures x / s == q && x % s == r
  {
    var q', r' := x / s, x % s;
    assert x == q' * s + r';
    assert (q - q') * s == r' - r by {
      assert (q - q') * s == q * s - q' * s;
    }
    if q > q' {
      MulAtLeast(q - q', s);
    } else if q < q' {
      assert (q' - q) * s == r - r';
      MulAtLeast(q' - q, s);
    }
  }

  /** Rank and file of an on-board square are both below `s` and rebuild the square. */
  lemma RankFileOf(s: nat, sq: nat)
    requires s > 0 && sq < s * s
    ensures Rank(s, sq) < s && File(s, sq) < s && sq == Rank(s, sq) * s + File(s, sq)
  {
    var q := sq / s;
    assert sq == q * s + sq % s;
    if q >= s {
      assert q * s == (q - s + 1) * s + s * s - s;
      MulAtLeast(q - s + 1, s);
    }
  }

  /** The square at `rank`, `file`, as `Square::from_rank_file` computes it. */
  function FromRankFile(s: nat, rank: nat, file: nat): (sq: nat)
    requires s > 0 && rank < s && file < s
    ensures sq < s * s && Rank(s, sq) == rank && File(s, sq) == file
  {
    DivModUnique(rank * s + file, s, rank, file);
    RankFileBelow(s, rank, file);
    rank * s + file
  }

  lemma RankFileBelow(s: nat, rank: nat, file: nat)
    requires rank < s && file < s
    ensures rank * s + file < s * s
  {
    if rank < s - 1 {
      MulAtLeast(s - 1 - rank, s);
      assert (s - 1 - rank) * s == s * s - s - rank * s;
    }
  }

  /** Two squares with the same rank and file are the same square. */
  lemma SameRankFile(s: nat, a: nat, b: nat)
    requires s > 0 && a < s * s && b < s * s
    requires Rank(s, a) == Rank(s, b) && File(s, a) == File(s, b)
    ensures a == b
  {
    RankFileOf(s, a);
    RankFileOf(s, b);
  }

  // ---------------------------------------------------------------------------
  // Directions

  datatype Direction = North | West | East | South {
    function Reverse(): (r: Direction)
      ensures r.DeltaRank() == -DeltaRank() && r.DeltaFile() == -DeltaFile()
    {
      match this
      case North => South
      case West => East
      case East => West
      case South => North
    }

    /** North lowers the rank index, South raises it. */
    function DeltaRank(): int
    {
      match this
      case North => -1
      case South => 1
      case _ => 0
    }

    function DeltaFile(): int
    {
      match this
      case West => -1
      case East => 1
      case _ => 0
    }
  }

  /** Stepping north (subtracting `s`) stays on the board exactly when the rank is not 0. */
  lemma StepNorth(s: nat, sq: nat)
    requires s > 0 && sq < s * s
    ensures sq >= s <==> Rank(s, sq) >= 1
    ensures sq >= s ==> Rank(s, sq - s) == Rank(s, sq) - 1 && File(s, sq - s) == File(s, sq)
  {
    RankFileOf(s, sq);
    var rank, file := Rank(s, sq), File(s, sq);
    if rank >= 1 {
      MulAtLeast(rank, s);
      assert sq - s == (rank - 1) * s + file;
      DivModUnique(sq - s, s, rank - 1, file);
    }
  }

  /** Stepping south (adding `s`) stays on the board exactly when the rank is not the last. */
  lemma StepSouth(s: nat, sq: nat)
    requires s > 0 && sq < s * s
    ensures sq + s < s * s <==> Rank(s, sq) < s - 1
    ensures sq + s < s * s ==> Rank(s, sq + s) == Rank(s, sq) + 1 && File(s, sq + s) == File(s, sq)
  {
    RankFileOf(s, sq);
    var rank, file := Rank(s, sq), File(s, sq);
    assert sq + s == (rank + 1) * s + file;
    if rank < s - 1 {
      RankFileBelow(s, rank + 1, file);
      DivModUnique(sq + s, s, rank + 1, file);
    } else {
      assert (rank + 1) * s == s * s;
    }
  }

  /** Stepping west or east within the rank keeps the rank and moves the file by one. */
  lemma StepWestEast(s: nat, sq: nat)
    requires s > 0 && sq < s * s
    ensures File(s, sq) != 0 ==> Rank(s, sq - 1) == Rank(s, sq) && File(s, sq - 1) == File(s, sq) - 1
    ensures File(s, sq) != s - 1 ==> sq + 1 < s * s
    ensures File(s, sq) != s - 1 ==> Rank(s, sq + 1) == Rank(s, sq) && File(s, sq + 1) == File(s, sq) + 1
  {
    RankFileOf(s, sq);
    var rank, file := Rank(s, sq), File(s, sq);
    if file != 0 {
      DivModUnique(sq - 1, s, rank, file - 1);
    }
    if file != s - 1 {
      RankFileBelow(s, rank, file + 1);
      DivModUnique(sq + 1, s, rank, file + 1);
    }
  }

  /** `Square::go_direction`: the neighbouring square in direction `d`, or None at the edge. */
  function GoDirection(s: nat, sq: nat, d: Direction): (r: Option<nat>)
    requires s > 0 && sq < s * s
    ensures r.Some? ==> r.value < s * s && r.value != sq
  {
    match d
    case North => if sq >= s then Some(sq - s) else None
    case West => if sq % s == 0 then None else Some(sq - 1)
    case East =>
      RankFileOf(s, sq);
      StepWestEast(s, sq);
      if sq % s == s - 1 then None else Some(sq + 1)
    case South => if sq + s >= s * s then None else Some(sq + s)
  }

  /** `go_direction` finds the neighbour exactly when it is on the board, one step away. */
  lemma GoDirectionRankFile(s: nat, sq: nat, d: Direction)
    requires s > 0 && sq < s * s
    ensures var r := GoDirection(s, sq, d);
            && (r.Some? <==> InBounds(s, Rank(s, sq) + d.DeltaRank(), File(s, sq) + d.DeltaFile()))
            && (r.Some? ==>
                  && Rank(s, r.value) == Rank(s, sq) + d.DeltaRank()
                  && File(s, r.value) == File(s, sq) + d.DeltaFile())
  {
    RankFileOf(s, sq);
    match d
    case North => StepNorth(s, sq);
    case West => StepWestEast(s, sq);
    case East => StepWestEast(s, sq);
    case South => StepSouth(s, sq);
  }

  /** Stepping back in the reverse direction returns to the square. */
  lemma GoDirectionReverse(s: nat, sq: nat, d: Direction)
    requires s > 0 && sq < s * s && GoDirection(s, sq, d).Some?
    ensures GoDirection(s, GoDirection(s, sq, d).value, d.Reverse()) == Some(sq)
  {
    var t := GoDirection(s, sq, d).value;
    GoDirectionRankFile(s, sq, d);
    GoDirectionRankFile(s, t, d.Reverse());
    RankFileOf(s, sq);
    var b := GoDirection(s, t, d.Reverse());
    assert b.Some?;
    SameRankFile(s, b.value, sq);
  }

  /** The two squares are orthogonal neighbours on the board. */
  predicate Adjacent(s: nat, a: nat, b: nat)
    requires s > 0
  {
    var dr, df := Rank(s, a) - Rank(s, b), File(s, a) - File(s, b);
    (dr == 0 && (df == 1 || df == -1)) || (df == 0 && (dr == 1 || dr == -1))
  }

  lemma AdjacentSymmetric(s: nat, a: nat, b: nat)
    requires s > 0
    ensures Adjacent(s, a, b) <==> Adjacent(s, b, a)
  {
  }

  /** `Square::directions`: the directions that stay on the board, in the source's order per case. */
  function Directions(s: nat, sq: nat): seq<Direction>
    requires s > 0 && sq < s * s
  {
    if sq == 0 then [East, South]
    else if sq == s - 1 then [West, South]
    else if sq == s * s - s then [East, North]
    else if sq == s * s - 1 then [West, North]
    else if Rank(s, sq) == 0 then [West, East, South]
    else if Rank(s, sq) == s - 1 then [North, West, East]
    else if File(s, sq) == 0 then [North, East, South]
    else if File(s, sq) == s - 1 then [North, West, South]
    else [North, West, East, South]
  }

  /** `Square::neighbours`: the source adds fixed offsets to the square. */
  function Neighbours(s: nat, sq: nat): seq<nat>
    requires s > 0 && sq < s * s
  {
    LowRank(s, sq);
    if sq == 0 then [sq + 1, sq + s]
    else if sq == s - 1 then [sq - 1, sq + s]
    else if sq == s * s - s then [sq + 1, sq - s]
    else if sq == s * s - 1 then [sq - 1, sq - s]
    else if Rank(s, sq) == 0 then [sq - 1, sq + 1, sq + s]
    else if Rank(s, sq) == s - 1 then [sq - s, sq - 1, sq + 1]
    else if File(s, sq) == 0 then [sq - s, sq + 1, sq + s]
    else if File(s, sq) == s - 1 then [sq - s, sq - 1, sq + s]
    else [sq - s, sq - 1, sq + 1, sq + s]
  }

  /** The squares of rank 0 are those below `s`; on a 1x1 board there is only square 0. */
  lemma LowRank(s: nat, sq: nat)
    requires s > 0 && sq < s * s
    ensures Rank(s, sq) == 0 <==> sq < s
    ensures s == 1 ==> sq == 0
  {
    RankFileOf(s, sq);
  }

  /** The corner tests of `directions` and `neighbours` pick out these rank/file pairs. */
  lemma CornerRankFile(s: nat, sq: nat)
    requires s >= 2 && sq < s * s
    ensures sq == 0 ==> Rank(s, sq) == 0 && File(s, sq) == 0
    ensures sq == s - 1 ==> Rank(s, sq) == 0 && File(s, sq) == s - 1
    ensures sq == s * s - s ==> Rank(s, sq) == s - 1 && File(s, sq) == 0
    ensures sq == s * s - 1 ==> Rank(s, sq) == s - 1 && File(s, sq) == s - 1
    ensures Rank(s, sq) == 0 && File(s, sq) == 0 ==> sq == 0
    ensures Rank(s, sq) == 0 && File(s, sq) == s - 1 ==> sq == s - 1
    ensures Rank(s, sq) == s - 1 && File(s, sq) == 0 ==> sq == s * s - s
    ensures Rank(s, sq) == s - 1 && File(s, sq) == s - 1 ==> sq == s * s - 1
  {
    RankFileOf(s, sq);
    assert (s - 1) * s == s * s - s;
    if sq == s - 1 { DivModUnique(sq, s, 0, s - 1); }
    if sq == s * s - s { DivModUnique(sq, s, s - 1, 0); }
    if sq == s * s - 1 { DivModUnique(sq, s, s - 1, s - 1); }
  }

  /**
   * `directions()` lists exactly the directions in which `go_direction` succeeds, each once,
   * and `neighbours()` yields, position by position, the squares reached in those directions.
   */
  lemma DirectionsAndNeighbours(s: nat, sq: nat)
    requires s >= 2 && sq < s * s
    ensures forall d: Direction :: d in Directions(s, sq) <==> GoDirection(s, sq, d).Some?
    ensures forall i, j :: 0 <= i < j < |Directions(s, sq)| ==> Directions(s, sq)[i] != Directions(s, sq)[j]
    ensures |Neighbours(s, sq)| == |Directions(s, sq)|
    ensures forall i :: 0 <= i < |Directions(s, sq)| ==> GoDirection(s, sq, Directions(s, sq)[i]) == Some(Neighbours(s, sq)[i])
  {
    CornerRankFile(s, sq);
    RankFileOf(s, sq);
    StepNorth(s, sq);
    StepSouth(s, sq);
    StepWestEast(s, sq);
  }

  /** The squares listed by `neighbours()` are exactly the orthogonally adjacent squares. */
  lemma NeighbourIffAdjacent(s: nat, a: nat, b: nat)
    requires s >= 2 && a < s * s && b < s * s
    ensures b in Neighbours(s, a) <==> Adjacent(s, a, b)
  {
    DirectionsAndNeighbours(s, a);
    var ds, ns := Directions(s, a), Neighbours(s, a);
    if b in ns {
      var i :| 0 <= i < |ns| && ns[i] == b;
      assert GoDirection(s, a, ds[i]) == Some(b);
      GoDirectionRankFile(s, a, ds[i]);
    }
    if Adjacent(s, a, b) {
      var d :=
        if Rank(s, b) == Rank(s, a) - 1 then North
        else if Rank(s, b) == Rank(s, a) + 1 then South
        else if File(s, b) == File(s, a) - 1 then West
        else East;
      RankFileOf(s, b);
      RankFileOf(s, a);
      GoDirectionRankFile(s, a, d);
      var g := GoDirection(s, a, d);
      assert g.Some?;
      SameRankFile(s, g.value, b);
      assert d in ds;
      var i :| 0 <= i < |ds| && ds[i] == d;
      assert ns[i] == b;
    }
  }

  // ---------------------------------------------------------------------------
  // The squares a spread visits (`MoveIterator`)

  /** Steps once; off the board the iterator falls back to square 0. */
  function StepOrZero(s: nat, sq: nat, d: Direction): (r: nat)
    requires s > 0 && sq < s * s
    ensures r < s * s
  {
    match GoDirection(s, sq, d)
    case Some(t) => t
    case None => 0
  }

  /** `MoveIterator`: the origin and then one square per step, `n + 1` squares in all. */
  function Path(s: nat, sq: nat, d: Direction, n: nat): (r: seq<nat>)
    requires s > 0 && sq < s * s
    ensures |r| == n + 1 && r[0] == sq
    ensures forall k :: 0 <= k < |r| ==> r[k] < s * s
    decreases n
  {
    if n == 0 then [sq] else [sq] + Path(s, StepOrZero(s, sq, d), d, n - 1)
  }

  /** A path of `n >= 1` steps is its start followed by the path from the next square. */
  lemma PathCons(s: nat, sq: nat, d: Direction, n: nat)
    requires s > 0 && sq < s * s && n >= 1 && GoDirection(s, sq, d).Some?
    ensures Path(s, sq, d, n) == [sq] + Path(s, GoDirection(s, sq, d).value, d, n - 1)
  {
    assert StepOrZero(s, sq, d) == GoDirection(s, sq, d).value;
  }

  /** The path one step longer is the path extended by one more step. */
  lemma {:induction false} PathSnoc(s: nat, sq: nat, d: Direction, n: nat)
    requires s > 0 && sq < s * s
    ensures Path(s, sq, d, n + 1) == Path(s, sq, d, n) + [StepOrZero(s, Path(s, sq, d, n)[n], d)]
    decreases n
  {
    var next := StepOrZero(s, sq, d);
    if n > 0 {
      PathSnoc(s, next, d, n - 1);
      var rest := Path(s, next, d, n - 1);
      assert Path(s, sq, d, n) == [sq] + rest;
      assert Path(s, sq, d, n)[n] == rest[n - 1];
    }
  }

  /** `MoveIterator` run to the end: the squares of the path, in order. */
  method PathSquares(s: nat, from: nat, d: Direction, n: nat) returns (path: seq<nat>)
    requires s > 0 && from < s * s
    ensures path == Path(s, from, d, n)
  {
    path := [from];
    var sq := from;
    var i := 0;
    while i < n
      invariant i <= n && path == Path(s, from, d, i) && sq == path[i]
    {
      PathSnoc(s, from, d, i);
      sq := StepOrZero(s, sq, d);
      path := path + [sq];
      i := i + 1;
    }
  }

  /** Each square of the path is the step from the one before it. */
  lemma {:induction false} PathNext(s: nat, sq: nat, d: Direction, n: nat, i: nat)
    requires s > 0 && sq < s * s && i < n
    ensures Path(s, sq, d, n)[i + 1] == StepOrZero(s, Path(s, sq, d, n)[i], d)
    decreases n
  {
    if i > 0 {
      PathNext(s, StepOrZero(s, sq, d), d, n - 1, i - 1);
    }
  }

  /** A walk stays on the board exactly when its first step does and the rest of it does. */
  lemma WalkOnBoardStep(s: nat, sq: nat, d: Direction, n: nat)
    requires s > 0 && sq < s * s && n > 0
    ensures WalkOnBoard(s, sq, d, n) ==> GoDirection(s, sq, d).Some?
    ensures GoDirection(s, sq, d).Some? ==>
              (WalkOnBoard(s, sq, d, n) <==> WalkOnBoard(s, GoDirection(s, sq, d).value, d, n - 1))
  {
    RankFileOf(s, sq);
    GoDirectionRankFile(s, sq, d);
    match d
    case North =>
    case South =>
    case West =>
    case East =>
  }

  /** The rank reached after `k` steps in direction `d`. */
  function RankAfter(d: Direction, rank: int, k: int): int
  {
    match d
    case North => rank - k
    case South => rank + k
    case _ => rank
  }

  /** The file reached after `k` steps in direction `d`. */
  function FileAfter(d: Direction, file: int, k: int): int
  {
    match d
    case West => file - k
    case East => file + k
    case _ => file
  }

  /** The `n`-step walk from `sq` in direction `d` stays on the board. */
  predicate WalkOnBoard(s: nat, sq: nat, d: Direction, n: nat)
    requires s > 0
  {
    InBounds(s, RankAfter(d, Rank(s, sq), n), FileAfter(d, File(s, sq), n))
  }

  /** On a walk that stays on the board, the `k`-th square of the path is `k` steps away. */
  lemma {:induction false} PathAt(s: nat, sq: nat, d: Direction, n: nat, k: nat)
    requires s > 0 && sq < s * s && k <= n && WalkOnBoard(s, sq, d, n)
    ensures Rank(s, Path(s, sq, d, n)[k]) == RankAfter(d, Rank(s, sq), k)
    ensures File(s, Path(s, sq, d, n)[k]) == FileAfter(d, File(s, sq), k)
    ensures k < n ==> GoDirection(s, Path(s, sq, d, n)[k], d) == Some(Path(s, sq, d, n)[k + 1])
    decreases n
  {
    var p := Path(s, sq, d, n);
    if n > 0 {
      var g := GoDirection(s, sq, d);
      GoDirectionRankFile(s, sq, d);
      WalkOnBoardStep(s, sq, d, n);
      var next := g.value;
      assert StepOrZero(s, sq, d) == next;
      var rest := Path(s, next, d, n - 1);
      assert p == [sq] + rest;
      if k > 0 {
        PathAt(s, next, d, n - 1, k - 1);
        assert p[k] == rest[k - 1];
        if k < n {
          assert p[k + 1] == rest[k];
        }
        AfterStep(d, Rank(s, sq), File(s, sq), Rank(s, next), File(s, next), Rank(s, p[k]), File(s, p[k]), k);
      } else {
        assert p[1] == rest[0];
      }
    }
  }

  /** `k - 1` steps on from the neighbour in direction `d` are `k` steps on from the square. */
  lemma AfterStep(d: Direction, rank: int, file: int, rank1: int, file1: int, rankK: int, fileK: int, k: int)
    requires rank1 == rank + d.DeltaRank() && file1 == file + d.DeltaFile()
    requires rankK == RankAfter(d, rank1, k - 1) && fileK == FileAfter(d, file1, k - 1)
    ensures rankK == RankAfter(d, rank, k) && fileK == FileAfter(d, file, k)
  {
  }

  /** The squares of an on-board walk are pairwise distinct. */
  lemma PathDistinct(s: nat, sq: nat, d: Direction, n: nat, i: nat, j: nat)
    requires s > 0 && sq < s * s && WalkOnBoard(s, sq, d, n)
    requires i < j <= n
    ensures Path(s, sq, d, n)[i] != Path(s, sq, d, n)[j]
  {
    PathAt(s, sq, d, n, i);
    PathAt(s, sq, d, n, j);
    match d
    case North =>
    case South =>
    case West =>
    case East =>
  }

  // ---------------------------------------------------------------------------
  // Square notation

  /** `Square::to_string`: the file letter, then the rank counted from the bottom as a digit. */
  function SquareToString(s: nat, sq: nat): (r: string)
    requires ValidSize(s) && sq < s * s
    ensures |r| == 2
  {
    RankFileOf(s, sq);
    [(File(s, sq) + 'a' as int) as char, (s - Rank(s, sq) + '0' as int) as char]
  }

  /** The byte a Rust `char as u8` cast keeps. */
  function LowByte(c: char): nat
  {
    (c as int) % 256
  }

  /** The number of bytes the UTF-8 encoding of `c` takes. */
  function Utf8Width(c: char): (n: nat)
    ensures 1 <= n <= 4 && (n == 1 <==> c as int < 0x80)
  {
    if c as int < 0x80 then 1 else if c as int < 0x800 then 2 else if c as int < 0x1_0000 then 3 else 4
  }

  /** `str::len`: the length of a text in UTF-8 bytes, which is its length in characters exactly when it is ASCII. */
  function Utf8Length(text: string): (n: nat)
    ensures n >= |text|
    ensures n == |text| <==> forall i :: 0 <= i < |text| ==> text[i] as int < 0x80
  {
    if text == [] then 0
    else
      var n := Utf8Width(text[0]) + Utf8Length(text[1..]);
      assert forall i :: 1 <= i < |text| ==> text[i] == text[1..][i - 1];
      n
  }

  /**
   * `Square::parse_square`. The length test counts bytes; a two-byte text of one character
   * then fails the second `unwrap`. Both subtractions wrap around modulo 256.
   */
  function ParseSquare(s: nat, input: string): (r: Result<nat>)
    requires ValidSize(s)
    ensures r.Ok? ==> r.value < s * s
    ensures r.Err? && r.failure.Panic? <==> Utf8Length(input) == 2 && |input| == 1
  {
    if Utf8Length(input) != 2 then Err(ParseError("Couldn't parse square"))
    else if |input| < 2 then Err(Panic("called `Option::unwrap()` on a `None` value"))
    else
      var file := (LowByte(input[0]) - 'a' as int) % 256;
      var rank := (s + '0' as int - LowByte(input[1])) % 256;
      if file >= s || rank >= s then Err(ParseError("Couldn't parse square at this size"))
      else Ok(FromRankFile(s, rank, file))
  }

  /** Printing and then parsing a square gives the square back. */
  lemma ParseSquareToString(s: nat, sq: nat)
    requires ValidSize(s) && sq < s * s
    ensures ParseSquare(s, SquareToString(s, sq)) == Ok(sq)
  {
    RankFileOf(s, sq);
    var rank, file := Rank(s, sq), File(s, sq);
    SameRankFile(s, FromRankFile(s, rank, file), sq);
    SquareToStringOf(s, rank, file);
    ParseSquareOf(s, rank, file);
  }

  /** The printed form of the square at `rank`, `file` parses back to it. */
  lemma ParseSquareOf(s: nat, rank: nat, file: nat)
    requires ValidSize(s) && rank < s && file < s
    ensures ParseSquare(s, [(file + 'a' as int) as char, (s - rank + '0' as int) as char])
         == Ok(FromRankFile(s, rank, file))
  {
    var str := [(file + 'a' as int) as char, (s - rank + '0' as int) as char];
    assert (LowByte(str[0]) - 'a' as int) % 256 == file;
    assert (s + '0' as int - LowByte(str[1])) % 256 == rank;
  }

  /** Conversely, a text parses only if it is the printed form of the square. */
  lemma ParseSquareCanonical(s: nat, input: string, sq: nat)
    requires ValidSize(s) && ParseSquare(s, input) == Ok(sq)
    ensures SquareToString(s, sq) == input
  {
    assert |input| == 2 == Utf8Length(input);
    assert input[0] as int < 0x80 && input[1] as int < 0x80;
    var file := (LowByte(input[0]) - 'a' as int) % 256;
    var rank := (s + '0' as int - LowByte(input[1])) % 256;
    assert file < s && rank < s && sq == FromRankFile(s, rank, file);
    WrappedAbove(input[0], 'a' as int, file);
    WrappedBelow(input[1], s + '0' as int, rank);
    SquareToStringOf(s, rank, file);
    assert input == [input[0], input[1]];
  }

  /** The printed form of the square at `rank`, `file`. */
  lemma SquareToStringOf(s: nat, rank: nat, file: nat)
    requires ValidSize(s) && rank < s && file < s
    ensures SquareToString(s, FromRankFile(s, rank, file))
         == [(file + 'a' as int) as char, (s - rank + '0' as int) as char]
  {
  }

  /** A byte `c` with `(c - base) % 256` small was `base` plus that value. */
  lemma WrappedAbove(c: char, base: int, v: int)
    requires c as int < 256 && 0 <= base && v == (LowByte(c) - base) % 256 && v < 256 - base
    ensures c as int == v + base
  {
  }

  /** A byte `c` with `(top - c) % 256` at most `top` was `top` minus that value. */
  lemma WrappedBelow(c: char, top: int, v: int)
    requires c as int < 256 && top < 256 && v == (top - LowByte(c)) % 256 && v <= top
    ensures c as int == top - v
  {
  }

  // ---------------------------------------------------------------------------
  // Edge connections of a group (`GroupEdgeConnection`, a 4-bit mask in a byte)

  const NorthBit: bv8 := 8
  const WestBit: bv8 := 4
  const EastBit: bv8 := 2
  const SouthBit: bv8 := 1

  datatype EdgeConnection = EdgeConnection(data: bv8) {
    predicate North() { data & NorthBit != 0 }
    predicate West() { data & WestBit != 0 }
    predicate East() { data & EastBit != 0 }
    predicate South() { data & SouthBit != 0 }

    /** A group touching opposite edges is a road. */
    predicate IsWinning()
    {
      (North() && South()) || (East() && West())
    }

    /** `|` on two masks. */
    function Or(other: EdgeConnection): (r: EdgeConnection)
      ensures r.North() <==> North() || other.North()
      ensures r.West() <==> West() || other.West()
      ensures r.East() <==> East() || other.East()
      ensures r.South() <==> South() || other.South()
    {
      EdgeConnection(data | other.data)
    }

    /** Adds the edges that `sq` lies on. */
    function ConnectSquare(s: nat, sq: nat): (r: EdgeConnection)
      requires s > 0
      ensures r.North() <==> North() || Rank(s, sq) == s - 1
      ensures r.South() <==> South() || Rank(s, sq) == 0
      ensures r.West() <==> West() || File(s, sq) == 0
      ensures r.East() <==> East() || File(s, sq) == s - 1
    {
      var e0 := this;
      var e1 := if Rank(s, sq) == s - 1 then EdgeConnection(e0.data | NorthBit) else e0;
      var e2 := if Rank(s, sq) == 0 then EdgeConnection(e1.data | SouthBit) else e1;
      var e3 := if File(s, sq) == 0 then EdgeConnection(e2.data | WestBit) else e2;
      if File(s, sq) == s - 1 then EdgeConnection(e3.data | EastBit) else e3
    }
  }

  const NoEdges := EdgeConnection(0)

  lemma NoEdgesConnected()
    ensures !NoEdges.North() && !NoEdges.South() && !NoEdges.East() && !NoEdges.West()
  {
  }
}
