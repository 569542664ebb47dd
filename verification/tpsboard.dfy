/**
 * `from_fen` in board.rs: a whole position from a TPS string. The string is split into words
 * at whitespace; the first word is split into rows at `/`, each row is read by `parse_row`
 * (module `Tps`), every stack is taken out of its owner's reserves and set on its square, then
 * the side to move and the move number are read and the hash is computed from scratch.
 */
module TpsBoard {
  import opened Wrappers
  import opened Pieces
  import opened Squares
  import opened Stacks
  import opened Zobrist
  import opened Spreads
  import opened Positions
  import opened Seqs
  import opened Boards
  import opened Tps
  import Notation

  // ---------------------------------------------------------------------------
  // Words

  /** `char::is_whitespace`: the Unicode White_Space code points. */
  predicate IsWhitespace(c: char)
  {
    var n := c as int;
    || 9 <= n <= 13 || n == 32 || n == 0x85 || n == 0xA0 || n == 0x1680
    || 0x2000 <= n <= 0x200A || n == 0x2028 || n == 0x2029 || n == 0x202F || n == 0x205F
    || n == 0x3000
  }

  /** A word of `split_whitespace`: not empty and free of whitespace. */
  predicate IsWord(w: string)
  {
    w != [] && forall i :: 0 <= i < |w| ==> !IsWhitespace(w[i])
  }

  /** The end of the word that starts at `i`: the first whitespace at or after it. */
  function WordEnd(str: string, i: nat): (j: nat)
    requires i <= |str|
    ensures i <= j <= |str| && (j < |str| ==> IsWhitespace(str[j]))
    ensures forall k :: i <= k < j ==> !IsWhitespace(str[k])
    decreases |str| - i
  {
    if i == |str| || IsWhitespace(str[i]) then i else WordEnd(str, i + 1)
  }

  /** `split_whitespace` from index `i` on. */
  function WordsFrom(str: string, i: nat): (ws: seq<string>)
    requires i <= |str|
    ensures forall k :: 0 <= k < |ws| ==> IsWord(ws[k])
    decreases |str| - i
  {
    if i == |str| then []
    else if IsWhitespace(str[i]) then WordsFrom(str, i + 1)
    else
      var j := WordEnd(str, i);
      [str[i..j]] + WordsFrom(str, j)
  }

  function Words(str: string): seq<string>
  {
    WordsFrom(str, 0)
  }

  /** Words joined by single spaces. */
  function Unwords(ws: seq<string>): string
    requires ws != []
    decreases |ws|
  {
    if |ws| == 1 then ws[0] else ws[0] + " " + Unwords(ws[1..])
  }

  /** A word printed at `pos` and ended by whitespace or the end of the string ends there. */
  lemma WordEndAt(str: string, pos: nat, w: string)
    requires IsWord(w) && At(str, pos, w)
    requires pos + |w| == |str| || (pos + |w| < |str| && IsWhitespace(str[pos + |w|]))
    ensures WordEnd(str, pos) == pos + |w| && str[pos..pos + |w|] == w
  {
  }

  /** `split_whitespace` gives back the words `Unwords` joined. */
  lemma {:induction false} WordsAt(str: string, pos: nat, ws: seq<string>)
    requires ws != [] && (forall k :: 0 <= k < |ws| ==> IsWord(ws[k]))
    requires At(str, pos, Unwords(ws)) && pos + |Unwords(ws)| == |str|
    ensures WordsFrom(str, pos) == ws
    decreases |ws|
  {
    var w := ws[0];
    var end := pos + |w|;
    if |ws| == 1 {
      WordEndAt(str, pos, w);
    } else {
      assert Unwords(ws) == w + (" " + Unwords(ws[1..]));
      AtConcat(str, pos, w, " " + Unwords(ws[1..]));
      AtConcat(str, end, " ", Unwords(ws[1..]));
      assert str[end + 0] == " "[0];
      WordEndAt(str, pos, w);
      WordsAt(str, end + 1, ws[1..]);
      assert ws == [w] + ws[1..];
    }
  }

  /** `Words` undoes `Unwords`. */
  lemma WordsUnwords(ws: seq<string>)
    requires ws != [] && forall k :: 0 <= k < |ws| ==> IsWord(ws[k])
    ensures Words(Unwords(ws)) == ws
  {
    var str := Unwords(ws);
    forall i | 0 <= i < |str|
      ensures str[0 + i] == str[i]
    {
    }
    WordsAt(str, 0, ws);
  }

  // ---------------------------------------------------------------------------
  // Rows

  /** The index of the first `sep` at or after `i`, or the length. */
  function NextSep(str: string, i: nat, sep: char): (j: nat)
    requires i <= |str|
    ensures i <= j <= |str| && (j < |str| ==> str[j] == sep)
    ensures forall k :: i <= k < j ==> str[k] != sep
    decreases |str| - i
  {
    if i == |str| || str[i] == sep then i else NextSep(str, i + 1, sep)
  }

  /** `str::split(sep)` from index `i` on: empty pieces are kept, so there is always one. */
  function SplitFrom(str: string, i: nat, sep: char): (parts: seq<string>)
    requires i <= |str|
    ensures parts != [] && forall k :: 0 <= k < |parts| ==> sep !in parts[k]
    decreases |str| - i
  {
    var j := NextSep(str, i, sep);
    if j == |str| then [str[i..]]
    else [str[i..j]] + SplitFrom(str, j + 1, sep)
  }

  function Split(str: string, sep: char): (parts: seq<string>)
  {
    SplitFrom(str, 0, sep)
  }

  /** The pieces joined by `sep`. */
  function Join(parts: seq<string>, sep: char): string
    requires parts != []
    decreases |parts|
  {
    if |parts| == 1 then parts[0] else parts[0] + [sep] + Join(parts[1..], sep)
  }

  /** Splitting at `sep` gives back the pieces `Join` joined, when none of them holds `sep`. */
  lemma {:induction false} SplitAt(str: string, pos: nat, parts: seq<string>, sep: char)
    requires parts != [] && (forall k :: 0 <= k < |parts| ==> sep !in parts[k])
    requires At(str, pos, Join(parts, sep)) && pos + |Join(parts, sep)| == |str|
    ensures SplitFrom(str, pos, sep) == parts
    decreases |parts|
  {
    var w := parts[0];
    var end := pos + |w|;
    if |parts| == 1 {
      assert str[pos..] == w;
    } else {
      assert Join(parts, sep) == w + ([sep] + Join(parts[1..], sep));
      AtConcat(str, pos, w, [sep] + Join(parts[1..], sep));
      AtConcat(str, end, [sep], Join(parts[1..], sep));
      assert str[end + 0] == [sep][0];
      assert str[pos..end] == w;
      SplitAt(str, end + 1, parts[1..], sep);
      assert parts == [w] + parts[1..];
    }
  }

  /** `Split` undoes `Join`. */
  lemma SplitJoin(parts: seq<string>, sep: char)
    requires parts != [] && forall k :: 0 <= k < |parts| ==> sep !in parts[k]
    ensures Split(Join(parts, sep), sep) == parts
  {
    var str := Join(parts, sep);
    forall i | 0 <= i < |str|
      ensures str[0 + i] == str[i]
    {
    }
    SplitAt(str, 0, parts, sep);
  }

  /** The rows read one by one, in order, stopping at the first failure. */
  function ParseRows(s: nat, parts: seq<string>): (r: Result<seq<seq<seq<Piece>>>>)
    ensures r.Ok? ==> |r.value| == |parts|
    ensures r.Ok? ==> forall k :: 0 <= k < |parts| ==> ParseRow(s, parts[k]) == Ok(r.value[k])
    ensures r.Err? ==> exists k :: 0 <= k < |parts| && ParseRow(s, parts[k]).Err?
    decreases |parts|
  {
    if parts == [] then Ok([])
    else match ParseRow(s, parts[0])
    case Err(f) => Err(RowFailure(f))
    case Ok(row) =>
      match ParseRows(s, parts[1..])
      case Err(f) =>
        ghost var k :| 0 <= k < |parts[1..]| && ParseRow(s, parts[1..][k]).Err?;
        assert ParseRow(s, parts[k + 1]).Err?;
        Err(f)
      case Ok(rest) => Ok([row] + rest)
  }

  /** A `parse_row` failure as `from_fen` passes it on: an error becomes its own parse error, a panic stays a panic. */
  function RowFailure(f: Failure): (g: Failure)
    ensures g.Panic? <==> f.Panic?
  {
    if f.Panic? then f else ParseError("Couldn't parse TPS string")
  }

  /** The first row that fails decides the failure of all of them. */
  lemma {:induction false} RowsFirstFailure(s: nat, parts: seq<string>, i: nat)
    requires i < |parts| && ParseRow(s, parts[i]).Err?
    requires forall j :: 0 <= j < i ==> ParseRow(s, parts[j]).Ok?
    ensures ParseRows(s, parts) == Err(RowFailure(ParseRow(s, parts[i]).failure))
    decreases i
  {
    if i > 0 {
      assert ParseRow(s, parts[0]).Ok?;
      forall j | 0 <= j < i - 1
        ensures ParseRow(s, parts[1..][j]).Ok?
      {
        assert parts[1..][j] == parts[j + 1];
      }
      RowsFirstFailure(s, parts[1..], i - 1);
    }
  }

  /** Every square is at a rank and file below `s`. */
  lemma AllRankFile(s: nat)
    requires s > 0
    ensures forall sq :: 0 <= sq < s * s ==> Rank(s, sq) < s && File(s, sq) < s
  {
    forall sq | 0 <= sq < s * s
      ensures Rank(s, sq) < s && File(s, sq) < s
    {
      RankFileOf(s, sq);
    }
  }

  /** The squares of the board from its rows: square `sq` gets the stack at its rank and file. */
  function Cells(s: nat, rows: seq<seq<seq<Piece>>>): (cells: seq<seq<Piece>>)
    requires s > 0 && |rows| == s && forall k :: 0 <= k < s ==> |rows[k]| == s
    ensures |cells| == s * s
    ensures forall sq :: 0 <= sq < s * s ==> Rank(s, sq) < s && File(s, sq) < s && cells[sq] == rows[Rank(s, sq)][File(s, sq)]
  {
    AllRankFile(s);
    seq(s * s, sq requires 0 <= sq < s * s => rows[Rank(s, sq)][File(s, sq)])
  }

  // ---------------------------------------------------------------------------
  // Reserves

  /** Whether a piece comes out of that reserve: the capstones when `caps`, else the stones, of colour `c`. */
  predicate Uses(p: Piece, c: Color, caps: bool)
  {
    p.Color() == c && (p.Role() == Cap) == caps
  }

  /** How many of the pieces come out of that reserve. */
  function Count(xs: seq<Piece>, c: Color, caps: bool): nat
  {
    if xs == [] then 0 else Count(xs[..|xs| - 1], c, caps) + (if Uses(xs[|xs| - 1], c, caps) then 1 else 0)
  }

  /** Every starting reserve covers what the pieces take out of it. */
  predicate Fits(s: nat, xs: seq<Piece>)
  {
    && Count(xs, White, false) <= StartingStones(s) && Count(xs, Black, false) <= StartingStones(s)
    && Count(xs, White, true) <= StartingCaps(s) && Count(xs, Black, true) <= StartingCaps(s)
  }

  /** `Board::default` with these squares, their pieces taken out of the reserves. */
  function Placed(s: nat, keys: Keys, cells: seq<seq<Piece>>): (p: Position)
    requires Fits(s, Concat(cells))
    ensures p.cells == cells
  {
    var xs := Concat(cells);
    Start(s, keys).(cells := cells,
                    whiteStones := StartingStones(s) - Count(xs, White, false),
                    blackStones := StartingStones(s) - Count(xs, Black, false),
                    whiteCaps := StartingCaps(s) - Count(xs, White, true),
                    blackCaps := StartingCaps(s) - Count(xs, Black, true))
  }

  /** Counting is additive over concatenation. */
  lemma {:induction false} CountConcat(xs: seq<Piece>, ys: seq<Piece>, c: Color, caps: bool)
    ensures Count(xs + ys, c, caps) == Count(xs, c, caps) + Count(ys, c, caps)
    decreases |ys|
  {
    if ys != [] {
      var n := |ys| - 1;
      assert (xs + ys)[..|xs + ys| - 1] == xs + ys[..n];
      CountConcat(xs, ys[..n], c, caps);
    } else {
      assert xs + ys == xs;
    }
  }

  /** The pieces in `xs` fall into the four reserves. */
  lemma {:induction false} CountAll(xs: seq<Piece>)
    ensures |xs| == Count(xs, White, false) + Count(xs, Black, false) + Count(xs, White, true) + Count(xs, Black, true)
  {
    if xs != [] {
      CountAll(xs[..|xs| - 1]);
    }
  }

  /** The concatenated squares hold all the pieces on the board. */
  lemma {:induction false} ConcatCount(cells: seq<seq<Piece>>)
    ensures |Concat(cells)| == PiecesOnBoard(cells)
  {
    if cells != [] {
      ConcatCount(cells[..|cells| - 1]);
    }
  }

  /** What fits the reserves after more pieces still fits before them. */
  lemma FitsPrefix(s: nat, xs: seq<Piece>, ys: seq<Piece>)
    ensures Fits(s, xs + ys) ==> Fits(s, xs)
  {
    CountConcat(xs, ys, White, false);
    CountConcat(xs, ys, Black, false);
    CountConcat(xs, ys, White, true);
    CountConcat(xs, ys, Black, true);
  }

  /** What fits the reserves with all the squares still fits with the first `k`. */
  lemma {:induction false} FitsSquares(s: nat, cells: seq<seq<Piece>>, k: nat)
    requires k <= |cells|
    ensures Fits(s, Concat(cells)) ==> Fits(s, Concat(cells[..k]))
    decreases |cells| - k
  {
    if k == |cells| {
      assert cells[..k] == cells;
    } else {
      FitsSquares(s, cells, k + 1);
      ConcatSnoc(cells, k);
      FitsPrefix(s, Concat(cells[..k]), cells[k]);
    }
  }

  /** Taking the pieces on the board out of full reserves keeps the count `do_move` checks. */
  lemma PlacedConserved(s: nat, keys: Keys, cells: seq<seq<Piece>>)
    requires Fits(s, Concat(cells))
    ensures Conserved(s, Placed(s, keys, cells))
  {
    ConcatCount(cells);
    CountAll(Concat(cells));
  }

  // ---------------------------------------------------------------------------
  // Side to move and move number

  /** The side-to-move word: `1` for White, `2` for Black. */
  function Side(w: string): (r: Option<Color>)
    ensures r == Some(White) <==> w == "1"
    ensures r == Some(Black) <==> w == "2"
  {
    if w == "1" then Some(White) else if w == "2" then Some(Black) else None
  }

  /** The largest `usize`, on a 64-bit target. */
  const UsizeMax: nat := 0xFFFF_FFFF_FFFF_FFFF

  predicate IsDigit(c: char)
  {
    '0' <= c <= '9'
  }

  predicate AllDigits(ds: string)
  {
    forall i :: 0 <= i < |ds| ==> IsDigit(ds[i])
  }

  /** The value of a string of decimal digits, most significant first. */
  function DecimalValue(ds: string): nat
    requires AllDigits(ds)
  {
    if ds == [] then 0 else DecimalValue(ds[..|ds| - 1]) * 10 + (ds[|ds| - 1] as int - '0' as int)
  }

  /**
   * `str::parse::<usize>`: an optional `+` (not alone), then at least one ASCII digit, and a
   * value no larger than `usize::MAX`. `from_fen` turns every failure into a parse error.
   */
  function ParseUsize(w: string): (r: Result<nat>)
    ensures r.Ok? ==> r.value <= UsizeMax
    ensures r.Err? ==> r.failure.ParseError?
  {
    var ds := if |w| > 1 && w[0] == '+' then w[1..] else w;
    if ds == [] then Err(ParseError("cannot parse integer from empty string"))
    else if !AllDigits(ds) then Err(ParseError("invalid digit found in string"))
    else if DecimalValue(ds) > UsizeMax then Err(ParseError("number too large to fit in target type"))
    else Ok(DecimalValue(ds))
  }

  /** `n` in decimal, as `to_string` prints it. */
  function DecimalString(n: nat): (r: string)
    ensures r != [] && AllDigits(r) && (r[0] == '0' ==> n == 0)
  {
    if n < 10 then [Notation.DigitChar(n)] else DecimalString(n / 10) + [Notation.DigitChar(n % 10)]
  }

  /** Reading a printed number gives it back. */
  lemma {:induction false} DecimalRoundTrip(n: nat)
    ensures DecimalValue(DecimalString(n)) == n
  {
    if n >= 10 {
      var r := DecimalString(n);
      assert r[..|r| - 1] == DecimalString(n / 10);
      DecimalRoundTrip(n / 10);
    }
  }

  /** `parse::<usize>` reads back every `usize` printed in decimal, with or without a `+`. */
  lemma ParseUsizeDecimal(n: nat)
    requires n <= UsizeMax
    ensures ParseUsize(DecimalString(n)) == Ok(n)
    ensures ParseUsize("+" + DecimalString(n)) == Ok(n)
  {
    DecimalRoundTrip(n);
    var d := DecimalString(n);
    assert ("+" + d)[1..] == d;
  }

  /**
   * The plies played before move `n` with `c` to move: `(n - 1) * 2`, one more for Black, in
   * `usize` arithmetic, which panics for move 0 and above `usize::MAX`.
   */
  function HalfMoves(n: nat, c: Color): (r: Result<nat>)
    requires n <= UsizeMax
    ensures r.Ok? <==> 1 <= n <= UsizeMax / 2 + 1
    ensures r.Err? ==> r.failure.Panic?
    ensures r.Ok? ==> r.value <= UsizeMax && r.value / 2 + 1 == n && (r.value % 2 == 1 <==> c == Black)
  {
    if n == 0 then Err(Panic("attempt to subtract with overflow"))
    else if (n - 1) * 2 > UsizeMax then Err(Panic("attempt to multiply with overflow"))
    else Ok((n - 1) * 2 + (if c == Black then 1 else 0))
  }

  // ---------------------------------------------------------------------------
  // The whole position

  /**
   * `from_fen` for size `s`. Its failures in order: the word count, the row count, the first
   * row that fails, then those of `FromRows`.
   */
  function FromFen(s: nat, keys: Keys, fen: string): (r: Result<Position>)
    requires ValidSize(s)
    ensures r.Ok? ==> ValidCells(s, r.value.cells) && Conserved(s, r.value)
    ensures r.Ok? ==> r.value.hash == HashOf(keys, r.value.cells, r.value.toMove)
    ensures r.Ok? ==> (r.value.halfMoves % 2 == 1 <==> r.value.toMove == Black)
  {
    var words := Words(fen);
    if |words| < 3 then Err(ParseError("Couldn't parse TPS string, missing move counter."))
    else if |words| > 3 then Err(ParseError("Couldn't parse TPS string, unexpected word"))
    else
      var parts := Split(words[0], '/');
      if |parts| != s then Err(ParseError("Couldn't parse TPS string, wrong number of rows"))
      else
        match ParseRows(s, parts)
        case Err(f) => Err(f)
        case Ok(rows) => FromRows(s, keys, rows, words[1], words[2])
  }

  /** Rows of `s` stacks each, `s` of them. */
  predicate ValidRows(s: nat, rows: seq<seq<seq<Piece>>>)
  {
    |rows| == s && forall k :: 0 <= k < s ==> ValidRow(s, rows[k])
  }

  /**
   * The rest of `from_fen` once the rows are read: the pieces come out of the reserves, where
   * a reserve that runs out panics, then the side to move and the move number are read.
   */
  function FromRows(s: nat, keys: Keys, rows: seq<seq<seq<Piece>>>, side: string, number: string): (r: Result<Position>)
    requires ValidSize(s) && ValidRows(s, rows)
    ensures r.Ok? ==> r.value.cells == Cells(s, rows) && ValidCells(s, r.value.cells) && Conserved(s, r.value)
    ensures r.Ok? ==> r.value.moves == [] && r.value.hashHistory == []
    ensures r.Ok? ==> r.value.hash == HashOf(keys, r.value.cells, r.value.toMove)
    ensures r.Ok? ==> (r.value.halfMoves % 2 == 1 <==> r.value.toMove == Black)
  {
    var cells := Cells(s, rows);
    if !Fits(s, Concat(cells)) then Err(Panic("attempt to subtract with overflow"))
    else
      PlacedConserved(s, keys, cells);
      SideAndMove(keys, Placed(s, keys, cells), side, number)
  }

  /**
   * The last part of `from_fen`: the side to move and the move number (as a count of plies)
   * are read, and the hash is computed from scratch; nothing else changes.
   */
  function SideAndMove(keys: Keys, p: Position, side: string, number: string): (r: Result<Position>)
    ensures r.Ok? ==> r.value == p.(toMove := r.value.toMove, halfMoves := r.value.halfMoves, hash := r.value.hash)
    ensures r.Ok? ==> r.value.hash == HashOf(keys, p.cells, r.value.toMove)
    ensures r.Ok? ==> (r.value.halfMoves % 2 == 1 <==> r.value.toMove == Black)
  {
    match Side(side)
    case None => Err(ParseError("Error parsing TPS: Got bad side to move"))
    case Some(c) =>
      match Plies(number, c)
      case Err(f) => Err(f)
      case Ok(h) => Ok(p.(toMove := c, halfMoves := h, hash := HashOf(keys, p.cells, c)))
  }

  /**
   * The move-number word as plies played with `c` to move: a number that does not parse is a
   * parse error, one `HalfMoves` cannot take panics.
   */
  function Plies(number: string, c: Color): (r: Result<nat>)
    ensures r.Ok? ==> r.value <= UsizeMax && (r.value % 2 == 1 <==> c == Black)
    ensures r.Ok? ==> ParseUsize(number) == Ok(r.value / 2 + 1)
  {
    match ParseUsize(number)
    case Err(_) => Err(ParseError("Error parsing TPS: Got bad move number"))
    case Ok(n) => HalfMoves(n, c)
  }

  /** On the path where the rows are read, `from_fen` is `FromRows` of them. */
  lemma FromFenRows(s: nat, keys: Keys, fen: string, words: seq<string>, parts: seq<string>, rows: seq<seq<seq<Piece>>>)
    requires ValidSize(s) && words == Words(fen) && |words| == 3
    requires parts == Split(words[0], '/') && |parts| == s && ParseRows(s, parts) == Ok(rows)
    ensures ValidRows(s, rows)
    ensures FromFen(s, keys, fen) == FromRows(s, keys, rows, words[1], words[2])
  {
  }

  /** `FromRows` panics when the reserves do not cover the pieces, and otherwise goes on from `Placed`. */
  lemma FromRowsPlaced(s: nat, keys: Keys, rows: seq<seq<seq<Piece>>>, side: string, number: string)
    requires ValidSize(s) && ValidRows(s, rows)
    ensures !Fits(s, Concat(Cells(s, rows))) ==> FromRows(s, keys, rows, side, number) == Err(Panic("attempt to subtract with overflow"))
    ensures Fits(s, Concat(Cells(s, rows))) ==> FromRows(s, keys, rows, side, number) == SideAndMove(keys, Placed(s, keys, Cells(s, rows)), side, number)
  {
  }

  // ---------------------------------------------------------------------------
  // The board

  /** Rows of `s` well-formed stacks each, `n` of them. */
  predicate StackRows(s: nat, rows: seq<seq<Stack>>, n: nat)
  {
    |rows| == n && forall k :: 0 <= k < n ==> |rows[k]| == s && forall j :: 0 <= j < s ==> rows[k][j].Valid()
  }

  /** The pieces of every stack of every row. */
  function RowsPieces(rows: seq<seq<Stack>>): (r: seq<seq<seq<Piece>>>)
    requires forall k :: 0 <= k < |rows| ==> forall j :: 0 <= j < |rows[k]| ==> rows[k][j].Valid()
    ensures |r| == |rows| && forall k :: 0 <= k < |rows| ==> r[k] == StackPieces(rows[k])
  {
    seq(|rows|, k requires 0 <= k < |rows| => StackPieces(rows[k]))
  }

  /** `fen_rows.into_iter().map(parse_row).collect()`: the rows as stacks, or the first failure. */
  method ReadRows(s: nat, parts: seq<string>) returns (r: Result<seq<seq<Stack>>>)
    ensures r.Ok? ==> StackRows(s, r.value, |parts|) && ParseRows(s, parts) == Ok(RowsPieces(r.value))
    ensures r.Err? ==> ParseRows(s, parts) == Err(r.failure)
  {
    var rows: seq<seq<Stack>> := [];
    var i := 0;
    while i < |parts|
      invariant i <= |parts| && StackRows(s, rows, i)
      invariant forall k :: 0 <= k < i ==> ParseRow(s, parts[k]) == Ok(StackPieces(rows[k]))
    {
      var row := ParseRowLoop(s, parts[i]);
      if row.Err? {
        RowsFirstFailure(s, parts, i);
        return Err(RowFailure(row.failure));
      }
      rows := rows + [row.value];
      i := i + 1;
    }
    var all := ParseRows(s, parts);
    assert all.value == RowsPieces(rows);
    return Ok(rows);
  }

  /** One piece out of its reserve: 1 for the reserve it comes out of, 0 for the others. */
  function Take(p: Piece, c: Color, caps: bool): int
  {
    if Uses(p, c, caps) then 1 else 0
  }

  /** The reserves `ws`, `bs`, `wc` and `bc` are what is left of the starting ones once `xs` are out. */
  predicate Left(s: nat, xs: seq<Piece>, ws: int, bs: int, wc: int, bc: int)
  {
    && ws + Count(xs, White, false) == StartingStones(s)
    && bs + Count(xs, Black, false) == StartingStones(s)
    && wc + Count(xs, White, true) == StartingCaps(s)
    && bc + Count(xs, Black, true) == StartingCaps(s)
  }

  /** The reserves of the board once the pieces `xs` are out of the starting ones. */
  ghost predicate Remaining(b: Board, xs: seq<Piece>)
    reads b
  {
    Left(b.s, xs, b.whiteStones, b.blackStones, b.whiteCaps, b.blackCaps)
  }

  /** Reserves left after all the squares are what `Placed` says. */
  lemma LeftPlaced(s: nat, keys: Keys, cells: seq<seq<Piece>>, ws: nat, bs: nat, wc: nat, bc: nat)
    requires Left(s, Concat(cells), ws, bs, wc, bc)
    ensures Fits(s, Concat(cells))
    ensures Placed(s, keys, cells) == Start(s, keys).(cells := cells, whiteStones := ws, blackStones := bs, whiteCaps := wc, blackCaps := bc)
  {
  }

  /** Taking one more piece out of its reserve. */
  lemma TakeOne(s: nat, ys: seq<Piece>, p: Piece, ws: int, bs: int, wc: int, bc: int)
    requires Left(s, ys, ws, bs, wc, bc)
    ensures Left(s, ys + [p], ws - Take(p, White, false), bs - Take(p, Black, false),
                 wc - Take(p, White, true), bc - Take(p, Black, true))
  {
    assert (ys + [p])[..|ys|] == ys;
  }

  /**
   * The `match piece` of the square loop of `from_fen`: the piece comes out of its owner's
   * reserve, and `ok` is false when that reserve is empty, where the subtraction panics.
   */
  method TakePiece(b: Board, p: Piece, ghost ys: seq<Piece>) returns (ok: bool)
    requires Left(b.s, ys, b.whiteStones, b.blackStones, b.whiteCaps, b.blackCaps)
    modifies b`whiteStones, b`blackStones, b`whiteCaps, b`blackCaps
    ensures ok ==> Left(b.s, ys + [p], b.whiteStones, b.blackStones, b.whiteCaps, b.blackCaps)
    ensures !ok ==> !Fits(b.s, ys + [p])
  {
    TakeOne(b.s, ys, p, b.whiteStones, b.blackStones, b.whiteCaps, b.blackCaps);
    match p {
      case WhiteFlat | WhiteWall =>
        if b.whiteStones == 0 {
          return false;
        }
        b.whiteStones := b.whiteStones - 1;
      case WhiteCap =>
        if b.whiteCaps == 0 {
          return false;
        }
        b.whiteCaps := b.whiteCaps - 1;
      case BlackFlat | BlackWall =>
        if b.blackStones == 0 {
          return false;
        }
        b.blackStones := b.blackStones - 1;
      case BlackCap =>
        if b.blackCaps == 0 {
          return false;
        }
        b.blackCaps := b.blackCaps - 1;
    }
    return true;
  }

  /** The first `k + 1` of `ps` after `xs`, one at a time, and all of them. */
  lemma PrefixSnoc<T>(xs: seq<T>, ps: seq<T>, k: nat)
    requires k < |ps|
    ensures xs + ps[..k + 1] == (xs + ps[..k]) + [ps[k]]
    ensures xs + ps == (xs + ps[..k + 1]) + ps[k + 1..]
  {
    assert ps == ps[..k + 1] + ps[k + 1..];
  }

  /**
   * The inner loop of the square loop of `from_fen`: each piece of the stack, from the bottom,
   * comes out of its owner's reserve; taking from an empty reserve panics.
   */
  method TakeStack(b: Board, st: Stack, ghost xs: seq<Piece>) returns (err: Option<Failure>)
    requires st.Valid() && Left(b.s, xs, b.whiteStones, b.blackStones, b.whiteCaps, b.blackCaps)
    modifies b`whiteStones, b`blackStones, b`whiteCaps, b`blackCaps
    ensures err.None? ==> Left(b.s, xs + st.Pieces(), b.whiteStones, b.blackStones, b.whiteCaps, b.blackCaps)
    ensures err.Some? ==> err.value == Panic("attempt to subtract with overflow") && !Fits(b.s, xs + st.Pieces())
  {
    ghost var ps := st.Pieces();
    var k := 0;
    assert xs + ps[..0] == xs;
    while k < st.height
      invariant k <= st.height && Left(b.s, xs + ps[..k], b.whiteStones, b.blackStones, b.whiteCaps, b.blackCaps)
      decreases st.height - k
    {
      GetPieces(st, k);
      var p := st.Get(k).value;
      var ok := TakePiece(b, p, xs + ps[..k]);
      PrefixSnoc(xs, ps, k);
      if !ok {
        FitsPrefix(b.s, xs + ps[..k + 1], ps[k + 1..]);
        return Some(Panic("attempt to subtract with overflow"));
      }
      k := k + 1;
    }
    assert ps[..k] == ps;
    return None;
  }

  /** The squares of the board from rows of stacks. */
  ghost function RowCells(s: nat, rows: seq<seq<Stack>>): (cells: seq<seq<Piece>>)
    requires ValidSize(s) && StackRows(s, rows, s)
    ensures |cells| == s * s
  {
    Cells(s, RowsPieces(rows))
  }

  /** Square `sq` holds the stack at its rank and file. */
  lemma RowCellsAt(s: nat, rows: seq<seq<Stack>>, sq: nat)
    requires ValidSize(s) && StackRows(s, rows, s) && sq < s * s
    ensures sq / s < s && sq % s < s && rows[sq / s][sq % s].Pieces() == RowCells(s, rows)[sq]
  {
    RankFileOf(s, sq);
  }

  /**
   * The square loop of `from_fen`: square by square, the stack at the square's rank and file
   * comes out of the reserves and is set on the square.
   */
  method PlaceRows(b: Board, rows: seq<seq<Stack>>) returns (err: Option<Failure>)
    requires b.Valid() && StackRows(b.s, rows, b.s) && b.Snapshot() == Start(b.s, b.keys)
    modifies b`whiteStones, b`blackStones, b`whiteCaps, b`blackCaps, b.cells
    ensures b.Valid()
    ensures err.Some? ==> err.value == Panic("attempt to subtract with overflow") && !Fits(b.s, Concat(RowCells(b.s, rows)))
    ensures err.None? ==> Fits(b.s, Concat(RowCells(b.s, rows)))
    ensures err.None? ==> b.Snapshot() == Placed(b.s, b.keys, RowCells(b.s, rows))
  {
    var s := b.s;
    ghost var cells := RowCells(s, rows);
    var sq := 0;
    assert cells[..0] == [];
    while sq < s * s
      invariant sq <= s * s && b.Valid()
      invariant Left(s, Concat(cells[..sq]), b.whiteStones, b.blackStones, b.whiteCaps, b.blackCaps)
      invariant b.Pieces()[..sq] == cells[..sq]
    {
      RowCellsAt(s, rows, sq);
      var st := rows[sq / s][sq % s];
      err := PlaceSquare(b, st, sq, cells);
      if err.Some? {
        return;
      }
      sq := sq + 1;
    }
    assert cells[..sq] == cells;
    assert b.Pieces()[..sq] == b.Pieces();
    LeftPlaced(s, b.keys, cells, b.whiteStones, b.blackStones, b.whiteCaps, b.blackCaps);
    return None;
  }

  /** One pass of the square loop of `from_fen`: the stack comes out of the reserves and is set on square `sq`. */
  method PlaceSquare(b: Board, st: Stack, sq: nat, ghost cells: seq<seq<Piece>>) returns (err: Option<Failure>)
    requires b.Valid() && sq < |cells| == b.s * b.s && st.Valid() && st.Pieces() == cells[sq]
    requires Left(b.s, Concat(cells[..sq]), b.whiteStones, b.blackStones, b.whiteCaps, b.blackCaps)
    requires b.Pieces()[..sq] == cells[..sq]
    modifies b`whiteStones, b`blackStones, b`whiteCaps, b`blackCaps, b.cells
    ensures b.Valid()
    ensures err.Some? ==> err.value == Panic("attempt to subtract with overflow") && !Fits(b.s, Concat(cells))
    ensures err.None? ==> Left(b.s, Concat(cells[..sq + 1]), b.whiteStones, b.blackStones, b.whiteCaps, b.blackCaps)
    ensures err.None? ==> b.Pieces()[..sq + 1] == cells[..sq + 1]
  {
    err := TakeStack(b, st, Concat(cells[..sq]));
    ConcatSnoc(cells, sq);
    if err.Some? {
      FitsSquares(b.s, cells, sq + 1);
      return;
    }
    StoreSquare(b, st, sq, cells);
  }

  /** `board[square] = stack`: the squares up to `sq` now hold the first `sq + 1` of `cells`. */
  method StoreSquare(b: Board, st: Stack, sq: nat, ghost cells: seq<seq<Piece>>)
    requires b.Valid() && sq < |cells| == b.s * b.s && st.Valid() && st.Pieces() == cells[sq]
    requires b.Pieces()[..sq] == cells[..sq]
    modifies b.cells
    ensures b.Valid() && b.Pieces()[..sq + 1] == cells[..sq + 1]
  {
    ghost var before := b.Pieces();
    b.StoreOne(sq, st);
    assert b.Pieces()[..sq + 1] == before[..sq] + [cells[sq]];
  }

  /** The move number of `from_fen`: `(n - 1) * 2`, plus one with Black to move. */
  method ReadPlies(number: string, c: Color) returns (r: Result<nat>)
    ensures r == Plies(number, c)
  {
    var n := ParseUsize(number);
    if n.Err? {
      return Err(ParseError("Error parsing TPS: Got bad move number"));
    }
    if n.value == 0 {
      return Err(Panic("attempt to subtract with overflow"));
    }
    if (n.value - 1) * 2 > UsizeMax {
      return Err(Panic("attempt to multiply with overflow"));
    }
    r := Ok(if c == White then (n.value - 1) * 2 else (n.value - 1) * 2 + 1);
  }

  /**
   * The end of `from_fen`: the side to move and the move number are read into the board, and
   * the hash is computed from scratch.
   */
  method ReadSideAndMove(b: Board, side: string, number: string, ghost p: Position) returns (err: Option<Failure>)
    requires b.Valid() && b.Snapshot() == p
    modifies b`toMove, b`halfMoves, b`hash
    ensures b.Valid()
    ensures err.None? ==> SideAndMove(b.keys, p, side, number) == Ok(b.Snapshot())
    ensures err.Some? ==> SideAndMove(b.keys, p, side, number) == Err(err.value)
  {
    if side == "1" {
      b.toMove := White;
    } else if side == "2" {
      b.toMove := Black;
    } else {
      return Some(ParseError("Error parsing TPS: Got bad side to move"));
    }
    var plies := ReadPlies(number, b.toMove);
    if plies.Err? {
      return Some(plies.failure);
    }
    b.halfMoves := plies.value;
    b.hash := b.HashFromScratch();
    return None;
  }

  /** `from_fen` for size `s`, building the board in place. */
  method BoardFromFen(s: nat, keys: Keys, fen: string) returns (r: Result<Board>)
    requires ValidSize(s)
    ensures r.Ok? ==> r.value.Valid() && FromFen(s, keys, fen) == Ok(r.value.Snapshot())
    ensures r.Err? ==> FromFen(s, keys, fen) == Err(r.failure)
  {
    var words := Words(fen);
    if |words| < 3 {
      assert FromFen(s, keys, fen) == Err(ParseError("Couldn't parse TPS string, missing move counter."));
      return Err(ParseError("Couldn't parse TPS string, missing move counter."));
    }
    if |words| > 3 {
      assert FromFen(s, keys, fen) == Err(ParseError("Couldn't parse TPS string, unexpected word"));
      return Err(ParseError("Couldn't parse TPS string, unexpected word"));
    }
    var parts := Split(words[0], '/');
    if |parts| != s {
      assert FromFen(s, keys, fen) == Err(ParseError("Couldn't parse TPS string, wrong number of rows"));
      return Err(ParseError("Couldn't parse TPS string, wrong number of rows"));
    }
    var rows := ReadRows(s, parts);
    if rows.Err? {
      assert FromFen(s, keys, fen) == Err(rows.failure);
      return Err(rows.failure);
    }
    ghost var pieces := RowsPieces(rows.value);
    FromFenRows(s, keys, fen, words, parts, pieces);
    FromRowsPlaced(s, keys, pieces, words[1], words[2]);
    var b := new Board.Default(s, keys);
    var err := PlaceRows(b, rows.value);
    if err.Some? {
      assert !Fits(s, Concat(Cells(s, pieces)));
      return Err(err.value);
    }
    ghost var placed := b.Snapshot();
    assert placed == Placed(s, keys, Cells(s, pieces));
    err := ReadSideAndMove(b, words[1], words[2], placed);
    if err.Some? {
      assert FromFen(s, keys, fen) == SideAndMove(keys, placed, words[1], words[2]);
      return Err(err.value);
    }
    return Ok(b);
  }
}
