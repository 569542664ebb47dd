/**
 * Reading a position from TPS (`from_fen` and its inner `parse_row` in board.rs). A TPS string
 * is three words: the rows of the board from rank 0 (printed as `S`) down, separated by `/`,
 * the side to move (`1` or `2`) and the move number. Within a row, squares are separated by
 * `,`; an empty square is `x`, and `x` followed by a digit skips that many squares; a stack is
 * the colours of its pieces from the bottom (`1` white, `2` black), then `S` or `C` when its
 * top is a wall or a capstone.
 */
module Tps {
  import opened Wrappers
  import opened Pieces
  import opened Squares
  import opened Stacks
  import opened Zobrist
  import opened Spreads
  import opened Positions
  import opened Seqs
  import opened Boards

  // ---------------------------------------------------------------------------
  // One row

  /** The flat of the colour a stack digit stands for. */
  function DigitFlat(c: char): Piece
  {
    FromRoleColor(Flat, if c == '1' then White else Black)
  }

  /** What `Stack::push` does to the pieces of a stack (`PushPieces`): the old top flattens. */
  function PushPiece(ps: seq<Piece>, p: Piece): (r: seq<Piece>)
    requires StackShape(ps) && |ps| < MaxHeight
    ensures StackShape(r) && |r| == |ps| + 1
  {
    AppendShape(ps, [p]);
    FlattenTop(ps) + [p]
  }

  /**
   * The `loop` that reads one stack onto the pieces `ps` from position `pos`, up to the `,`
   * that ends it (consumed) or the end of the row. A digit pushes a flat of its colour; `S`
   * and `C` pop the top and push a wall or a capstone of its colour. Returns the pieces and the
   * position after the stack.
   */
  function StackFrom(str: string, pos: nat, ps: seq<Piece>): (r: Result<(seq<Piece>, int)>)
    requires pos <= |str| && StackShape(ps)
    ensures r.Ok? ==> StackShape(r.value.0) && pos <= r.value.1 <= |str|
    ensures r.Ok? && pos < |str| ==> pos < r.value.1
    decreases |str| - pos
  {
    if pos == |str| then Ok((ps, pos))
    else
      var c := str[pos];
      if c == '1' || c == '2' then
        if |ps| >= MaxHeight then Err(Panic("stack too high for its layer word"))
        else StackFrom(str, pos + 1, PushPiece(ps, DigitFlat(c)))
      else if c == 'S' || c == 'C' then
        if ps == [] then Err(Panic("called `Option::unwrap()` on a `None` value"))
        else StackFrom(str, pos + 1, Retop(ps, c))
      else if c == ',' then Ok((ps, pos + 1))
      else Err(ParseError("Expected '1', '2', 'S' or 'C'"))
  }

  /** `S` or `C`: `pop` the top, then `push` a wall or a capstone of its colour. */
  function Retop(ps: seq<Piece>, c: char): (r: seq<Piece>)
    requires StackShape(ps) && ps != []
    ensures StackShape(r) && |r| == |ps|
  {
    PushPiece(ps[..|ps| - 1], FromRoleColor(if c == 'S' then Wall else Cap, ps[|ps| - 1].Color()))
  }

  /** `S` stacks that each fit the layer word. */
  predicate ValidRow(s: nat, row: seq<seq<Piece>>)
  {
    |row| == s && forall i :: 0 <= i < |row| ==> StackShape(row[i])
  }

  /**
   * The `while column_id < S` loop of `parse_row` from column `col` and position `pos` on.
   * Input after the last column is ignored; `x` with a digit may skip past it.
   */
  function RowFrom(s: nat, str: string, pos: nat, col: nat, row: seq<seq<Piece>>): (r: Result<seq<seq<Piece>>>)
    requires pos <= |str| && ValidRow(s, row)
    ensures r.Ok? ==> ValidRow(s, r.value)
    decreases |str| - pos
  {
    if col >= s then Ok(row)
    else if pos == |str| then Err(ParseError("Couldn't parse row: not enough pieces"))
    else if str[pos] == 'x' then
      var counted := pos + 1 < |str| && '0' <= str[pos + 1] <= '9';
      var skip := if counted then str[pos + 1] as int - '0' as int else 1;
      var next := if counted then pos + 2 else pos + 1;
      if next == |str| then RowFrom(s, str, next, col + skip, row)
      else if str[next] == ',' then RowFrom(s, str, next + 1, col + skip, row)
      else Err(ParseError("Expected ','"))
    else if str[pos] == '1' || str[pos] == '2' then
      match StackFrom(str, pos, row[col])
      case Err(e) => Err(e)
      case Ok((ps, next)) => RowFrom(s, str, next, col + 1, row[col := ps])
    else Err(ParseError("Unexpected character in row"))
  }

  function EmptyRow(s: nat): (r: seq<seq<Piece>>)
    ensures ValidRow(s, r)
  {
    seq(s, _ => [])
  }

  /** `parse_row`: the pieces of the `S` stacks of one row. */
  function ParseRow(s: nat, str: string): (r: Result<seq<seq<Piece>>>)
    ensures r.Ok? ==> ValidRow(s, r.value)
  {
    RowFrom(s, str, 0, 0, EmptyRow(s))
  }

  /** The pieces of the stacks of a parse, if it succeeded. */
  function RowPieces(r: Result<seq<Stack>>): Result<seq<seq<Piece>>>
    requires r.Ok? ==> forall i :: 0 <= i < |r.value| ==> r.value[i].Valid()
  {
    match r
    case Ok(sts) => Ok(StackPieces(sts))
    case Err(e) => Err(e)
  }

  /** `parse_row`, with the row as an array of stacks. */
  method ParseRowLoop(s: nat, str: string) returns (r: Result<seq<Stack>>)
    ensures r.Ok? ==> |r.value| == s && forall i :: 0 <= i < s ==> r.value[i].Valid()
    ensures RowPieces(r) == ParseRow(s, str)
  {
    var row := new Stack[s](_ => EmptyStack);
    ghost var cells := EmptyRow(s);
    var col: nat := 0;
    var pos: nat := 0;
    while col < s
      invariant pos <= |str| && ValidRow(s, cells) && Holds(row, cells)
      invariant RowFrom(s, str, pos, col, cells) == ParseRow(s, str)
      decreases |str| - pos
    {
      if pos == |str| {
        return Err(ParseError("Couldn't parse row: not enough pieces"));
      }
      var err;
      err, pos, col, cells := ReadSquare(s, str, pos, col, row, cells);
      if err.Some? {
        return Err(err.value);
      }
    }
    assert StackPieces(row[..]) == cells;
    return Ok(row[..]);
  }

  /** The stacks in `row` have the pieces `cells`. */
  ghost predicate Holds(row: array<Stack>, cells: seq<seq<Piece>>)
    reads row
  {
    row.Length == |cells| && forall i :: 0 <= i < row.Length ==> row[i].Valid() && row[i].Pieces() == cells[i]
  }

  /**
   * One pass of the `while` loop of `parse_row`: an `x` square (skipping columns) or a stack
   * read into column `col`. On success the loop goes on from the new position and column.
   */
  method ReadSquare(s: nat, str: string, pos: nat, col: nat, row: array<Stack>, ghost cells: seq<seq<Piece>>)
    returns (err: Option<Failure>, pos': nat, col': nat, ghost cells': seq<seq<Piece>>)
    requires pos < |str| && col < s && ValidRow(s, cells) && Holds(row, cells)
    modifies row
    ensures err.None? ==> pos < pos' <= |str| && ValidRow(s, cells') && Holds(row, cells')
    ensures err.None? ==> RowFrom(s, str, pos', col', cells') == RowFrom(s, str, pos, col, cells)
    ensures err.Some? ==> RowFrom(s, str, pos, col, cells) == Err(err.value)
  {
    cells' := cells;
    if str[pos] == 'x' {
      err, pos', col' := SkipEmpty(s, str, pos, col, cells);
    } else if str[pos] == '1' || str[pos] == '2' {
      RowFromStack(s, str, pos, col, cells);
      var stack, next := StackLoop(str, pos, row[col]);
      if stack.Err? {
        return Some(stack.failure), pos, col, cells';
      }
      row[col] := stack.value;
      cells' := cells[col := stack.value.Pieces()];
      err, pos', col' := None, next, col + 1;
    } else {
      err, pos', col' := Some(ParseError("Unexpected character in row")), pos, col;
    }
  }

  /** An `x` square: the columns it skips, then the `,` after it or the end of the row. */
  method SkipEmpty(s: nat, str: string, pos: nat, col: nat, ghost cells: seq<seq<Piece>>)
    returns (err: Option<Failure>, pos': nat, col': nat)
    requires pos < |str| && str[pos] == 'x' && col < s && ValidRow(s, cells)
    ensures err.None? ==> pos < pos' <= |str|
    ensures err.None? ==> RowFrom(s, str, pos', col', cells) == RowFrom(s, str, pos, col, cells)
    ensures err.Some? ==> RowFrom(s, str, pos, col, cells) == Err(err.value)
  {
    RowFromEmpty(s, str, pos, col, cells);
    pos' := pos + 1;
    if pos' < |str| && '0' <= str[pos'] <= '9' {
      col' := col + (str[pos'] as int - '0' as int);
      pos' := pos' + 1;
    } else {
      col' := col + 1;
    }
    if pos' < |str| {
      if str[pos'] == ',' {
        pos' := pos' + 1;
      } else {
        return Some(ParseError("Expected ','")), pos', col';
      }
    }
    err := None;
  }

  /** One `x` square, with or without a count: skip the columns, then the `,` or the end. */
  lemma RowFromEmpty(s: nat, str: string, pos: nat, col: nat, row: seq<seq<Piece>>)
    requires pos < |str| && str[pos] == 'x' && col < s && ValidRow(s, row)
    ensures var counted := pos + 1 < |str| && '0' <= str[pos + 1] <= '9';
            var skip := if counted then str[pos + 1] as int - '0' as int else 1;
            var next := if counted then pos + 2 else pos + 1;
            RowFrom(s, str, pos, col, row) ==
              if next == |str| then RowFrom(s, str, next, col + skip, row)
              else if str[next] == ',' then RowFrom(s, str, next + 1, col + skip, row)
              else Err(ParseError("Expected ','"))
  {
  }

  /** One stack square: the stack read from `pos` goes into column `col`. */
  lemma RowFromStack(s: nat, str: string, pos: nat, col: nat, row: seq<seq<Piece>>)
    requires pos < |str| && (str[pos] == '1' || str[pos] == '2') && col < s && ValidRow(s, row)
    ensures StackFrom(str, pos, row[col]).Err? ==>
              RowFrom(s, str, pos, col, row) == Err(StackFrom(str, pos, row[col]).failure)
    ensures StackFrom(str, pos, row[col]).Ok? ==>
              var (ps, next) := StackFrom(str, pos, row[col]).value;
              RowFrom(s, str, pos, col, row) == RowFrom(s, str, next, col + 1, row[col := ps])
  {
  }

  /** The inner `loop` of `parse_row`: reads one stack from `start` on. */
  method StackLoop(str: string, start: nat, st: Stack) returns (r: Result<Stack>, pos: nat)
    requires start <= |str| && st.Valid()
    ensures r.Ok? ==> r.value.Valid()
    ensures r.Ok? ==> StackFrom(str, start, st.Pieces()) == Ok((r.value.Pieces(), pos as int))
    ensures r.Err? ==> StackFrom(str, start, st.Pieces()) == Err(r.failure)
  {
    PiecesShape(st);
    var stack := st;
    pos := start;
    while pos < |str|
      invariant start <= pos <= |str| && stack.Valid() && StackShape(stack.Pieces())
      invariant StackFrom(str, pos, stack.Pieces()) == StackFrom(str, start, st.Pieces())
      decreases |str| - pos
    {
      var c := str[pos];
      pos := pos + 1;
      if c == '1' || c == '2' {
        if stack.height >= MaxHeight {
          return Err(Panic("stack too high for its layer word")), pos;
        }
        PushPieces(stack, DigitFlat(c));
        stack := stack.Push(DigitFlat(c));
      } else if c == 'S' || c == 'C' {
        if stack.height == 0 {
          return Err(Panic("called `Option::unwrap()` on a `None` value")), pos;
        }
        var (below, top) := stack.Pop();
        PopPieces(stack);
        var piece := FromRoleColor(if c == 'S' then Wall else Cap, top.value.Color());
        PushPieces(below, piece);
        stack := below.Push(piece);
      } else if c == ',' {
        return Ok(stack), pos;
      } else {
        return Err(ParseError("Expected '1', '2', 'S' or 'C'")), pos;
      }
      PiecesShape(stack);
    }
    return Ok(stack), pos;
  }

  // ---------------------------------------------------------------------------
  // Printing a row: the inverse the parser is checked against

  function ColorDigit(p: Piece): char
  {
    if p.Color() == White then '1' else '2'
  }

  function ColorDigits(ps: seq<Piece>): (r: string)
    ensures |r| == |ps|
  {
    seq(|ps|, i requires 0 <= i < |ps| => ColorDigit(ps[i]))
  }

  function RoleSuffix(p: Piece): string
  {
    if p.Role() == Wall then "S" else if p.Role() == Cap then "C" else ""
  }

  /** A square in TPS: `x` when empty, else the colours from the bottom and the top's role letter. */
  function SquareString(ps: seq<Piece>): (r: string)
    ensures r != []
  {
    if ps == [] then "x" else ColorDigits(ps) + RoleSuffix(ps[|ps| - 1])
  }

  /** The squares of a row, separated by `,`. */
  function RowString(cells: seq<seq<Piece>>): string
    requires cells != []
    decreases |cells|
  {
    if |cells| == 1 then SquareString(cells[0]) else SquareString(cells[0]) + "," + RowString(cells[1..])
  }

  predicate AllFlat(ps: seq<Piece>)
  {
    forall i :: 0 <= i < |ps| ==> ps[i].Role() == Flat
  }

  /** The flats of the colours of `qs`: what the digits of a stack push. */
  function Flats(qs: seq<Piece>): (r: seq<Piece>)
    ensures |r| == |qs| && AllFlat(r)
  {
    seq(|qs|, i requires 0 <= i < |qs| => FlatOf(qs[i]))
  }

  /** `w` is written in `str` from position `pos` on. */
  predicate At(str: string, pos: nat, w: string)
  {
    pos + |w| <= |str| && forall i :: 0 <= i < |w| ==> str[pos + i] == w[i]
  }

  /** Where a printed square ends: the end of the row, or the `,` before the next square. */
  predicate Ended(str: string, end: nat)
  {
    end == |str| || (end < |str| && str[end] == ',')
  }

  /** The position after a square and the `,` that ends it, if any. */
  function After(str: string, end: nat): nat
  {
    if end == |str| then end else end + 1
  }

  /** Reading colour digits onto flats pushes one flat per digit. */
  lemma {:induction false} DigitsRead(str: string, pos: nat, qs: seq<Piece>, ps: seq<Piece>, end: nat)
    requires end == pos + |qs| <= |str| && forall i :: 0 <= i < |qs| ==> str[pos + i] == ColorDigit(qs[i])
    requires AllFlat(ps) && |ps| + |qs| <= MaxHeight
    ensures StackFrom(str, pos, ps) == StackFrom(str, end, ps + Flats(qs))
    decreases |qs|
  {
    if qs == [] {
      assert ps + Flats(qs) == ps;
    } else {
      FlattenFlats(ps);
      assert DigitFlat(ColorDigit(qs[0])) == FlatOf(qs[0]);
      var next := ps + [FlatOf(qs[0])];
      assert StackFrom(str, pos, ps) == StackFrom(str, pos + 1, next);
      assert forall i :: 0 <= i < |qs| - 1 ==> str[pos + 1 + i] == ColorDigit(qs[1..][i]) by {
        forall i | 0 <= i < |qs| - 1
          ensures str[pos + 1 + i] == ColorDigit(qs[1..][i])
        {
          assert str[pos + (i + 1)] == ColorDigit(qs[i + 1]);
        }
      }
      DigitsRead(str, pos + 1, qs[1..], next, end);
      FlatsCons(qs);
      AppendAssoc(ps, [FlatOf(qs[0])], Flats(qs[1..]));
    }
  }

  lemma FlatsCons(qs: seq<Piece>)
    requires qs != []
    ensures Flats(qs) == [FlatOf(qs[0])] + Flats(qs[1..])
  {
  }

  /** Flattening the top of a sequence of flats changes nothing. */
  lemma FlattenFlats(ps: seq<Piece>)
    requires AllFlat(ps)
    ensures FlattenTop(ps) == ps
  {
    if ps != [] {
      FromRoleColorOfPiece(ps[|ps| - 1]);
    }
  }

  /** Below its top a stack is the flats of its own colours. */
  lemma FlatsBelowTop(ps: seq<Piece>)
    requires ps != [] && StackShape(ps)
    ensures Flats(ps)[..|ps| - 1] == ps[..|ps| - 1]
  {
    forall i | 0 <= i < |ps| - 1
      ensures Flats(ps)[i] == ps[i]
    {
      FromRoleColorOfPiece(ps[i]);
    }
  }

  /** After the digits of a stack with a flat on top: the end of the square. */
  lemma FlatTopRead(str: string, pos: nat, ps: seq<Piece>, flats: seq<Piece>, end: nat)
    requires ps != [] && StackShape(ps) && ps[|ps| - 1].Role() == Flat && flats == Flats(ps)
    requires end == pos && Ended(str, end)
    ensures StackFrom(str, pos, flats) == Ok((ps, After(str, end) as int))
  {
    var n := |ps|;
    FlatsBelowTop(ps);
    FromRoleColorOfPiece(ps[n - 1]);
    assert ps == ps[..n - 1] + [ps[n - 1]];
    assert flats == flats[..n - 1] + [flats[n - 1]];
  }

  /** After the digits of a stack with a wall or a capstone on top: its letter, then the end. */
  lemma RoleTopRead(str: string, pos: nat, ps: seq<Piece>, flats: seq<Piece>, end: nat)
    requires ps != [] && StackShape(ps) && ps[|ps| - 1].Role() != Flat && flats == Flats(ps)
    requires pos < |str| && str[pos] == RoleSuffix(ps[|ps| - 1])[0] && end == pos + 1 && Ended(str, end)
    ensures StackFrom(str, pos, flats) == Ok((ps, After(str, end) as int))
  {
    var n := |ps|;
    var top := ps[n - 1];
    FlatsBelowTop(ps);
    FromRoleColorOfPiece(top);
    FlattenFlats(ps[..n - 1]);
    assert ps == ps[..n - 1] + [top];
    assert Retop(flats, str[pos]) == ps;
    assert StackFrom(str, pos, flats) == StackFrom(str, pos + 1, ps);
  }

  /** A printed stack is its colour digits, then the role letter of its top. */
  lemma SquareLayout(str: string, pos: nat, ps: seq<Piece>)
    requires ps != [] && At(str, pos, SquareString(ps))
    ensures forall i :: 0 <= i < |ps| ==> str[pos + i] == ColorDigit(ps[i])
    ensures ps[|ps| - 1].Role() == Flat ==> |SquareString(ps)| == |ps|
    ensures ps[|ps| - 1].Role() != Flat ==>
              |SquareString(ps)| == |ps| + 1 && str[pos + |ps|] == RoleSuffix(ps[|ps| - 1])[0]
  {
    var n := |ps|;
    var w := SquareString(ps);
    forall i | 0 <= i < n
      ensures str[pos + i] == ColorDigit(ps[i])
    {
      assert w[i] == ColorDigits(ps)[i];
    }
    if ps[n - 1].Role() != Flat {
      assert w[n] == RoleSuffix(ps[n - 1])[0];
    }
  }

  /** A stack printed by `SquareString` reads back as the same pieces. */
  lemma StackRoundTrip(str: string, pos: nat, ps: seq<Piece>, end: nat)
    requires ps != [] && StackShape(ps)
    requires At(str, pos, SquareString(ps)) && end == pos + |SquareString(ps)| && Ended(str, end)
    ensures StackFrom(str, pos, []) == Ok((ps, After(str, end) as int))
  {
    SquareLayout(str, pos, ps);
    DigitsRead(str, pos, ps, [], pos + |ps|);
    if ps[|ps| - 1].Role() == Flat {
      FlatTopRead(str, pos + |ps|, ps, [] + Flats(ps), end);
    } else {
      RoleTopRead(str, pos + |ps|, ps, [] + Flats(ps), end);
    }
  }

  /** Text written at `pos` is its two parts, one after the other. */
  lemma AtConcat(str: string, pos: nat, a: string, b: string)
    requires At(str, pos, a + b)
    ensures At(str, pos, a) && At(str, pos + |a|, b)
  {
    forall i | 0 <= i < |a|
      ensures str[pos + i] == a[i]
    {
      assert (a + b)[i] == a[i];
    }
    forall i | 0 <= i < |b|
      ensures str[pos + |a| + i] == b[i]
    {
      assert (a + b)[|a| + i] == b[i];
    }
  }

  /** A printed row: the first square, then either the end or a `,` and the rest of the row. */
  lemma RowLayout(str: string, pos: nat, cells: seq<seq<Piece>>)
    requires cells != [] && At(str, pos, RowString(cells)) && pos + |RowString(cells)| == |str|
    ensures At(str, pos, SquareString(cells[0]))
    ensures |cells| == 1 ==> pos + |SquareString(cells[0])| == |str|
    ensures |cells| > 1 ==>
              var end := pos + |SquareString(cells[0])|;
              end < |str| && str[end] == ',' &&
              At(str, end + 1, RowString(cells[1..])) && end + 1 + |RowString(cells[1..])| == |str|
  {
    if |cells| > 1 {
      var w := SquareString(cells[0]);
      AtConcat(str, pos, w + ",", RowString(cells[1..]));
      AtConcat(str, pos, w, ",");
      assert str[pos + |w| + 0] == ","[0];
    }
  }

  /** An `x` square without a count: one column, then the `,` or the end. */
  lemma EmptySquareRead(s: nat, str: string, pos: nat, col: nat, row: seq<seq<Piece>>, end: nat)
    requires pos < |str| && str[pos] == 'x' && col < s && ValidRow(s, row)
    requires end == pos + 1 && Ended(str, end)
    ensures RowFrom(s, str, pos, col, row) == RowFrom(s, str, After(str, end), col + 1, row)
  {
  }

  /** A stack square: its pieces go into column `col`. */
  lemma StackSquareRead(s: nat, str: string, pos: nat, col: nat, row: seq<seq<Piece>>, ps: seq<Piece>, end: nat)
    requires pos < |str| && col < s && ValidRow(s, row) && row[col] == [] && ps != [] && StackShape(ps)
    requires At(str, pos, SquareString(ps)) && end == pos + |SquareString(ps)| && Ended(str, end)
    ensures RowFrom(s, str, pos, col, row) == RowFrom(s, str, After(str, end), col + 1, row[col := ps])
  {
    StackRoundTrip(str, pos, ps, end);
    assert str[pos] == SquareString(ps)[0] == ColorDigits(ps)[0];
    RowFromStack(s, str, pos, col, row);
  }

  /** The first square of a printed row goes into column `col`. */
  lemma SquareRead(s: nat, str: string, pos: nat, cells: seq<seq<Piece>>, col: nat, row: seq<seq<Piece>>, end: nat, after: nat)
    requires cells != [] && col < s && ValidRow(s, row) && row[col] == [] && StackShape(cells[0])
    requires At(str, pos, SquareString(cells[0])) && end == pos + |SquareString(cells[0])| && Ended(str, end)
    requires after == After(str, end)
    ensures RowFrom(s, str, pos, col, row) == RowFrom(s, str, after, col + 1, row[col := cells[0]])
  {
    if cells[0] == [] {
      assert str[pos] == SquareString(cells[0])[0] == 'x';
      EmptySquareRead(s, str, pos, col, row, end);
      assert row[col := cells[0]] == row;
    } else {
      StackSquareRead(s, str, pos, col, row, cells[0], end);
    }
  }

  /** The columns from `col` on are still empty and will receive `cells`. */
  predicate Slots(s: nat, cells: seq<seq<Piece>>, col: nat, row: seq<seq<Piece>>)
  {
    && cells != [] && col + |cells| == s && ValidRow(s, row)
    && (forall j :: col <= j < s ==> row[j] == [])
    && (forall j :: 0 <= j < |cells| ==> StackShape(cells[j]))
  }

  /** `str` holds, from `pos` to its end, the printed row `cells`. */
  predicate RowText(str: string, pos: nat, cells: seq<seq<Piece>>)
  {
    cells != [] && At(str, pos, RowString(cells)) && pos + |RowString(cells)| == |str|
  }

  /** Filling column `col` with the first cell leaves the rest for the next columns. */
  lemma SlotsNext(s: nat, cells: seq<seq<Piece>>, col: nat, row: seq<seq<Piece>>)
    requires Slots(s, cells, col, row) && |cells| > 1
    ensures Slots(s, cells[1..], col + 1, row[col := cells[0]])
  {
    var next := row[col := cells[0]];
    assert StackShape(cells[0]);
    assert ValidRow(s, next);
    forall j | 0 <= j < |cells| - 1
      ensures StackShape(cells[1..][j])
    {
      assert cells[1..][j] == cells[j + 1];
    }
  }

  /** Reading the first square of a printed row, and what is left to read after it. */
  lemma FirstSquareRead(s: nat, str: string, pos: nat, cells: seq<seq<Piece>>, col: nat, row: seq<seq<Piece>>) returns (after: nat)
    requires Slots(s, cells, col, row) && RowText(str, pos, cells)
    ensures pos < after <= |str| && (after == |str| <==> |cells| == 1)
    ensures RowFrom(s, str, pos, col, row) == RowFrom(s, str, after, col + 1, row[col := cells[0]])
    ensures |cells| > 1 ==> Slots(s, cells[1..], col + 1, row[col := cells[0]]) && RowText(str, after, cells[1..])
  {
    var end := pos + |SquareString(cells[0])|;
    RowLayout(str, pos, cells);
    after := if |cells| == 1 then |str| else end + 1;
    assert StackShape(cells[0]) && row[col] == [];
    SquareRead(s, str, pos, cells, col, row, end, after);
    if |cells| > 1 {
      SlotsNext(s, cells, col, row);
    }
  }

  /** The squares printed by `RowString` read back into the columns from `col` on. */
  lemma {:induction false} RowRoundTrip(s: nat, str: string, pos: nat, cells: seq<seq<Piece>>, col: nat, row: seq<seq<Piece>>)
    requires Slots(s, cells, col, row) && RowText(str, pos, cells)
    ensures RowFrom(s, str, pos, col, row) == Ok(row[..col] + cells)
    decreases |cells|
  {
    var after := FirstSquareRead(s, str, pos, cells, col, row);
    var next := row[col := cells[0]];
    Splice(row, col, cells);
    if |cells| == 1 {
      assert RowFrom(s, str, after, col + 1, next) == Ok(next);
    } else {
      RowRoundTrip(s, str, after, cells[1..], col + 1, next);
    }
  }

  /** Writing the first of `cells` at `col` on the way to writing all of them from `col` on. */
  lemma Splice<T>(row: seq<T>, col: nat, cells: seq<T>)
    requires cells != [] && col + |cells| == |row|
    ensures |cells| == 1 ==> row[col := cells[0]] == row[..col] + cells
    ensures |cells| > 1 ==> row[col := cells[0]][..col + 1] + cells[1..] == row[..col] + cells
  {
    var next := row[col := cells[0]];
    assert next[..col + 1] == row[..col] + [cells[0]];
    assert cells == [cells[0]] + cells[1..];
  }

  /** `parse_row` reads back every row `RowString` prints. */
  lemma ParseRowString(s: nat, cells: seq<seq<Piece>>)
    requires s > 0 && |cells| == s && forall j :: 0 <= j < s ==> StackShape(cells[j])
    ensures ParseRow(s, RowString(cells)) == Ok(cells)
  {
    var str := RowString(cells);
    forall i | 0 <= i < |str|
      ensures str[0 + i] == str[i]
    {
    }
    RowRoundTrip(s, str, 0, cells, 0, EmptyRow(s));
    assert EmptyRow(s)[..0] + cells == cells;
  }
}
