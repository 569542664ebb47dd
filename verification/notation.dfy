/**
 * Move notation (`Move::to_string` and `Move::from_string` in board.rs). A placement is its
 * square, after `C` for a capstone or `S` for a wall. A spread is the number of pieces taken
 * (left out when it is one), the square, the direction and, when the spread drops on more than
 * one square, the number dropped on each square.
 */
module Notation {
  import opened Wrappers
  import opened Pieces
  import opened Squares
  import opened Moves

  function DirectionChar(d: Direction): (c: char)
    ensures c as int < 128
  {
    match d
    case North => '+'
    case West => '<'
    case East => '>'
    case South => '-'
  }

  /** `Direction::parse`: any other character panics. */
  function ParseDirection(c: char): (r: Result<Direction>)
    ensures r.Ok? <==> c in {'+', '<', '>', '-'}
    ensures r.Ok? ==> DirectionChar(r.value) == c
    ensures r.Err? ==> r.failure.Panic?
  {
    if c == '+' then Ok(North)
    else if c == '<' then Ok(West)
    else if c == '>' then Ok(East)
    else if c == '-' then Ok(South)
    else Err(Panic("Couldn't parse direction"))
  }

  lemma ParseDirectionChar(d: Direction)
    ensures ParseDirection(DirectionChar(d)) == Ok(d)
  {
  }

  function DigitChar(n: nat): (c: char)
    requires n < 10
  {
    ('0' as int + n) as char
  }

  /** `char::to_digit(10)`. */
  function DigitValue(c: char): (r: Option<nat>)
    ensures r.Some? ==> r.value < 10 && DigitChar(r.value) == c
  {
    if '0' <= c <= '9' then Some(c as int - '0' as int) else None
  }

  /** `write!("{}", n)` for a `u8`. */
  function Decimal(n: nat): (r: string)
    requires n < 256
    ensures 1 <= |r| <= 3
    ensures n < 10 ==> r == [DigitChar(n)]
  {
    if n < 10 then [DigitChar(n)]
    else if n < 100 then [DigitChar(n / 10), DigitChar(n % 10)]
    else [DigitChar(n / 100), DigitChar(n / 10 % 10), DigitChar(n % 10)]
  }

  predicate IsAscii(str: string)
  {
    forall i :: 0 <= i < |str| ==> str[i] as int < 128
  }

  // ---------------------------------------------------------------------------
  // Printing

  /** What `to_string` can print: at least one movement, none taking more than the one before. */
  predicate Printable(takes: seq<nat>)
  {
    && |takes| >= 1
    && (forall i :: 0 <= i < |takes| ==> takes[i] < 256)
    && (forall i, j :: 0 <= i <= j < |takes| ==> takes[j] <= takes[i])
  }

  /** The counts after the direction: what each square but the last gets, then what the last one gets. */
  function DropCounts(takes: seq<nat>): string
    requires Printable(takes)
    decreases |takes|
  {
    if |takes| == 1 then Decimal(takes[0])
    else Decimal(takes[0] - takes[1]) + DropCounts(takes[1..])
  }

  function MoveString(s: nat, m: Move): string
    requires ValidSize(s) && m.square < s * s && (m.Spread? ==> Printable(m.takes))
  {
    match m
    case Place(role, sq) =>
      (if role == Cap then "C" else if role == Wall then "S" else "") + SquareToString(s, sq)
    case Spread(sq, d, takes) =>
      (if takes[0] == 1 then "" else Decimal(takes[0])) + SquareToString(s, sq) + [DirectionChar(d)] +
      (if |takes| > 1 then DropCounts(takes) else "")
  }

  lemma DropCountsStep(takes: seq<nat>, i: nat)
    requires Printable(takes) && 1 <= i < |takes|
    ensures Printable(takes[i - 1..]) && Printable(takes[i..])
    ensures DropCounts(takes[i - 1..]) == Decimal(takes[i - 1] - takes[i]) + DropCounts(takes[i..])
  {
    assert takes[i - 1..][1..] == takes[i..];
  }

  /** `Move::to_string`: the count taken (when above one), the square, the direction, then the drop counts. */
  method MoveToString(s: nat, m: Move) returns (str: string)
    requires ValidSize(s) && m.square < s * s && (m.Spread? ==> Printable(m.takes))
    ensures str == MoveString(s, m)
  {
    match m
    case Place(role, sq) =>
      var square := SquareToString(s, sq);
      if role == Cap {
        str := "C" + square;
      } else if role == Flat {
        str := square;
      } else {
        str := "S" + square;
      }
    case Spread(sq, d, takes) =>
      var held := takes[0];
      if held == 1 {
        str := SquareToString(s, sq);
      } else {
        str := Decimal(held) + SquareToString(s, sq);
      }
      str := str + [DirectionChar(d)];
      if |takes| > 1 {
        str := AppendDropCounts(str, takes);
      }
  }

  /** The loop of `to_string` over the movements after the first: what each drops, then the last count. */
  method AppendDropCounts(prefix: string, takes: seq<nat>) returns (str: string)
    requires Printable(takes)
    ensures str == prefix + DropCounts(takes)
  {
    str := prefix;
    var held := takes[0];
    assert takes[0..] == takes;
    var i := 1;
    while i < |takes|
      invariant 1 <= i <= |takes| && held == takes[i - 1]
      invariant Printable(takes[i - 1..])
      invariant str + DropCounts(takes[i - 1..]) == prefix + DropCounts(takes)
    {
      DropCountsStep(takes, i);
      var drop := held - takes[i];
      ghost var later := DropCounts(takes[i..]);
      assert str + Decimal(drop) + later == str + (Decimal(drop) + later);
      str := str + Decimal(drop);
      held := held - drop;
      i := i + 1;
    }
    str := str + Decimal(held);
  }

  // ---------------------------------------------------------------------------
  // Parsing

  /** `to_digit(10).unwrap()` on every character: a character that is not a digit panics. */
  function DigitsOf(str: string): (r: Result<seq<nat>>)
    ensures r.Ok? ==> |r.value| == |str|
    ensures r.Err? ==> r.failure.Panic?
  {
    if str == [] then Ok([])
    else
      var rest := DigitsOf(str[1..]);
      match DigitValue(str[0])
      case None => Err(Panic("called `Option::unwrap()` on a `None` value"))
      case Some(n) => if rest.Ok? then Ok([n] + rest.value) else rest
  }

  /** A result with `xs` in front of its list. */
  function Prepend(xs: seq<nat>, r: Result<seq<nat>>): Result<seq<nat>>
  {
    if r.Ok? then Ok(xs + r.value) else r
  }

  /**
   * The movements after the first: each amount dropped is taken from what is held (a `u8`
   * subtraction, which panics below zero) and the rest is pushed onto a movement vector that
   * holds `count` entries and has room for `MaxMovements` (a full vector panics).
   */
  function TakesAfter(held: nat, count: nat, amounts: seq<nat>): (r: Result<seq<nat>>)
    ensures r.Ok? ==> |r.value| == |amounts| && (amounts != [] ==> count + |amounts| <= MaxMovements)
    ensures r.Ok? ==> forall i :: 0 <= i < |r.value| ==> r.value[i] <= held
    ensures r.Ok? ==> forall i :: 0 < i < |r.value| ==> r.value[i] <= r.value[i - 1]
    ensures r.Err? ==> r.failure.Panic?
    decreases |amounts|
  {
    if amounts == [] then Ok([])
    else if amounts[0] > held then Err(Panic("attempt to subtract with overflow"))
    else if count >= MaxMovements then Err(Panic("ArrayVec: capacity exceeded"))
    else Prepend([held - amounts[0]], TakesAfter(held - amounts[0], count + 1, amounts[1..]))
  }

  /** The digits after the direction, without the last one (`pop` on an empty vector does nothing). */
  function Amounts(digits: seq<nat>): seq<nat>
  {
    if digits == [] then [] else digits[..|digits| - 1]
  }

  /** The square and direction of a spread, then its movements; both failures come first, in that order. */
  function ParseSpread(s: nat, square: string, dir: char, taken: nat, counts: string): Result<Move>
    requires ValidSize(s)
  {
    match ParseSquare(s, square)
    case Err(e) => Err(e)
    case Ok(sq) =>
      match ParseDirection(dir)
      case Err(e) => Err(e)
      case Ok(d) =>
        match DigitsOf(counts)
        case Err(e) => Err(e)
        case Ok(digits) =>
          match TakesAfter(taken, 1, Amounts(digits))
          case Err(e) => Err(e)
          case Ok(rest) => Ok(Spread(sq, d, [taken] + rest))
  }

  function Placement(role: Role, r: Result<nat>): Result<Move>
  {
    match r
    case Ok(sq) => Ok(Place(role, sq))
    case Err(e) => Err(e)
  }

  /**
   * `Move::from_string`. The source rejects inputs under two bytes before non-ASCII ones; a
   * non-ASCII character takes at least two bytes in UTF-8, so testing ASCII first, and then the
   * length in characters, gives the same outcome (`ParseMoveSourceOrder`).
   */
  function ParseMove(s: nat, input: string): (r: Result<Move>)
    requires ValidSize(s)
    ensures r.Ok? ==> r.value.square < s * s
    ensures r.Ok? && r.value.Spread? ==>
      && 1 <= |r.value.takes| <= MaxMovements
      && 1 <= r.value.takes[0] <= 8
      && (forall i :: 0 <= i < |r.value.takes| ==> r.value.takes[i] <= r.value.takes[0])
      && (forall i :: 0 < i < |r.value.takes| ==> r.value.takes[i] <= r.value.takes[i - 1])
  {
    if !IsAscii(input) then Err(ParseError("Input move contained non-ascii characters."))
    else if |input| < 2 then Err(ParseError("Input move too short."))
    else
      var c := input[0];
      if 'a' <= c <= 'h' && |input| == 2 then Placement(Flat, ParseSquare(s, input))
      else if 'a' <= c <= 'h' && |input| == 3 then
        match ParseSquare(s, input[0..2])
        case Err(e) => Err(e)
        case Ok(sq) =>
          match ParseDirection(input[2])
          case Err(e) => Err(e)
          case Ok(d) => Ok(Spread(sq, d, [1]))
      else if c == 'C' && |input| == 3 then Placement(Cap, ParseSquare(s, input[1..]))
      else if c == 'S' && |input| == 3 then Placement(Wall, ParseSquare(s, input[1..]))
      else if '1' <= c <= '8' && |input| > 3 then
        ParseSpread(s, input[1..3], input[3], c as int - '0' as int, input[4..])
      else Err(ParseError("Couldn't parse move"))
  }

  /**
   * `from_string` tests the byte length before ASCII-ness; `ParseMove` tests ASCII first. Both
   * orders give the same answer: a text under two bytes is ASCII, and past those two tests an
   * ASCII text has as many bytes as characters.
   */
  lemma ParseMoveSourceOrder(s: nat, input: string)
    requires ValidSize(s)
    ensures Utf8Length(input) < 2 ==> ParseMove(s, input) == Err(ParseError("Input move too short."))
    ensures Utf8Length(input) >= 2 && !IsAscii(input) ==>
              ParseMove(s, input) == Err(ParseError("Input move contained non-ascii characters."))
    ensures IsAscii(input) ==> Utf8Length(input) == |input|
  {
    if Utf8Length(input) < 2 && |input| == 1 {
      assert Utf8Length(input) == Utf8Width(input[0]) + Utf8Length(input[1..]);
    }
  }

  lemma TakesAfterStep(held: nat, count: nat, amounts: seq<nat>, k: nat)
    requires k < |amounts| && amounts[k] <= held && count < MaxMovements
    ensures TakesAfter(held, count, amounts[k..]) ==
            Prepend([held - amounts[k]], TakesAfter(held - amounts[k], count + 1, amounts[k + 1..]))
  {
    assert amounts[k..][1..] == amounts[k + 1..];
  }

  lemma TakesAfterCons(held: nat, count: nat, amounts: seq<nat>)
    requires amounts != [] && amounts[0] <= held && count < MaxMovements
    ensures TakesAfter(held, count, amounts) ==
            Prepend([held - amounts[0]], TakesAfter(held - amounts[0], count + 1, amounts[1..]))
  {
  }

  lemma PrependPrepend(xs: seq<nat>, ys: seq<nat>, r: Result<seq<nat>>)
    ensures Prepend(xs, Prepend(ys, r)) == Prepend(xs + ys, r)
  {
    if r.Ok? {
      assert xs + (ys + r.value) == (xs + ys) + r.value;
    }
  }

  /** The `for amount_to_drop in amounts_to_drop` loop of `from_string`. */
  method Movements(taken: nat, amounts: seq<nat>) returns (r: Result<seq<nat>>)
    ensures r == Prepend([taken], TakesAfter(taken, 1, amounts))
  {
    var movements := [taken];
    var held := taken;
    var k := 0;
    assert amounts[0..] == amounts;
    while k < |amounts|
      invariant k <= |amounts| && |movements| == k + 1 && movements[0] == taken
      invariant Prepend([taken], TakesAfter(taken, 1, amounts)) ==
                Prepend(movements, TakesAfter(held, k + 1, amounts[k..]))
    {
      assert amounts[k..][0] == amounts[k];
      if amounts[k] > held {
        assert TakesAfter(held, k + 1, amounts[k..]) == Err(Panic("attempt to subtract with overflow"));
        return Err(Panic("attempt to subtract with overflow"));
      }
      if |movements| >= MaxMovements {
        assert TakesAfter(held, k + 1, amounts[k..]) == Err(Panic("ArrayVec: capacity exceeded"));
        return Err(Panic("ArrayVec: capacity exceeded"));
      }
      TakesAfterStep(held, k + 1, amounts, k);
      PrependPrepend(movements, [held - amounts[k]], TakesAfter(held - amounts[k], k + 2, amounts[k + 1..]));
      movements := movements + [held - amounts[k]];
      held := held - amounts[k];
      k := k + 1;
    }
    assert amounts[k..] == [] && movements + [] == movements;
    r := Ok(movements);
  }

  /** `Move::from_string`. */
  method MoveFromString(s: nat, input: string) returns (r: Result<Move>)
    requires ValidSize(s)
    ensures r == ParseMove(s, input)
  {
    if !IsAscii(input) {
      return Err(ParseError("Input move contained non-ascii characters."));
    }
    if |input| < 2 {
      return Err(ParseError("Input move too short."));
    }
    var c := input[0];
    if 'a' <= c <= 'h' && |input| == 2 {
      r := Placement(Flat, ParseSquare(s, input));
    } else if 'a' <= c <= 'h' && |input| == 3 {
      var square := ParseSquare(s, input[0..2]);
      if square.Err? {
        return Err(square.failure);
      }
      var dir := ParseDirection(input[2]);
      if dir.Err? {
        return Err(dir.failure);
      }
      r := Ok(Spread(square.value, dir.value, [1]));
    } else if c == 'C' && |input| == 3 {
      r := Placement(Cap, ParseSquare(s, input[1..]));
    } else if c == 'S' && |input| == 3 {
      r := Placement(Wall, ParseSquare(s, input[1..]));
    } else if '1' <= c <= '8' && |input| > 3 {
      var square := ParseSquare(s, input[1..3]);
      if square.Err? {
        return Err(square.failure);
      }
      var dir := ParseDirection(input[3]);
      if dir.Err? {
        return Err(dir.failure);
      }
      var digits := DigitsOf(input[4..]);
      if digits.Err? {
        return Err(digits.failure);
      }
      var movements := Movements(c as int - '0' as int, Amounts(digits.value));
      if movements.Err? {
        return Err(movements.failure);
      }
      r := Ok(Spread(square.value, dir.value, movements.value));
    } else {
      r := Err(ParseError("Couldn't parse move"));
    }
  }

  // ---------------------------------------------------------------------------
  // Printing, then parsing

  /**
   * The moves whose printed form parses back to them: on the board, and for a spread at most
   * `MaxMovements` movements of at most 8 pieces, none taking more than the one before, and one
   * movement only when a single piece is taken (`1` is not printed).
   */
  predicate Readable(s: nat, m: Move)
  {
    && m.square < s * s
    && (m.Spread? ==>
          && 1 <= |m.takes| <= MaxMovements
          && (forall i :: 0 <= i < |m.takes| ==> m.takes[i] <= 8)
          && (forall i, j :: 0 <= i <= j < |m.takes| ==> m.takes[j] <= m.takes[i])
          && 1 <= m.takes[0] && (|m.takes| > 1 ==> m.takes[0] > 1))
  }

  /** What is dropped on each square but the last. */
  function Drops(takes: seq<nat>): (r: seq<nat>)
    requires Printable(takes)
    ensures |r| == |takes| - 1
  {
    seq(|takes| - 1, i requires 0 <= i < |takes| - 1 => takes[i] - takes[i + 1])
  }

  lemma DigitsOfCons(c: char, str: string)
    requires '0' <= c <= '9'
    ensures DigitsOf([c] + str) == Prepend([c as int - '0' as int], DigitsOf(str))
  {
    assert ([c] + str)[1..] == str;
  }

  lemma {:induction false} DropCountsDigits(takes: seq<nat>)
    requires Printable(takes) && forall i :: 0 <= i < |takes| ==> takes[i] < 10
    ensures IsAscii(DropCounts(takes))
    ensures DigitsOf(DropCounts(takes)) == Ok(Drops(takes) + [takes[|takes| - 1]])
    decreases |takes|
  {
    if |takes| == 1 {
      LastCountDigits(takes);
    } else {
      assert Printable(takes[1..]);
      DropCountsDigits(takes[1..]);
      DropCountDigitsStep(takes);
    }
  }

  /** One movement: its count alone is printed. */
  lemma LastCountDigits(takes: seq<nat>)
    requires Printable(takes) && |takes| == 1 && takes[0] < 10
    ensures IsAscii(DropCounts(takes))
    ensures DigitsOf(DropCounts(takes)) == Ok(Drops(takes) + [takes[0]])
  {
    var c := DigitChar(takes[0]);
    assert DropCounts(takes) == [c] + [];
    assert DigitsOf([]) == Ok([]);
    DigitsOfCons(c, []);
    assert Drops(takes) + [takes[0]] == [takes[0]] + [];
  }

  /** The count dropped first is printed before the counts of the later movements. */
  lemma DropCountDigitsStep(takes: seq<nat>)
    requires Printable(takes) && |takes| > 1 && takes[0] - takes[1] < 10
    requires Printable(takes[1..])
    requires IsAscii(DropCounts(takes[1..]))
    requires DigitsOf(DropCounts(takes[1..])) == Ok(Drops(takes[1..]) + [takes[|takes| - 1]])
    ensures IsAscii(DropCounts(takes))
    ensures DigitsOf(DropCounts(takes)) == Ok(Drops(takes) + [takes[|takes| - 1]])
  {
    var d := takes[0] - takes[1];
    var c := DigitChar(d);
    var tail := DropCounts(takes[1..]);
    assert DropCounts(takes) == [c] + tail;
    AsciiJoin([c], tail, DropCounts(takes));
    DigitsOfCons(c, tail);
    DropsCons(takes);
    assert [d] + (Drops(takes[1..]) + [takes[|takes| - 1]]) == Drops(takes) + [takes[|takes| - 1]];
  }

  lemma DropsCons(takes: seq<nat>)
    requires Printable(takes) && |takes| > 1 && Printable(takes[1..])
    ensures Drops(takes) == [takes[0] - takes[1]] + Drops(takes[1..])
  {
  }

  lemma {:induction false} TakesAfterDrops(takes: seq<nat>, count: nat)
    requires Printable(takes) && count + |takes| - 1 <= MaxMovements
    ensures TakesAfter(takes[0], count, Drops(takes)) == Ok(takes[1..])
    decreases |takes|
  {
    if |takes| > 1 {
      var rest := takes[1..];
      var drops := Drops(takes);
      DropsTail(takes);
      TakesAfterDrops(rest, count + 1);
      assert drops[0] == takes[0] - takes[1];
      TakesAfterCons(takes[0], count, drops);
      assert [takes[1]] + rest[1..] == takes[1..];
    }
  }

  /** The drops after the first are the drops of the takes after the first. */
  lemma DropsTail(takes: seq<nat>)
    requires Printable(takes) && |takes| > 1
    ensures Printable(takes[1..]) && Drops(takes)[1..] == Drops(takes[1..])
  {
    var rest := takes[1..];
    assert Printable(rest);
    forall i | 0 <= i < |rest| - 1
      ensures Drops(takes)[1..][i] == Drops(rest)[i]
    {
      assert rest[i] == takes[i + 1] && rest[i + 1] == takes[i + 2];
    }
  }

  /** The printed square: a file letter `a`..`h`, then a digit, and it parses back. */
  lemma SquareStringShape(s: nat, sq: nat)
    requires ValidSize(s) && sq < s * s
    ensures 'a' <= SquareToString(s, sq)[0] <= 'h' && IsAscii(SquareToString(s, sq))
    ensures ParseSquare(s, SquareToString(s, sq)) == Ok(sq)
  {
    RankFileOf(s, sq);
    ParseSquareToString(s, sq);
  }

  /** Every move the notation can express comes back from its printed form. */
  lemma MoveRoundTrip(s: nat, m: Move)
    requires ValidSize(s) && Readable(s, m)
    ensures IsAscii(MoveString(s, m))
    ensures ParseMove(s, MoveString(s, m)) == Ok(m)
  {
    match m
    case Place(role, sq) =>
      PlaceRoundTrip(s, role, sq);
    case Spread(sq, d, takes) =>
      if takes[0] == 1 {
        SingleStepRoundTrip(s, sq, d);
        assert takes == [1];
      } else {
        CountedRoundTrip(s, sq, d, takes);
      }
  }

  /** A placement: the role letter, if any, then the square. */
  lemma PlaceRoundTrip(s: nat, role: Role, sq: nat)
    requires ValidSize(s) && sq < s * s
    ensures IsAscii(MoveString(s, Place(role, sq)))
    ensures ParseMove(s, MoveString(s, Place(role, sq))) == Ok(Place(role, sq))
  {
    SquareStringShape(s, sq);
    var sqs := SquareToString(s, sq);
    var str := MoveString(s, Place(role, sq));
    if role == Flat {
      assert str == sqs;
    } else {
      var letter := if role == Cap then 'C' else 'S';
      assert str == [letter] + sqs;
      AsciiJoin([letter], sqs, str);
      assert str[1..] == sqs && str[0] == letter && |str| == 3;
    }
  }

  /** A spread of one piece onto one square: the square and the direction only. */
  lemma SingleStepRoundTrip(s: nat, sq: nat, d: Direction)
    requires ValidSize(s) && sq < s * s
    ensures IsAscii(MoveString(s, Spread(sq, d, [1])))
    ensures ParseMove(s, MoveString(s, Spread(sq, d, [1]))) == Ok(Spread(sq, d, [1]))
  {
    SquareStringShape(s, sq);
    var sqs := SquareToString(s, sq);
    var str := MoveString(s, Spread(sq, d, [1]));
    assert str == sqs + [DirectionChar(d)];
    assert str[0..2] == sqs && str[2] == DirectionChar(d) && 'a' <= str[0] <= 'h' && |str| == 3;
  }

  /** A spread printed with its count of pieces taken. */
  lemma CountedRoundTrip(s: nat, sq: nat, d: Direction, takes: seq<nat>)
    requires ValidSize(s) && Readable(s, Spread(sq, d, takes)) && takes[0] > 1
    ensures IsAscii(MoveString(s, Spread(sq, d, takes)))
    ensures ParseMove(s, MoveString(s, Spread(sq, d, takes))) == Ok(Spread(sq, d, takes))
  {
    SquareStringShape(s, sq);
    var sqs := SquareToString(s, sq);
    var str := MoveString(s, Spread(sq, d, takes));
    var counts := if |takes| > 1 then DropCounts(takes) else "";
    assert str == [DigitChar(takes[0])] + sqs + [DirectionChar(d)] + counts;
    assert str[1..3] == sqs && str[3] == DirectionChar(d) && str[4..] == counts;
    assert str[0] == DigitChar(takes[0]) && |str| > 3;
    var digits := CountDigits(takes);
    var lead, tail := [DigitChar(takes[0])] + sqs, [DirectionChar(d)] + counts;
    AsciiJoin([DigitChar(takes[0])], sqs, lead);
    AsciiJoin([DirectionChar(d)], counts, tail);
    AsciiJoin(lead, tail, str);
    ParseMoveCounted(s, str);
    assert str[0] as int - '0' as int == takes[0];
    ParseDirectionChar(d);
    ParseSpreadOk(s, sqs, DirectionChar(d), takes[0], counts, sq, d, digits, takes[1..]);
    assert [takes[0]] + takes[1..] == takes;
  }

  lemma AsciiJoin(a: string, b: string, ab: string)
    requires IsAscii(a) && IsAscii(b) && ab == a + b
    ensures IsAscii(ab)
  {
    forall i | 0 <= i < |ab|
      ensures ab[i] as int < 128
    {
      if i < |a| { assert ab[i] == a[i]; } else { assert ab[i] == b[i - |a|]; }
    }
  }

  /** An input led by a count digit is read as a spread. */
  lemma ParseMoveCounted(s: nat, str: string)
    requires ValidSize(s) && IsAscii(str) && |str| > 3 && '1' <= str[0] <= '8'
    ensures ParseMove(s, str) == ParseSpread(s, str[1..3], str[3], str[0] as int - '0' as int, str[4..])
  {
  }

  /** The drop counts printed after the direction read back as the pieces each step keeps taking. */
  lemma CountDigits(takes: seq<nat>) returns (digits: seq<nat>)
    requires Printable(takes) && |takes| <= MaxMovements && takes[0] > 1
    requires forall i :: 0 <= i < |takes| ==> takes[i] <= 8
    ensures IsAscii(if |takes| > 1 then DropCounts(takes) else "")
    ensures DigitsOf(if |takes| > 1 then DropCounts(takes) else "") == Ok(digits)
    ensures TakesAfter(takes[0], 1, Amounts(digits)) == Ok(takes[1..])
  {
    digits := if |takes| > 1 then Drops(takes) + [takes[|takes| - 1]] else [];
    if |takes| > 1 {
      DropCountsDigits(takes);
      assert Amounts(digits) == Drops(takes);
    } else {
      assert DigitsOf("") == Ok([]);
      assert Drops(takes) == [];
    }
    TakesAfterDrops(takes, 1);
  }

  lemma ParseSpreadOk(s: nat, square: string, dir: char, taken: nat, counts: string,
                      sq: nat, d: Direction, digits: seq<nat>, rest: seq<nat>)
    requires ValidSize(s) && ParseSquare(s, square) == Ok(sq) && ParseDirection(dir) == Ok(d)
    requires DigitsOf(counts) == Ok(digits) && TakesAfter(taken, 1, Amounts(digits)) == Ok(rest)
    ensures ParseSpread(s, square, dir, taken, counts) == Ok(Spread(sq, d, [taken] + rest))
  {
  }

  /** A placement is read only from its printed form. */
  lemma PlacementCanonical(s: nat, input: string, role: Role, sq: nat)
    requires ValidSize(s) && ParseMove(s, input) == Ok(Place(role, sq))
    ensures MoveString(s, Place(role, sq)) == input
  {
    if role == Flat {
      ParseSquareCanonical(s, input, sq);
    } else {
      ParseSquareCanonical(s, input[1..], sq);
      assert input == [input[0]] + input[1..];
    }
  }

  lemma {:induction false} DigitsOfSnoc(str: string, c: char)
    requires '0' <= c <= '9'
    ensures DigitsOf(str + [c]) == (if DigitsOf(str).Ok? then Ok(DigitsOf(str).value + [c as int - '0' as int]) else DigitsOf(str))
    decreases |str|
  {
    if str == [] {
      assert DigitsOf([]) == Ok([]);
      DigitsOfCons(c, []);
      assert str + [c] == [c] + [];
      assert [] + [c as int - '0' as int] == [c as int - '0' as int] + [];
    } else {
      DigitsOfSnoc(str[1..], c);
      assert (str + [c])[1..] == str[1..] + [c];
      if DigitsOf(str).Ok? {
        assert [str[0] as int - '0' as int] + (DigitsOf(str[1..]).value + [c as int - '0' as int]) ==
               ([str[0] as int - '0' as int] + DigitsOf(str[1..]).value) + [c as int - '0' as int];
      }
    }
  }

  /** The last count of a spread is not read: any digit there gives the same move. */
  lemma LastCountIgnored(s: nat, input: string, c: char)
    requires ValidSize(s) && |input| > 4 && '1' <= input[0] <= '8'
    requires '0' <= input[|input| - 1] <= '9' && '0' <= c <= '9'
    ensures ParseMove(s, input[..|input| - 1] + [c]) == ParseMove(s, input)
  {
    var other := input[..|input| - 1] + [c];
    var body := input[4..|input| - 1];
    assert input[4..] == body + [input[|input| - 1]];
    assert other[4..] == body + [c];
    assert other[1..3] == input[1..3] && other[3] == input[3] && other[0] == input[0];
    assert IsAscii(other) <==> IsAscii(input) by {
      assert forall i :: 0 <= i < |input| - 1 ==> other[i] == input[i];
    }
    if IsAscii(input) {
      ParseMoveCounted(s, input);
      ParseMoveCounted(s, other);
      SpreadLastIgnored(s, input[1..3], input[3], input[0] as int - '0' as int, body, input[|input| - 1], c);
    }
  }

  lemma SpreadLastIgnored(s: nat, square: string, dir: char, taken: nat, body: string, x: char, y: char)
    requires ValidSize(s) && '0' <= x <= '9' && '0' <= y <= '9'
    ensures ParseSpread(s, square, dir, taken, body + [x]) == ParseSpread(s, square, dir, taken, body + [y])
  {
    DigitsOfSnoc(body, x);
    DigitsOfSnoc(body, y);
    if DigitsOf(body).Ok? {
      var v := DigitsOf(body).value;
      assert Amounts(v + [x as int - '0' as int]) == v;
      assert Amounts(v + [y as int - '0' as int]) == v;
    }
  }
}
