/** Moves and their reverses (`Move`, `ReverseMove`, `StackMovement` in board.rs). */
module Moves {
  import opened Pieces
  import opened Squares

  /** The capacity of a `StackMovement`: one movement per square but the origin, on the largest board. */
  const MaxMovements := 7

  /**
   * A placement of a piece of the given role, or a spread of a stack: `takes[i]` is the number of
   * pieces carried onto the `i + 1`-th square in direction `dir` (the source's `pieces_to_take`).
   */
  datatype Move =
    | Place(role: Role, square: nat)
    | Spread(square: nat, dir: Direction, takes: seq<nat>)

  /** What `do_move` returns, and `reverse_move` consumes, to undo a move. */
  datatype ReverseMove =
    | RevPlace(square: nat)
    | RevSpread(square: nat, dir: Direction, takes: seq<nat>, flattens: bool)

  function Reversed(xs: seq<nat>): (r: seq<nat>)
    ensures |r| == |xs|
    ensures forall i :: 0 <= i < |xs| ==> r[i] == xs[|xs| - 1 - i]
  {
    if xs == [] then [] else Reversed(xs[1..]) + [xs[0]]
  }
}
