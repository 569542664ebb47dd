# Tak position engine (tiltak) in Dafny

This project models the position engine of tiltak, a Tak engine written in Rust. Tak is played
on an S×S board. The source sizes the board from 3 to 8; the model covers 4 to 8, the sizes
the source has Zobrist keys for (see "## Left out"). Stacks of flats, walls and capstones are placed, and stacks are
spread along rows and columns.

Each module models a part of the engine:

- **Pieces, Stacks, BitBoards.** Colours, roles and pieces. The compact `Stack` keeps an
  explicit top piece, a height and one bit per lower layer. BitBoards models the 64-bit set that
  `Stack` uses.
- **Squares.** Square arithmetic: rank, file, `go_direction`, `directions`, `neighbours`. It also
  covers the `MoveIterator` path of a spread, square notation, and the `GroupEdgeConnection`
  mask.
- **Moves, Spreads, Positions.** A whole board as a value: every square as its pieces, bottom to
  top. `do_move` and `reverse_move` are specification functions on that value.
- **Zobrist.** The incremental hash and `zobrist_hash_from_scratch`. The keys are parameters.
- **Boards.** The `Board` class. Its cells are an `array<Stack>`, and its methods change the
  board in place. `do_move`, `reverse_move`, `clone`, the three board maps and `flip_colors` are
  proved against the value-level specifications.
- **Symmetries.** The board maps (`flip_board_y`, `flip_board_x`, `rotate_board`), the colour
  swap and the lists of 8 and 16 symmetries.
- **Groups, GameResults.** `group_data`: connected components, their edge masks and critical
  squares. Also `is_win_by_road` and `game_result_with_group_data`.
- **MoveGen.** Placements, the recursive enumeration of spreads, and the suicide filter of
  move_gen.rs.
- **Notation.** `Move::to_string` and `Move::from_string`.
- **Tps, TpsBoard.** The TPS parser: `parse_row` and `from_fen`.
- **ValueEval, Parameters.** The value features written by `static_eval_game_phase`, and the
  split of a coefficient array into the named feature slices.

The engine's integers are modelled as unbounded `nat`/`int`. Where the Rust code can overflow
or underflow, the model states the bound or models the panic explicitly.

## Model

| member | source | states |
|---|---|---|
| Pieces.Color.Opposite | src/board.rs:2070 | `!to_move` is the other colour |
| Pieces.Color.Multiplier | src/evaluation/value_eval.rs:83-96 | the multiplier is +1 exactly for White and -1 for Black |
| Pieces.Piece.FlipColor | src/board.rs:963-973 | flipping keeps the role and swaps the colour |
| Pieces.FromRoleColor | src/board.rs:933-942 | the piece built has exactly the requested role and colour |
| Pieces.FromRoleColorOfPiece | src/board.rs:933-957 | `from_role_color(p.role(), p.color()) == p`: role and colour determine a piece |
| Pieces.RoadPieceIsFlatOrCap | src/board.rs:959-961 | `is_road_piece` holds exactly for flats and capstones |
| Pieces.FlipColorInvolution | src/board.rs:963-973 | flipping twice gives the piece back |
| Stacks.Stack.Pieces | src/board.rs:993-1011 | the abstraction of a valid stack: `height` pieces, the top piece last, every lower piece a flat |
| Stacks.Stack.Get | src/board.rs:1001-1011 | `get(i)` is None exactly when `i >= height`, and `get(height-1)` is the top |
| Stacks.Stack.Push | src/board.rs:1020-1026 | push keeps the representation invariant, adds one to the height and puts the piece on top |
| Stacks.Stack.Pop | src/board.rs:1031-1047 | pop returns the old top, keeps the invariant and lowers the height by one |
| Stacks.Stack.ReplaceTop | src/board.rs:1049-1051 | replace_top returns the old top and keeps the height |
| Stacks.Stack.Remove | src/board.rs:1053-1071 | remove(i) returns the old `get(i)`, keeps the invariant and lowers the height by one |
| Stacks.GetPieces | src/board.rs:1001-1011 | `get(i)` is the i-th piece from the bottom |
| Stacks.PushPieces | src/board.rs:1017-1026 | push appends the piece and flattens the old top |
| Stacks.PopPieces | src/board.rs:1028-1047 | pop removes exactly the top piece |
| Stacks.ReplaceTopPieces | src/board.rs:1049-1051 | replace_top changes only the top piece |
| Stacks.RemovePieces | src/board.rs:1053-1071 | remove(i) returns the i-th piece and closes the gap |
| Stacks.RemoveLayer | src/board.rs:1061-1067 | after remove(i), the layer bits below i stay and those above move down one |
| Stacks.PiecesDetermineStack | src/board.rs:990-997 | two valid stacks with the same pieces are equal (the representation is canonical, so the derived `PartialEq` agrees with equality of piece lists) |
| Stacks.PushPop | src/board.rs:1017-1047 | push then pop returns the pushed piece and the old stack with its top flattened; it is the old stack exactly when that was empty or flat-topped ("will not un-flatten") |
| Stacks.RemoveBelowTop | src/board.rs:1053-1071 | remove(i) below the top: the height drops by one, the old `get(i)` comes back, the top stays, lower bits stay and higher bits shift down |
| Stacks.FromPieces | src/board.rs:1017-1026 | pushing a piece list onto the empty stack gives a valid stack holding the list with every piece but the top flattened |
| Stacks.Iterate | src/board.rs:1083-1108 | the `StackIterator` (repeated `remove(0)`) yields exactly the stack's pieces from the bottom up |
| Squares.FromRankFile | src/board.rs:788-799 | `from_rank_file` gives an on-board square whose `rank()` and `file()` are the arguments |
| Squares.RankFileOf | src/board.rs:788-799 | rank and file of an on-board square are below S and rebuild the square |
| Squares.SameRankFile | src/board.rs:788-799 | a square is determined by its rank and file |
| Squares.Direction.Reverse | src/board.rs:1241-1248 | the reverse direction steps by the opposite rank and file deltas |
| Squares.StepNorth | src/board.rs:849-874 | stepping north stays on the board exactly off rank 0 and lowers the rank by one |
| Squares.StepSouth | src/board.rs:849-874 | stepping south stays on the board exactly off the last rank and raises the rank by one |
| Squares.StepWestEast | src/board.rs:849-874 | stepping west or east off the edge file keeps the rank and moves the file by one |
| Squares.GoDirection | src/board.rs:849-874 | `go_direction` yields an on-board square other than the start |
| Squares.GoDirectionRankFile | src/board.rs:849-874 | `go_direction` is Some exactly when the orthogonal neighbour is on the board, and then it is that neighbour |
| Squares.GoDirectionReverse | src/board.rs:1241-1248 | stepping back in the reverse direction returns to the square |
| Squares.AdjacentSymmetric | src/board.rs:801-824 | adjacency is symmetric |
| Squares.LowRank | src/board.rs:793-795 | rank 0 holds exactly the squares below S |
| Squares.CornerRankFile | src/board.rs:801-847 | the corner tests of `neighbours`/`directions` pick out exactly the four corner squares |
| Squares.DirectionsAndNeighbours | src/board.rs:801-847 | `directions()` lists exactly the directions in which `go_direction` succeeds, each once, and `neighbours()` yields the matching squares in the same order |
| Squares.NeighbourIffAdjacent | src/board.rs:801-824 | `neighbours()` yields exactly the orthogonally adjacent squares |
| Squares.Path | src/board.rs:2147-2174 | the `MoveIterator` path has n+1 on-board squares and starts at the origin |
| Squares.PathCons | src/board.rs:2147-2174 | a path of at least one step is its origin followed by the path from the next square |
| Squares.PathSnoc | src/board.rs:2158-2174 | one more step of the iterator extends the path by one square |
| Squares.PathSquares | src/board.rs:2147-2174 | running the iterator to the end collects exactly the path |
| Squares.PathNext | src/board.rs:2158-2174 | each square of the path is one step from the one before |
| Squares.WalkOnBoardStep | src/board.rs:849-874 | a walk stays on the board exactly when its first step and the rest of it do |
| Squares.PathAt | src/board.rs:2147-2174 | on an on-board walk, the k-th square is k steps away in rank and file |
| Squares.PathDistinct | src/board.rs:2147-2174 | the squares of an on-board walk are pairwise distinct |
| Squares.SquareToString | src/board.rs:898-905 | a square prints as two characters |
| Squares.Utf8Width | src/board.rs:877 | a character takes one to four UTF-8 bytes, and one exactly when it is ASCII |
| Squares.Utf8Length | src/board.rs:877 | `str::len` counts UTF-8 bytes: at least the number of characters, and equal to it exactly when the text is ASCII |
| Squares.ParseSquare | src/board.rs:876-896 | a parsed square is on the board; the outcome is a panic exactly when the text is two bytes but one character, so the second `unwrap` finds nothing |
| Squares.ParseSquareToString | src/board.rs:876-905 | printing then parsing a square gives the square back |
| Squares.ParseSquareOf | src/board.rs:876-896 | the file letter and rank digit of a square parse back to it |
| Squares.ParseSquareCanonical | src/board.rs:876-905 | any text that parses to a square is that square's printed form |
| Squares.SquareToStringOf | src/board.rs:898-905 | the printed form is the file letter, then the rank counted from the bottom |
| Squares.EdgeConnection.Or | src/board.rs:1352-1360 | the union of two masks is connected to an edge exactly when either mask is |
| Squares.EdgeConnection.ConnectSquare | src/board.rs:1289-1304 | `connect_square` adds exactly the edges the square lies on |
| Squares.NoEdgesConnected | src/board.rs:1284-1287 | the default mask is connected to no edge |
| Spreads.AppendShape | src/board.rs:2027-2031 | dropping a carried stack onto another flattens the old top, so the result is again a stack with only flats below its top |
| Spreads.Step | src/board.rs:2016-2034 | one movement of a spread leaves `pieces_to_take` fewer pieces on the square it leaves, the same number more on the next square, and a well-formed board |
| Spreads.StepCount | src/board.rs:2016-2034 | a movement neither creates nor destroys pieces |
| Spreads.StepFrame | src/board.rs:2016-2034 | a movement changes only the square it leaves and the square it reaches |
| Spreads.StepInverse | src/board.rs:2100-2111 | moving the same pieces back in the reverse direction restores the board, except that the old top of the square reached stays flattened |
| Spreads.StepTop | src/board.rs:2016-2034 | the piece on top of the moved pieces ends on top of the square reached, so a capstone stays on top |
| Spreads.SpreadCount | src/board.rs:2006-2034 | a whole spread conserves the number of pieces on the board |
| Spreads.SpreadOkWalk | src/board.rs:2016-2017 | a spread that can be performed stays on the board for all its steps (`go_direction(..).unwrap()` never panics) |
| Spreads.SpreadPathDistinct | src/board.rs:2147-2174 | the squares a spread visits are pairwise distinct |
| Spreads.SpreadFrame | src/board.rs:2006-2034 | the squares off the spread's path are unchanged |
| Spreads.SpreadSnoc | src/board.rs:2016-2034 | the loop over movements: one more movement performs one more step at the square where the spread stands |
| Spreads.LegalTail | src/board.rs:2016-2034 | after the first movement of a legal spread, the rest of it is a legal spread from the next square, still carrying a capstone on top when it did |
| Spreads.LegalSpreadOk | src/board.rs:2006-2034 | a spread that follows the rules can be performed without a panic |
| Spreads.LegalSpreadFlattens | src/board.rs:2019-2022 | `flattens_stone` is set exactly when the spread ends on a wall |
| Spreads.SpreadInverse | src/board.rs:2093-2111 | the reverse spread (from the end square, in the reverse direction, with the takes reversed) is possible, ends at the origin, and restores the board except that the end square's top stays flattened |
| Positions.SetReserve | src/board.rs:1992-1999 | changing one reserve sets exactly that reserve |
| Positions.DoSpec | src/board.rs:1978-2074 | `do_move` on a value position keeps every stack well-formed |
| Positions.UndoSpec | src/board.rs:2076-2133 | `reverse_move` on a value position keeps every stack well-formed |
| Positions.RestoreWall | src/board.rs:2113-2118 | `replace_top` with a wall of the top's colour changes only the top piece |
| Positions.RestoreFlattenedWall | src/board.rs:2113-2118 | restoring the wall on a flattened wall gives back the original stack |
| Positions.UndoSpreadCells | src/board.rs:2093-2120 | reversing a spread keeps every stack well-formed |
| Positions.SwapSideHash | src/board.rs:2068-2071 | the three hash lines at the end of the move turn the hash of one side to move into the hash of the other |
| Positions.DoPlaceKeepsHash | src/board.rs:1980-2071 | a placement keeps the incremental hash equal to the hash computed from scratch |
| Positions.DoSpreadKeepsHash | src/board.rs:2006-2071 | a spread keeps the incremental hash equal to the hash from scratch (the `MoveIterator` loops remove and re-add the squares of the path) |
| Positions.DoKeepsHash | src/board.rs:1978-2074 | `do_move` keeps the hash equal to `zobrist_hash_from_scratch` |
| Positions.UndoPlaceKeepsHash | src/board.rs:2078-2090 | taking back a placement keeps the hash equal to the hash from scratch |
| Positions.UndoSpreadKeepsHash | src/board.rs:2093-2125 | taking back a spread keeps the hash equal to the hash from scratch |
| Positions.UndoKeepsHash | src/board.rs:2076-2133 | `reverse_move` keeps the hash equal to `zobrist_hash_from_scratch` |
| Positions.UndoDoPlace | src/board.rs:2078-2090 | taking back a placement restores the board, the reserves, the side to move, the ply count, the move list and the hash; the hash history stays cleared |
| Positions.UndoDoSpreadCells | src/board.rs:2093-2120 | the `ReverseMove` a legal spread returns takes it back: the squares are exactly restored, walls included |
| Positions.UndoDoSpread | src/board.rs:2093-2133 | taking back a spread restores the whole position, hash history included |
| Positions.UndoDo | src/board.rs:1978-2133 | `reverse_move(do_move(m))` restores the position for every legal move; the hash history comes back for spreads and is left empty after a placement |
| Positions.EmptyBoardHash | src/board.rs:1622-1630 | the hash from scratch of an empty board is the key of the side to move |
| Positions.StartHash | src/board.rs:1544-1559 | the default board's hash equals its hash from scratch |
| Positions.StartConserved | src/board.rs:1544-1559 | the default board satisfies the piece-count equation `do_move` asserts |
| Positions.DoConserves | src/board.rs:2055-2064 | `do_move` keeps pieces on the board plus reserves constant |
| Positions.UndoConserves | src/board.rs:2076-2133 | `reverse_move` keeps pieces on the board plus reserves constant |
| Positions.Opening | src/board.rs:1984-1988 | on the first two plies each player places a flat of the opponent's colour |
| Zobrist.BitsValueOfPieces | src/board.rs:1637-1643 | the bits of the layer word, read as a number, are the colours of the pieces below the top |
| Zobrist.WordKeysOfPieces | src/board.rs:1637-1643 | the keys chosen by the bytes of the layer word are the keys chosen by the colours of the layers |
| Zobrist.SquareHash | src/board.rs:1632-1646 | an empty square hashes to 0, and a stack of at most eight pieces hashes to its top piece's key alone |
| Zobrist.SquareHashesUpdate | src/board.rs:1622-1646 | changing one square changes only that square's hash |
| Zobrist.HashOfUpdate | src/board.rs:2001 | changing one square changes the hash from scratch by the XOR of that square's old and new hashes |
| Zobrist.HashOfChanges | src/board.rs:2012-2038 | when only the squares of a path change, XOR-ing out their old hashes and XOR-ing in their new ones gives the new hash from scratch |
| Boards.SquareHashFor | src/board.rs:1632-1646 | `zobrist_hash_for_square`, a loop over the bytes of the layer word, computes the square's hash as defined on its pieces |
| Boards.PathHashFor | src/board.rs:2012-2014 | the `MoveIterator` hash loop folds in exactly the hashes of the path's squares |
| Boards.AllHashFor | src/board.rs:1625-1628 | the loop over `squares_iterator` folds in every square's hash |
| Boards.Carry | src/board.rs:2024-2031 | the inner loop of a movement (`get`, `push`, `remove` at `pieces_to_leave`) leaves the bottom pieces on the origin and moves the rest, in order, onto the next square, flattening its old top |
| Boards.CarryOne | src/board.rs:2028-2030 | one round of that loop moves one more piece and keeps both stacks well-formed |
| Boards.Board.Default | src/board.rs:1544-1559 | `Board::default` is the empty board with full reserves, White to move and the hash of White to move |
| Boards.Board.Clone | src/board.rs:1700 | `clone` gives a board with fresh cells and the same position |
| Boards.Board.HashFromScratch | src/board.rs:1622-1630 | `zobrist_hash_from_scratch` computes the hash of the position as defined on its pieces |
| Boards.Board.HashPath | src/board.rs:2012-2014 | the hash loop over the path XORs the hash of every path square into `hash` |
| Boards.Board.StepStacks | src/board.rs:2016-2034 | one movement changes the cells as `Spreads.Step` says and reaches the square `go_direction` gives |
| Boards.Board.RunSpread | src/board.rs:2016-2040 | the loop over the movements performs the whole spread, ends where the spread ends, computes `flattens_stone`, and records the takes |
| Boards.Board.PlaceStone | src/board.rs:1984-2002 | a placement pushes the piece of the colour to place, spends it from the reserve, updates the hash and clears the hash history |
| Boards.Board.SpreadStack | src/board.rs:2006-2048 | a spread changes the cells as `SpreadCells` says, updates the hash around the path, and returns the `ReverseMove` of `SpreadReverse` |
| Boards.Board.DoPlace | src/board.rs:1978-2074 | `do_move` on a placement changes the board exactly as `PlaceSpec` says |
| Boards.Board.DoSpread | src/board.rs:1978-2074 | `do_move` on a spread changes the board exactly as `SpreadSpec` says and returns its reverse |
| Boards.Board.DoMove | src/board.rs:1978-2074 | `do_move` changes the board exactly as `DoSpec` says and returns the `ReverseMove` it gives |
| Boards.Board.TakeBackPlace | src/board.rs:2078-2090 | taking back a placement pops the piece, removes its key from the hash and refunds it to its owner's reserve |
| Boards.Board.Refund | src/board.rs:2084-2089 | a refunded piece goes back to the reserve of its colour and kind |
| Boards.Board.TakeBackSpread | src/board.rs:2093-2124 | moving the pieces back changes the cells as `UndoSpreadCells` says and updates the hash around the path |
| Boards.Board.StandWall | src/board.rs:2113-2118 | `replace_top` stands the top of the origin back up as a wall of its colour |
| Boards.Board.Unplace | src/board.rs:2076-2133 | `reverse_move` of a placement changes the board exactly as `UnplaceSpec` says |
| Boards.Board.Unspread | src/board.rs:2076-2133 | `reverse_move` of a spread changes the board exactly as `UnspreadSpec` says |
| Boards.Board.ReverseMove | src/board.rs:2076-2133 | `reverse_move` changes the board exactly as `UndoSpec` says |
| Boards.Board.CopyFile | src/board.rs:1667-1697 | one file of the target gets the squares the board map reads from, with the source's index formulas; the other files are unchanged |
| Boards.Board.CopyRearranged | src/board.rs:1667-1697 | copying every square from its mapped source gives the remapped cells |
| Boards.Board.Rearranged | src/board.rs:1667-1697 | `flip_board_y`, `flip_board_x` and `rotate_board` return a fresh board holding `Symmetries.Transform` of the position |
| Boards.Board.CopyFlipped | src/board.rs:1701-1706 | rebuilding every stack with each piece's colour flipped gives the colour-flipped cells |
| Boards.Board.FlipColors | src/board.rs:1699-1717 | `flip_colors` returns a fresh board holding `Symmetries.ColorsFlipped` of the position |
| Symmetries.SourceRankFile | src/board.rs:1667-1697 | the square each map reads from: `flip_board_y` mirrors the rank, `flip_board_x` mirrors the file, `rotate_board` reads rank `S-1-file`, file `rank`; the flips are their own inverses |
| Symmetries.SourceTarget | src/board.rs:1667-1697 | every board map has an inverse square map, so it is a bijection of the squares |
| Symmetries.SourceBijection | src/board.rs:1667-1697 | each of the eight transforms maps the squares one to one onto the squares |
| Symmetries.Remap | src/board.rs:1667-1697 | the mapped board holds at each (rank, file) the stack the map reads from |
| Symmetries.TransformAt | src/board.rs:1667-1697 | the mapped position holds at each square the stack at its source square |
| Symmetries.FlipInvolution | src/board.rs:1667-1685 | flipping a board twice along the same axis gives it back |
| Symmetries.RotateFour | src/board.rs:1687-1697 | rotating a board four times gives it back |
| Symmetries.RotateTwice | src/board.rs:1667-1697 | rotating twice is flipping along both axes |
| Symmetries.TransformKeeps | src/board.rs:1667-1697 | a board map keeps the number of pieces, the multiset of stacks, every other field, well-formedness and the piece-count equation |
| Symmetries.FlipStack | src/board.rs:1703-1705 | each piece keeps its role and changes colour |
| Symmetries.FlippedStack | src/board.rs:1702-1705 | rebuilding a stack by pushing each of its pieces with the colour flipped gives the colour-flipped stack |
| Symmetries.PiecesOnBoardFlip | src/board.rs:1701-1706 | swapping colours keeps the number of pieces on the board |
| Symmetries.ColorsFlippedInvolution | src/board.rs:1699-1717 | swapping colours twice gives the position back |
| Symmetries.ColorsFlippedKeeps | src/board.rs:1699-1717 | `flip_colors` flips every piece's colour, swaps the reserves, hands the move to the other side, keeps the (now stale) hash of the clone, and keeps well-formedness and the piece-count equation |
| Symmetries.ColorsFlippedTransform | src/board.rs:1667-1717 | swapping colours commutes with each board map |
| Symmetries.SymmetriesOf | src/board.rs:1720-1731 | `symmetries` lists 8 positions, the first being the board itself |
| Symmetries.SymmetriesKeep | src/board.rs:1720-1731 | every one of the 8 symmetries keeps the pieces, reserves, side to move, well-formedness and the piece-count equation |
| Symmetries.WithSwappedColors | src/board.rs:1734-1739 | each symmetry is followed by its colour-flipped copy |
| Symmetries.WithSwappedColorsValid | src/board.rs:1699-1739 | colour-swapped copies of well-formed, conserving boards are well formed and conserve pieces |
| Symmetries.WithSwappedColorsKeep | src/board.rs:1734-1739 | `symmetries_with_swapped_colors` lists 16 positions, each symmetry followed by its colour swap, all well-formed and obeying the piece-count equation when the board does |
| Seqs.PermuteMultiset | src/board.rs:1667-1697 | rearranging a sequence along a bijection keeps its multiset of elements |
| Groups.LinkedSym | src/board.rs:2505-2517 | connection through a set of squares is symmetric |
| Groups.LinkedTrans | src/board.rs:2505-2517 | connection through a set of squares is transitive |
| Groups.ConnectComponent | src/board.rs:2505-2517 | `connect_component` labels the start square with `id`, labels only unlabelled road squares with `id`, leaves no road neighbour of a newly labelled square unlabelled, and every square it labels is connected to the start through squares labelled `id` |
| Groups.ConnectedComponentsGraph | src/board.rs:2492-2503 | one pass labels every road square, gives each new component the next id, keeps neighbouring road squares in the same component and every component connected |
| Groups.LabelGroups | src/board.rs:1770-1781 | the white pass then the black pass label exactly the road squares; two adjacent road squares of one colour share a label, white and black never share one, every label is connected, and the ids in use are exactly 1 up to `highest_component_id` |
| Groups.BothPasses | src/board.rs:1770-1781 | after both passes the labels are sound: exactly the road squares are labelled, neighbours of one colour agree and the colours never share a label |
| Groups.WalkSameLabel | src/board.rs:2492-2517 | every square on a walk through road squares of one colour has the label of its first square |
| Groups.TopsBelow | src/board.rs:1754-1768 | the bitboard of a piece kind holds exactly the squares topped by that piece |
| Groups.PieceBoards | src/board.rs:1754-1768 | the first loop of `group_data` fills the six piece bitboards from the top stones |
| Groups.WinningHas | src/board.rs:1306-1309 | a mask is winning exactly when it touches north and south, or east and west |
| Groups.EdgesBelowHas | src/board.rs:1783-1791 | the edge mask of a group touches an edge exactly when one of its road-topped squares lies on that edge |
| Groups.AmountInGroup | src/board.rs:1783-1791 | `amount_in_group[k]` is the number of squares labelled `k` and the edges its road squares touch |
| Groups.NeighbourEdgesHas | src/board.rs:1655-1662 | the fold over neighbours touches an edge exactly when the start mask does or a neighbour topped by the colour belongs to a group that does |
| Groups.CriticalEdge | src/board.rs:1655-1662 | the critical-square mask touches an edge exactly when the square itself or an adjacent group of that colour reaches it |
| Groups.CriticalIff | src/board.rs:1648-1665 | a square is critical for a colour exactly when it joins north to south or east to west through itself and its neighbouring groups of that colour |
| Groups.CriticalBelow | src/board.rs:1793-1810 | the critical-square bitboard holds exactly the squares `is_critical_square_from_scratch` accepts |
| Groups.CriticalSquares | src/board.rs:1793-1810 | the last loop of `group_data` computes both critical-square bitboards |
| Groups.FirstEmpty | src/board.rs:1770-1781 | the first index from `i` with a zero count, or the end |
| Groups.HighestComponentId | src/board.rs:1770-1781 | the first unused group id (count 0 from 1 on) is the id counter after both passes |
| Groups.GroupDataOf | src/board.rs:1751-1812 | `group_data` returns sound and connected labels, the group sizes and edge masks, the piece bitboards and the critical squares of both colours |
| GameResults.Tops | src/board.rs:1755 | the top stone of every square |
| GameResults.FirstWith | src/board.rs:1918-1920 | `squares_iterator().find(..)` returns the first square from `i` with that label, or None exactly when there is none |
| GameResults.WinByRoadFrom | src/board.rs:1912-1928 | the square `is_win_by_road` returns is on the board and has a top stone |
| GameResults.WinByRoadFromSpec | src/board.rs:1902-1929 | the loop over the labels never panics; it returns a square of the side that just moved when that side has a spanning group, else a square of the side to move when it has one |
| GameResults.WinByRoadOn | src/board.rs:1902-1929 | on the labels of `group_data`, `is_win_by_road` returns a square whose colour is the road winner |
| GameResults.RoadWinnerOn | src/board.rs:1902-1929 | that winner is the side that just moved if it has a road, else the side to move if it has one, else nobody |
| GameResults.LinesAreEdges | src/board.rs:1913-1916 | the row and column tests of `is_win_by_road` are the edge tests: row 0 is the south edge, row S-1 the north, column 0 the west, column S-1 the east |
| GameResults.WinningIffSpans | src/board.rs:1848-1852 | a group's edge mask is winning exactly when the group spans the board in the sense `is_win_by_road` tests |
| GameResults.ZeroNotWinning | src/board.rs:1783-1791 | the unlabelled squares (id 0) never count as a winning group |
| GameResults.AnyWinningIffRoad | src/board.rs:1848-1852 | some group's mask is winning exactly when some colour has a spanning group |
| GameResults.AnyWinningOn | src/board.rs:1848-1852 | some group's mask is winning exactly when some colour has a road (an edge-to-edge path of adjacent road pieces) |
| GameResults.RoadBelowNext | src/board.rs:1853-1860 | every spanning group has an id below `highest_component_id`, so the loop `1..highest_component_id` misses none |
| GameResults.LabelFacts | src/board.rs:1751-1812 | exactly the road-topped squares are labelled, every label is below the first unused id, and squares sharing a label share a colour |
| GameResults.RoadSquaresArePieces | src/board.rs:1394-1400 | the road squares of a colour are `white_road_pieces`/`black_road_pieces` |
| GameResults.SpansGivesRoad | src/board.rs:1912-1926 | a spanning group of a colour contains a road of that colour |
| GameResults.RoadGivesSpans | src/board.rs:1912-1926 | a road of a colour lies in one spanning group of that colour |
| GameResults.RoadIffSpans | src/board.rs:1902-1929 | a colour has a spanning group exactly when it has a road |
| GameResults.GameResultWithGroupData | src/board.rs:1834-1898 | `game_result_with_group_data` never reaches `unreachable!`: two repetitions of the hash are a draw; otherwise a road of the side that just moved wins, then a road of the side to move; otherwise, when a player is out of pieces or the board is full, the flat count decides; otherwise there is no result |
| GameResults.GameResultOf | src/board.rs:2135-2137 | `game_result` gives the same decision from the position alone |
| MoveGen.MaxTake | src/move_gen.rs:70-74 | the most pieces a step may carry is at most the board size, at most what is carried from the origin, and fewer than what is carried further on |
| MoveGen.MovementsSound | src/move_gen.rs:60-138 | every movement list the recursion produces extends the partial list and is a valid continuation (`Emits`) |
| MoveGen.MovementsComplete | src/move_gen.rs:60-138 | every valid continuation is produced by the recursion |
| MoveGen.MovementsNoDup | src/move_gen.rs:60-138 | the recursion produces no movement list twice |
| MoveGen.EmitsAlongPath | src/move_gen.rs:60-138 | a produced list walks on the board, carries at least one piece at each step and never more than the step before, crosses only flats or empty squares, and ends on a wall only when a capstone moves |
| MoveGen.EmitsTakes | src/move_gen.rs:60-138 | a produced list is non-empty, strictly decreasing, takes at most the stack height and the board size, and has fewer steps than the board size |
| MoveGen.RoomyWhenLow | src/board.rs:1020-1026 | boards whose stacks are all at most 65 - S high leave room for any spread |
| MoveGen.EmitsLegal | src/move_gen.rs:60-138 | every produced list is a legal spread in the sense of `do_move` |
| MoveGen.LeftBehind | src/board.rs:1815-1832 | `top_stones_left_behind_by_move` yields, for each movement, the top that the origin's lower pieces leave, then the origin's top |
| MoveGen.SpreadTops | src/board.rs:1815-1832 | those are exactly the tops of the squares on the path once the spread is played |
| MoveGen.FirstSpanning | src/board.rs:1912-1926 | the first spanning label from `id`, None exactly when there is none below `highest` |
| MoveGen.RoadComponents | src/board.rs:2492-2503 | labelling one colour's road bitboard gives sound, connected labels that cover every road square |
| MoveGen.SpanningIffRoad | src/move_gen.rs:168-179 | `is_win_by_road(..).is_some()` on the labels of a road bitboard holds exactly when the bitboard contains a road |
| MoveGen.RoadStones | src/move_gen.rs:150-151 | `road_stones` holds exactly the squares topped by a road piece of the colour |
| MoveGen.SimulateRoads | src/move_gen.rs:150-166 | the loop over the left-behind tops rebuilds both road bitboards along the visited squares |
| MoveGen.MoveIsSuicide | src/move_gen.rs:142-214 | `move_is_suicide` computes `IsSuicide`: a spread that leaves a top of the opponent, gives the mover no road and gives the opponent one |
| MoveGen.SimulatedIsAfter | src/move_gen.rs:150-166 | the simulated road bitboards are the road bitboards of the board after the spread |
| MoveGen.SuicideMeaning | src/move_gen.rs:142-214 | a spread is a suicide exactly when it leaves an opponent top and, after it, the mover has no road and the opponent has one |
| MoveGen.GenerateMovingMovesCap | src/move_gen.rs:60-100 | the capstone recursion appends exactly the movement lists `Movements` lists, in its order |
| MoveGen.GenerateMovingMovesNonCap | src/move_gen.rs:102-138 | the non-capstone recursion appends exactly the movement lists `Movements` lists, in its order |
| MoveGen.MovementsFit | src/move_gen.rs:60-138 | every produced movement list fits the origin stack |
| MoveGen.PushSpreads | src/move_gen.rs:46-52 | the filter loop keeps the non-empty lists that are not suicide, in order |
| MoveGen.PushDirectionSpreads | src/move_gen.rs:26-52 | the spreads of one direction are the kept movement lists of the matching recursion |
| MoveGen.PushSquareSpreads | src/move_gen.rs:25-53 | the loop over `directions` appends the spreads of each direction in turn |
| MoveGen.PushSquareMoves | src/move_gen.rs:14-55 | one square yields flat and wall placements when stones are left, a capstone placement when capstones are left, the spreads when the mover's piece is on top, and nothing otherwise |
| MoveGen.GenerateMovesColortr | src/move_gen.rs:9-58 | `generate_moves_colortr` appends the moves of every square in square order |
| MoveGen.GenerateMoves | src/board.rs:1962-1976 | `generate_moves` appends the flat placements on the empty squares during the first two plies and the moves of the side to move afterwards |
| MoveGen.KeptSpreadsMembers | src/move_gen.rs:46-52 | a spread is kept exactly when its list is one of the candidates, is non-empty and is not a suicide |
| MoveGen.DirectionSpreadsMembers | src/move_gen.rs:26-52 | a spread is generated in a direction exactly when its list is a valid continuation that fits the stack and is not a suicide |
| MoveGen.SquareMovesPlace | src/move_gen.rs:15-23 | a placement is generated for a square exactly when the square is empty and a piece of that kind is left |
| MoveGen.SquareMovesSpread | src/move_gen.rs:24-53 | a spread is generated for a square exactly when the mover's piece is on top and the spread is generated in its direction |
| MoveGen.SquareMovesMembers | src/move_gen.rs:13-56 | the moves of a square are exactly the moves on it that are generated |
| MoveGen.ColortrMembers | src/move_gen.rs:9-58 | the moves of the squares below `n` are exactly the generated moves on them |
| MoveGen.OpeningMembers | src/board.rs:1964-1970 | the opening moves are exactly the flat placements on empty squares |
| MoveGen.GeneratedMoves | src/board.rs:1962-1976 | a move is generated exactly when it is an opening flat placement on an empty square, or afterwards a move the side to move may make |
| MoveGen.SpreadGeneratedOk | src/move_gen.rs:24-53 | a generated spread is legal for `do_move` and has at most seven movements |
| MoveGen.GeneratedLegal | src/board.rs:1962-1976 | after the opening every generated move is legal for `do_move` |
| MoveGen.GeneratedNotSuicide | src/move_gen.rs:46-52 | no generated spread that leaves an opponent top gives the opponent a road without giving the mover one |
| Notation.ParseDirection | src/board.rs:1250-1258 | `Direction::parse` accepts exactly `+ < > -`, returns the direction that prints as the character, and panics otherwise |
| Notation.ParseDirectionChar | src/board.rs:1250-1258 | parsing the character a direction prints as gives the direction back |
| Notation.DigitValue | src/board.rs:1193 | `to_digit(10)` gives a digit whose character is the input |
| Notation.Decimal | src/board.rs:1142 | a count below 256 prints as one to three digits, one digit below 10 |
| Notation.MoveToString | src/board.rs:1117-1150 | `Move::to_string`, with its running `pieces_held`, prints the move as `MoveString` defines it |
| Notation.AppendDropCounts | src/board.rs:1139-1146 | the loop over the later movements appends the dropped counts and then what is left in hand |
| Notation.DigitsOf | src/board.rs:1190-1194 | the digit values of a string, one per character; a non-digit panics on `unwrap` |
| Notation.TakesAfter | src/board.rs:1195-1207 | the takes rebuilt from the drop amounts never exceed what is held and never increase; a drop larger than what is held or an eighth movement panics |
| Notation.ParseMove | src/board.rs:1152-1220 | a parsed move names an on-board square; a parsed spread has one to seven movements, takes one to eight pieces first and never more later |
| Notation.ParseMoveSourceOrder | src/board.rs:1152-1164 | the source's order of tests (byte length, then ASCII) gives the same errors as the model's order, and an ASCII text has as many bytes as characters |
| Notation.Movements | src/board.rs:1197-1207 | the loop that builds the movements from the drop amounts computes the taken count followed by `TakesAfter` |
| Notation.MoveFromString | src/board.rs:1152-1220 | `Move::from_string` computes `ParseMove`, errors and panics included |
| Notation.TakesAfterDrops | src/board.rs:1139-1207 | rebuilding the takes from the drop amounts printed for them gives the takes back |
| Notation.MoveRoundTrip | src/board.rs:1117-1220 | every move whose square is on the board and whose takes are at most eight and non-increasing (a first take above one when there are several) prints as ASCII and parses back to itself |
| Notation.PlaceRoundTrip | src/board.rs:1120-1183 | placements print and parse back |
| Notation.SingleStepRoundTrip | src/board.rs:1127-1177 | a one-piece, one-step spread prints in the short form and parses back |
| Notation.CountedRoundTrip | src/board.rs:1125-1208 | a spread with a count prints in the long form and parses back |
| Notation.PlacementCanonical | src/board.rs:1117-1183 | a string that parses to a placement is the printed form of that placement |
| Notation.LastCountIgnored | src/board.rs:1195 | the last digit of a long-form spread is dropped unread (`amounts_to_drop.pop()`), so any digit there parses the same |
| Notation.DirectionChar | src/board.rs:1132-1137 | a direction prints as one ASCII character |
| Notation.DropCountsDigits | src/board.rs:1139-1194 | the printed drop counts are ASCII digits that read back as the drop amounts followed by what is left in hand |
| Notation.CountDigits | src/board.rs:1139-1207 | for a counted spread the printed digits read back and rebuild the takes after the first |
| Notation.ParseMoveCounted | src/board.rs:1184-1208 | a string that starts with a count `1`..`8` is read as a counted spread |
| Notation.ParseSpreadOk | src/board.rs:1184-1208 | a square, a direction and digits that rebuild the takes parse to that spread |
| Notation.SpreadLastIgnored | src/board.rs:1195 | in a counted spread the last digit can be any digit without changing the result |
| Notation.SquareStringShape | src/board.rs:876-905 | a square prints as a file letter from `a` and ASCII text that parses back to the square |
| Tps.PushPiece | src/board.rs:2394-2395 | pushing a parsed digit keeps the stack in shape (only the top may be a wall or a capstone) and grows it by one |
| Tps.StackFrom | src/board.rs:2390-2415 | the inner `loop` of `parse_row` yields a well-formed stack and moves forward; `S`/`C` on nothing panic on `unwrap`, other characters are a parse error |
| Tps.Retop | src/board.rs:2396-2403 | `S` and `C` replace the top by a wall or a capstone of its colour, keeping the height |
| Tps.RowFrom | src/board.rs:2364-2424 | the `while column_id < S` loop only ever builds `S` well-formed stacks; running out of input before the last column is an error, input after it is ignored |
| Tps.EmptyRow | src/board.rs:2362 | the row starts as `S` empty stacks |
| Tps.ParseRow | src/board.rs:2360-2426 | a parsed row has exactly `S` well-formed stacks |
| Tps.ParseRowLoop | src/board.rs:2360-2426 | the loop over an array of stacks computes `ParseRow`, errors included |
| Tps.ReadSquare | src/board.rs:2365-2423 | one iteration of the row loop advances the input and agrees with `RowFrom` on the rest of the row, or fails exactly where `RowFrom` fails |
| Tps.SkipEmpty | src/board.rs:2372-2389 | `x` and `xN` skip one or `N` columns and must be followed by `,` or the end of the row |
| Tps.StackLoop | src/board.rs:2390-2415 | the stack loop on a `Stack` computes `StackFrom`, errors included |
| Tps.DigitsRead | src/board.rs:2394-2395 | reading a run of colour digits pushes flats of those colours in order |
| Tps.StackRoundTrip | src/board.rs:2390-2415 | the TPS text of any well-formed stack reads back as that stack |
| Tps.RowRoundTrip | src/board.rs:2364-2424 | a comma-separated run of stack texts reads back into the columns it fills |
| Tps.ParseRowString | src/board.rs:2360-2426 | `parse_row` reads back every row of `S` well-formed stacks written in TPS |
| TpsBoard.WordEnd | src/board.rs:2277 | a word of `split_whitespace` ends at whitespace or at the end and holds none |
| TpsBoard.WordsFrom | src/board.rs:2277 | `split_whitespace` yields non-empty words free of whitespace |
| TpsBoard.WordsUnwords | src/board.rs:2277 | `split_whitespace` gives back the words of a space-joined text |
| TpsBoard.NextSep | src/board.rs:2292 | a part of `split('/')` ends at the separator or at the end and holds none |
| TpsBoard.SplitFrom | src/board.rs:2292 | `split('/')` yields at least one part and no part holds the separator |
| TpsBoard.SplitJoin | src/board.rs:2292 | `split('/')` gives back the parts of a `/`-joined text |
| TpsBoard.ParseRows | src/board.rs:2301-2311 | the rows parse when every row parses, each to its own row; one failing row fails them all |
| TpsBoard.RowFailure | src/board.rs:2305-2311 | wrapping a row's error keeps a panic a panic |
| TpsBoard.RowsFirstFailure | src/board.rs:2301-2311 | the first row that fails decides the error |
| TpsBoard.Cells | src/board.rs:2313-2316 | square `sq` takes the stack at its rank and file of the parsed rows |
| TpsBoard.Placed | src/board.rs:2312-2326 | the board with those stacks and the reserves less the pieces on it |
| TpsBoard.PlacedConserved | src/board.rs:2312-2326 | when the pieces fit the reserves, the board read from TPS has every piece either on the board or in reserve |
| TpsBoard.Side | src/board.rs:2328-2337 | the side to move is white for `1`, black for `2`, nothing else |
| TpsBoard.ParseUsize | src/board.rs:2339 | `parse::<usize>` succeeds only with a value that fits 64 bits and fails with a parse error |
| TpsBoard.DecimalRoundTrip | src/board.rs:2339 | a number printed in decimal reads back as itself |
| TpsBoard.ParseUsizeDecimal | src/board.rs:2339 | every 64-bit number printed in decimal, with or without `+`, parses back |
| TpsBoard.HalfMoves | src/board.rs:2340-2343 | `(n - 1) * 2 (+ 1)` succeeds exactly for move numbers from 1 to half the range plus one, its parity gives the side to move and it maps back to `n`; otherwise it overflows and panics |
| TpsBoard.FromFen | src/board.rs:2276-2358 | a position read from TPS has well-formed stacks, conserves pieces, carries the hash of its stacks and side to move, and an odd ply count exactly when black is to move |
| TpsBoard.FromRows | src/board.rs:2312-2358 | from parsed rows: the stacks of those rows, no history, the hash from scratch, and a ply count whose parity is the side to move |
| TpsBoard.SideAndMove | src/board.rs:2328-2355 | the side to move and the move number change only the side, the ply count and the hash, which is recomputed |
| TpsBoard.Plies | src/board.rs:2339-2343 | the ply count fits 64 bits, its parity is the side to move and it maps back to the move number given |
| TpsBoard.FromFenRows | src/board.rs:2277-2311 | three words whose first splits into `S` rows that parse reduce `from_fen` to building from those rows |
| TpsBoard.FromRowsPlaced | src/board.rs:2312-2326 | more pieces than the reserves hold underflow a reserve and panic; otherwise the stacks are placed and the side and move number read |
| TpsBoard.ReadRows | src/board.rs:2301-2311 | the `map(parse_row).collect()` loop computes `ParseRows`, errors included |
| TpsBoard.TakePiece | src/board.rs:2317-2323 | taking one piece out of its owner's reserve keeps the count of what is left, or reports that the pieces no longer fit |
| TpsBoard.TakeStack | src/board.rs:2316-2324 | taking a stack's pieces out of the reserves keeps the count, or panics exactly when they do not fit |
| TpsBoard.PlaceRows | src/board.rs:2312-2326 | the square loop sets every square and leaves the board `Placed` describes, or panics exactly when the pieces do not fit |
| TpsBoard.PlaceSquare | src/board.rs:2313-2325 | one square of that loop |
| TpsBoard.StoreSquare | src/board.rs:2325 | `board[square] = stack` sets that square and keeps the ones before it |
| TpsBoard.ReadPlies | src/board.rs:2339-2352 | the move-number match computes `Plies` |
| TpsBoard.ReadSideAndMove | src/board.rs:2328-2355 | the side and move-number reads on the board compute `SideAndMove` |
| TpsBoard.BoardFromFen | src/board.rs:2276-2358 | `from_fen` on a board computes `FromFen`, errors and panics included |
| Parameters.SquareSymmetries | src/board.rs:39-60 | every square has a symmetry class below `num_square_symmetries` |
| Parameters.NumValueFeatures | src/evaluation/parameters.rs:241-248 | the value feature count exists exactly for sizes 4 to 6 (`unimplemented!` otherwise) |
| Parameters.NumPolicyFeatures | src/evaluation/parameters.rs:250-257 | the policy feature count exists exactly for sizes 4 to 6 |
| Parameters.SplitChain | src/evaluation/parameters.rs:38-59 | a chain of `split_at_mut` succeeds exactly when the widths fit, the pieces tile the vector in order and the rest starts after them |
| Parameters.TilesDisjoint | src/evaluation/parameters.rs:38-59 | the sub-slices of a chain do not overlap |
| Parameters.TilesCover | src/evaluation/parameters.rs:38-59 | the sub-slices of a chain cover the vector from its start to the sum of the widths |
| Parameters.ValueWidths | src/evaluation/parameters.rs:38-57 | the value vector is carved into the 18 named fields |
| Parameters.NewValueFeatures | src/evaluation/parameters.rs:35-81 | `ValueFeatures::new` succeeds only on a vector of `num_value_features` coefficients and then tiles it with the 18 fields |
| Parameters.ValueWidthsSum | src/evaluation/parameters.rs:3-10 | the 18 widths add up to the stated constants 51, 69 and 72 |
| Parameters.NewValueFeaturesSucceeds | src/evaluation/parameters.rs:35-59 | the two asserts hold exactly for vectors of the stated length |
| Parameters.PolicyWidths | src/evaluation/parameters.rs:139-186 | the policy vector is carved into the 46 named fields |
| Parameters.NewPolicyFeatures | src/evaluation/parameters.rs:136-238 | `PolicyFeatures::new` succeeds only on a vector of `num_policy_features` coefficients and then tiles it with the 46 fields |
| Parameters.PolicyWidthsSum | src/evaluation/parameters.rs:3-10 | the 46 widths add up to the stated constants 130, 149 and 159 |
| Parameters.NewPolicyFeaturesSucceeds | src/evaluation/parameters.rs:136-188 | the two asserts hold exactly for vectors of the stated length |
| ValueEval.SlotBound | src/evaluation/parameters.rs:38-57 | every index of a field's sub-slice lands inside that field and inside the vector |
| ValueEval.SlotsDistinct | src/evaluation/parameters.rs:38-57 | two different field indices name two different coefficients, so a write to one field never touches another |
| ValueEval.ApplyAppend | src/evaluation/value_eval.rs:11-183 | running two lists of writes one after the other is running their concatenation |
| ValueEval.Write | src/evaluation/value_eval.rs:25-35 | one `+=` or `=` on a named field changes exactly the coefficient it names |
| ValueEval.TallyAppend | src/evaluation/value_eval.rs:11-183 | the writes to a coefficient from two lists add up |
| ValueEval.TallyNone | src/evaluation/value_eval.rs:11-183 | a list that never names a coefficient writes nothing to it |
| ValueEval.LowerUpdatesMeaning | src/evaluation/value_eval.rs:37-46 | each piece below the top of a stack adds the top's colour multiplier to `our_stack_psqt` when it is the top's colour and subtracts it from `their_stack_psqt` otherwise |
| ValueEval.PsqtEmpty | src/evaluation/value_eval.rs:21 | an empty square writes nothing |
| ValueEval.PsqtOccupied | src/evaluation/value_eval.rs:21-48 | an occupied square adds its top's multiplier to the psqt of its top's role at its symmetry class, then one stack write per piece below |
| ValueEval.PsqtInBounds | src/evaluation/value_eval.rs:21-48 | the square-table writes stay in the five psqt fields at the square's class |
| ValueEval.TopPsqt | src/evaluation/value_eval.rs:23-36 | the `match piece` writes the psqt of the top and counts a white or black flat top |
| ValueEval.LowerPsqt | src/evaluation/value_eval.rs:37-47 | the loop over the pieces below the top makes exactly the stack psqt writes |
| ValueEval.SquarePsqt | src/evaluation/value_eval.rs:20-48 | one square of the first loop makes that square's writes and counts its flat top |
| ValueEval.PsqtPass | src/evaluation/value_eval.rs:19-49 | the first square loop makes every square's writes and counts the white and black flat tops |
| ValueEval.NumberOfGroups | src/evaluation/value_eval.rs:55-68 | the `seen_groups` loop sums the top colour multiplier of the first square of each group |
| ValueEval.GroupSumCounts | src/evaluation/value_eval.rs:55-68 | that sum is the number of white groups less the number of black groups |
| ValueEval.IdsStep | src/evaluation/value_eval.rs:60-66 | a square adds a group of its colour exactly when it is the first of a non-empty group |
| ValueEval.GroupDataByColor | src/board.rs:1751-1812 | the groups of `group_data` are single-coloured and their ids stay within `S * S`, so `seen_groups` is large enough |
| ValueEval.PhaseFactors | src/evaluation/value_eval.rs:70-81 | the three phase factors lie in `[0, 1]`, add up to one, the opening and endgame factors are never both positive, and each reaches zero or one at the stated ply counts |
| ValueEval.PhaseAssignmentsFields | src/evaluation/value_eval.rs:83-96 | the nine assignments set the side-to-move, flatstone-lead and group-count fields and stay in bounds |
| ValueEval.AssignPhase | src/evaluation/value_eval.rs:83-96 | one phase's three assignments |
| ValueEval.CriticalClassMeaning | src/evaluation/value_eval.rs:191-202 | a critical square is classed 0 when empty, 1 under our wall, 2 under their flat and 3 otherwise |
| ValueEval.CappedStackMeaning | src/evaluation/value_eval.rs:209-213 | each of our flats in a capped stack adds our multiplier to the sixth critical-square weight |
| ValueEval.CapNeighbourMeaning | src/evaluation/value_eval.rs:205-215 | a neighbour writes only the fifth and sixth critical-square weights, with our multiplier |
| ValueEval.CriticalUpdatesMeaning | src/evaluation/value_eval.rs:186-216 | a critical square writes exactly one of the four class weights, the one of its class, and only in-bounds critical-square weights |
| ValueEval.CappedStack | src/evaluation/value_eval.rs:209-213 | the loop over a capped neighbour makes exactly those writes |
| ValueEval.CriticalClassEval | src/evaluation/value_eval.rs:191-202 | the `if` chain writes the class weight |
| ValueEval.CapNeighbourEval | src/evaluation/value_eval.rs:206-214 | a neighbour topped by our capstone writes the fifth weight and the capped-stack writes, any other neighbour nothing |
| ValueEval.CriticalSquareEval | src/evaluation/value_eval.rs:186-216 | `critical_squares_eval` makes exactly the writes of the critical square |
| ValueEval.NextToMeaning | src/evaluation/value_eval.rs:127-148 | neighbour writes happen only under a flat top and add its multiplier times the stack height to one of the three next-to-our-stack fields |
| ValueEval.StackTopMeaning | src/evaluation/value_eval.rs:114-125 | a capstone over our own piece, a capstone on a stack and a wall on a stack are each counted once exactly when they hold |
| ValueEval.StackUpdatesMeaning | src/evaluation/value_eval.rs:109-149 | on a stack of two or more, the three top-of-stack counts hold for the whole square's writes |
| ValueEval.StackUpdatesBounds | src/evaluation/value_eval.rs:109-149 | a stack's writes are in-bounds additions, and the neighbour ones carry the top's multiplier times the height |
| ValueEval.NextToOne | src/evaluation/value_eval.rs:129-147 | one neighbour's write |
| ValueEval.NextToEval | src/evaluation/value_eval.rs:128-148 | the neighbour loop makes exactly the neighbour writes |
| ValueEval.StackTopEval | src/evaluation/value_eval.rs:110-125 | the capstone and wall checks make exactly the top-of-stack writes |
| ValueEval.StackEval | src/evaluation/value_eval.rs:109-149 | one stack of the `for_each` makes exactly its writes |
| ValueEval.LineSize | src/evaluation/value_eval.rs:156 | each of the `2 * S` lines has `S` squares |
| ValueEval.LineMembers | src/evaluation/value_eval.rs:156 | line `k` is rank `k` for `k < S` and file `k - S` otherwise |
| ValueEval.SquareOnLines | src/evaluation/value_eval.rs:156 | every square lies on its rank and on its file |
| ValueEval.LineCount | src/evaluation/value_eval.rs:223 | a line holds at most `S` road stones, fewer exactly when the line is not full |
| ValueEval.LineScoreMeaning | src/evaluation/value_eval.rs:218-236 | `line_score` adds once to `line_control` at the count, adds three blocking writes from three road stones on, and stays in bounds exactly when the line is not full |
| ValueEval.LineScoreWrites | src/evaluation/value_eval.rs:225-235 | the writes of one line for one colour |
| ValueEval.LineScore | src/evaluation/value_eval.rs:218-236 | `line_score` on a line that is not full makes exactly its writes |
| ValueEval.LinePass | src/evaluation/value_eval.rs:156-159 | the loop over all lines makes every line's writes for white then black |
| ValueEval.OccupiedNone | src/evaluation/value_eval.rs:161-177 | no line counts as occupied exactly when the road stones miss all of them |
| ValueEval.NoLinesOccupied | src/evaluation/value_eval.rs:161-177 | no rank (or no file) is occupied exactly when a colour has no road stones |
| ValueEval.OccupiedUpdatesMeaning | src/evaluation/value_eval.rs:179-182 | the four `num_lines_occupied` writes are in bounds, plus one for white and minus one for black |
| ValueEval.CountOccupied | src/evaluation/value_eval.rs:161-177 | the rank and file loops count the occupied lines of each colour |
| ValueEval.OccupiedWrites | src/evaluation/value_eval.rs:179-182 | the four writes at the counts |
| ValueEval.LinesOccupiedEval | src/evaluation/value_eval.rs:151-182 | counting and writing the occupied lines makes exactly those writes |
| ValueEval.PhasePass | src/evaluation/value_eval.rs:70-96 | the phase block makes the nine assignments |
| ValueEval.CriticalPass | src/evaluation/value_eval.rs:98-104 | the loop over one colour's critical squares makes exactly their writes |
| ValueEval.StackPass | src/evaluation/value_eval.rs:106-149 | the stack `for_each` makes the writes of every stack of two or more |
| ValueEval.EvalApplySplit | src/evaluation/value_eval.rs:11-183 | the evaluation is the square pass, then the phase assignments, then the later passes |
| ValueEval.LaterPasses | src/evaluation/value_eval.rs:98-182 | the critical, stack, line and occupied-line passes in order |
| ValueEval.StaticEval | src/evaluation/value_eval.rs:11-183 | `static_eval_game_phase` leaves the coefficients the writes `EvalUpdates` lists would leave |
| ValueEval.EarlyPasses | src/evaluation/value_eval.rs:16-96 | the square pass and the phase assignments with the counted flat lead and group count |
| ValueEval.StaticEvalGamePhase | src/evaluation/value_eval.rs:11-183 | on the group data of the position, the evaluation is `EvalUpdates` |
| ValueEval.EvalWrites | src/evaluation/value_eval.rs:11-183 | every write of the evaluation is in bounds, and only the phase fields are assigned rather than added to |
| ValueEval.ApplyElsewhere | src/evaluation/value_eval.rs:11-183 | writes to other coefficients leave a coefficient as it was |
| ValueEval.PhaseSlots | src/evaluation/value_eval.rs:83-96 | one phase's assignments set its three coefficients to the phase weight times the side multiplier, the lead and the group count |
| ValueEval.PhaseKeeps | src/evaluation/value_eval.rs:83-96 | one phase's assignments keep the other phases' coefficients |
| ValueEval.PhaseAssignmentsCopy | src/evaluation/value_eval.rs:83-96 | after the nine assignments each phase holds its weight times the three values |
| ValueEval.AddsKeepPhase | src/evaluation/value_eval.rs:98-182 | the later passes never touch the phase coefficients |
| ValueEval.EvalPhase | src/evaluation/value_eval.rs:11-183 | after the whole evaluation the phase coefficients still hold the phase-weighted values |
| ValueEval.CopiesSum | src/evaluation/value_eval.rs:78-96 | weights adding up to one split each value into three parts that add back to it |
| ValueEval.GroupCountMeaning | src/evaluation/value_eval.rs:55-68 | the group count is the white groups less the black groups |
| ValueEval.EvalPhaseSums | src/evaluation/value_eval.rs:11-96 | across the three phases the evaluation's side-to-move, flatstone-lead and group-count coefficients add up to the side multiplier, the flat-top lead and the white-less-black group count |

## Left out

- Stacks.MaxHeight: a `Stack` holds at most 65 pieces (64 layer bits under an explicit top). `Stack::push` onto a 65-piece stack whose top is white calls `bitboard.set(64)`, one past the 64-bit word (src/board.rs:1020-1026); `crate::bitboard` is not part of this model, so the model does not state what that gives. Onto a black top the source's `push` makes a 66-piece stack without touching the word, which the model's `Stack` cannot hold. Stacks.Stack.Push therefore requires a height below 65.
- Tps.StackFrom and Tps.StackLoop: a 66th piece in one TPS stack gives a `Panic` outcome whatever its colour. `parse_row` (src/board.rs:2390-2415) pushes it with `Stack::push`, which builds a 66-piece stack when the 65th piece is black, so the model refuses some text the source accepts. On boards up to 6×6, which have at most 62 pieces, no such text describes a reachable position.
- Size 3: every member requires `ValidSize`, sizes 4 to 8. The source has no Zobrist keys for size 3: `zobrist_top_stones`, `zobrist_stones_in_stack` and `zobrist_to_move` panic for every other size (src/board.rs:1445, src/board.rs:1460, src/board.rs:1471). `Board::default` and `from_fen` compute the hash through them, so no size-3 position can be built.
- Positions.PlaceOk: a placement on a square already holding 65 pieces is refused rather than modelled. This cannot happen on boards up to 6×6, which have at most 62 pieces. On 7×7 and 8×8 boards it is reachable in principle.
- MoveGen.EmitsLegal, MoveGen.SpreadGeneratedOk, MoveGen.GeneratedLegal and MoveGen.GeneratedNotSuicide require `Roomy`: no stack plus what a spread can drop on it exceeds 65 pieces. This follows from the same 65-piece cap, and MoveGen.RoomyWhenLow shows it holds whenever every stack is at most 65 − S high.
- Positions.PlaceOk also requires the mover to have a piece of the role left. `do_move` decrements a `u8` reserve (src/board.rs:1992-1999). The move generator never places from an empty reserve, and the model does not state what an underflow would give.
- Notation.TakesAfter: `pieces_held - amount` on a `u8` and pushing an eighth movement into the `ArrayVec` (src/board.rs:1195-1207) are modelled as a panic outcome. This is the behaviour of a debug build; a release build wraps the subtraction, and the model does not cover that.
- TpsBoard.TakePiece and TpsBoard.TakeStack: the reserve decrements of `from_fen` (src/board.rs:2317-2323) underflow a `u8` when a TPS string holds more pieces than a player owns. The model gives a panic outcome (debug build), not the wrapped value of a release build.
- TpsBoard.HalfMoves and TpsBoard.ReadPlies: `(n - 1) * 2 (+ 1)` on a 64-bit `usize` (src/board.rs:2340-2343) is a panic outcome when `n` is 0 or the product overflows (debug build), not the wrapped value of a release build.
- ValueEval.PhaseFactors: the three phase factors are computed in `f32` in the source (src/evaluation/value_eval.rs:70-78). The model computes them, and every coefficient, in exact reals. So ValueEval.EvalPhaseSums (the three phases add back to the unweighted value) holds exactly only for reals; in `f32` it holds up to rounding.
- ValueEval.StaticEvalGamePhase, ValueEval.StaticEval, ValueEval.LinePass and ValueEval.LaterPasses require `NoFullLine`: no colour has a road stone on every square of a rank or file. With a full line, `block_their_line[4 + S - 3]` (src/evaluation/value_eval.rs:233) is one past the end of its `S + 1` slots and would panic, as ValueEval.LineScoreMeaning shows. The evaluation is only called on positions that are not over, as the assert at src/board.rs:2204 states, and a full line of road stones is a road.
- Positions.UndoDo: undoing a placement gives back the position before the move except for `hash_history`. `do_move` clears that history on a placement (src/board.rs:2002), and `reverse_move` cannot restore it (src/board.rs:2078-2091). The model states exactly this, as the source does.
- Symmetries.TransformKeeps and Symmetries.ColorsFlippedKeeps: a mapped board keeps the hash of the board it was cloned from, as `clone()` in `flip_board_x`, `flip_board_y`, `rotate_board` and `flip_colors` does (src/board.rs:1667-1717). The hash of a mapped board is therefore not, in general, the hash of its own stacks.
- Symmetries.SymmetriesOf and Symmetries.WithSwappedColorsOf model `symmetries` and `symmetries_with_swapped_colors` as lists of position values. The `Board` methods that build one mapped board in place (Boards.Board.CopyRearranged, Boards.Board.CopyFlipped) are proved against the same maps. The `Vec` of freshly allocated boards is not built by a method.
- Boards.Board.Clone copies the fields of a board. `moves` and `hash_history` are modelled as sequences, so the deep copy of the two `Vec`s is a sequence assignment.
- BitBoards: `crate::bitboard` is not part of this model. The 64-bit set is modelled from the operations board.rs, move_gen.rs and value_eval.rs use (`set`, `clear`, `get`, `count`, `lower_n_bits`, rank and file masks, `|`, `&`, `!`) as the engine uses them.
- `Color`, its `!` and `multiplier` come from the `board_game_traits` crate, which is not part of this model; Pieces.Color models them from their uses.
- The Zobrist key tables: they are generated from a random number generator at start-up (src/board.rs:1475-1487). Here they are a `Keys` parameter, one 64-bit key per (square, piece), per (slot, square, byte) and per colour.
- `to_fen` (src/board.rs:2429-2446) prints one character per square rather than TPS, so it has no round trip with `from_fen` and is not modelled. Tps.RowString and TpsBoard.Unwords are independent writers of TPS text, used only to state that `parse_row` and `split_whitespace` read back what they write.
- TPS error messages: the model keeps the kind of each failure (parse error or panic) and a short message. It does not keep the full formatted text, which quotes the input.
- TpsBoard.IsWhitespace: `split_whitespace` splits at Unicode `White_Space`. The model lists those code points explicitly.
- `Direction::parse` panics on any other character (src/board.rs:1256). Notation.ParseDirection gives a panic outcome there, so a bad direction in `Move::from_string` is a panic, not a parse error.
- src/move_gen.rs is written against an older board interface: a free `connected_components_graph` returning a pair, `is_win_by_road` on bitboards, `BOARD_SIZE`, `Standing`, and `Move::Place(Piece, _)`. MoveGen models it with the board.rs functions of the same names, for any size `S`, with `Wall` for `Standing` and `Move::Place(Role, Square)`.
- The doc comment at src/board.rs:1955-1957 says suicide moves are generated. The generator in src/move_gen.rs:46-52 filters them out, and MoveGen follows the generator.
- `ValueParameters` in value_eval.rs is modelled as the `ValueFeatures` layout of parameters.rs: one coefficient array with a slice per field.
- Floating-point weights and dot products (src/board.rs:62-554, 586-590, 1931-1939; src/evaluation/parameters.rs:259-910) are not modelled. Neither are `TunableBoard` with its policy and search calls (src/board.rs:579-620, 2182-2272), the `Debug` formatter (src/board.rs:1561-1600), PTN game files, and the AWS Lambda service (src/bin/aws_lambda.rs, src/aws/mod.rs). They are numeric data, calls into modules that are not part of this model, presentation, or I/O.
- Concurrency and allocation failure are not modelled.
