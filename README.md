# Watch Your Back! engine and alpha-beta player, in Dafny

This project models the game engine of `watchyourback.py` and the
alpha-beta player of `minimax_module.py`, and proves what they do.

The game is played on an 8×8 board. Each square holds `O` (white), `@`
(black), `X` (a corner) or `-` (empty). A piece is captured when it is
sandwiched along a row or a column between enemy pieces or corners. The
play area shrinks by one ring at turns 128 and 192, and new corners appear
in the new area's corners. The player places pieces for the first 24 turns
and moves them afterwards. It picks each play with a depth-limited minimax
search with fail-hard alpha-beta pruning. The search runs on the player's
own board: it applies each candidate play, evaluates the board below it,
and undoes the play.

The model keeps the source's structure:

- `Rules` (rules.dfy): sides, cells, directions, `step`, the ring and corner
  geometry and the constants.
- `BoardModel` (state.dfy): the board as a value. Pieces live in an arena:
  a sequence of `(player, pos, alive)` records indexed by a handle, and each
  side's dictionary maps a square to a handle. Undo therefore revives the
  very pieces a capture killed. Every Board and Piece operation is a
  function here: `get_piece`, `get_alive`, `get_border_pieces`,
  `count_outside`, `check_win`, `starting_zone`, `place_piece`,
  `undo_place`, `remove_piece`, `update_team`, `check_eliminated`,
  `resurrect`, `eliminate_surrounding`, `make_move`, `undo_move`,
  `listmoves` and `shrink`.
- `Engine` (board.dfy): class `Board`, with the source's fields updated in
  place by methods that follow the Python loops. Each method is proved to
  leave exactly the state the matching `BoardModel` function computes. The
  Piece methods become Board methods that take the piece's handle, because
  a Python Piece only reaches the board through its `board` field.
- `BoardProps`, `QueryProps`, `ShrinkProps` (engine_props.dfy,
  query_props.dfy, shrink_props.dfy): what those functions do. This covers
  capture, place/undo and move/undo round trips, move generation, win
  detection, the starting zones and the shrink.
- `SearchProps` (search_props.dfy): how placements, moves and their undos
  keep a board "restored". A restored board has the same grid, area and
  live pieces; the arena may have grown and dictionaries may hold extra
  dead or stale entries.
- `Values`, `Evaluation` (values.dfy, evaluation.dfy): the utility (an
  integer or ±∞), the fail-hard loops of a MAX and a MIN node,
  `manhattan_distance` and `evaluate_board`.
- `Agent` (agent.dfy): class `Player`, with `evaluate_board`, the searches
  `alpha_beta_place`/`max_place`/`min_place` and
  `alpha_beta_move`/`max_move`/`min_move`, and the entry points `action`
  and `update`.

Each search is proved against a specification stated over the board it
was given:

- the board is left restored (for the moving search, with the corrected
  undo_move of the Findings below; see "## Left out");
- a node returns the fail-hard fold of its children's values, in the order
  it visited them;
- each child value is `evaluate_board` (or the MAX node's result) of the
  play applied to a board restored from the given one;
- a value returned from a window `[a, b]` lies in it.

The capture rule checks the acting piece itself last
(watchyourback.py:418-419), so a piece that moves between two enemies is
captured by its own move. test.py:6-22 plays exactly that: black on (1,2)
and (3,2), white placed on (2,1) and moved to (2,2). The model follows the
code and captures the white piece; `QueryProps.CheckEliminatedEffect` and
`BoardProps.SelfKilled` state that capture.

## Model

| member | source | states |
|---|---|---|
| Engine.Board.constructor | watchyourback.py:35-56 | the new board is the initial board: 64 squares in play, row by row, all empty except the four corner squares, which hold corners; no shrink yet; empty dictionaries |
| Engine.Board.StartingZone | watchyourback.py:58-74 | returns the play area's squares in the colour's rows, in play-area order, without the original corners |
| Engine.Board.GetPiece | watchyourback.py:76-90 | returns the live piece keyed at the square (black checked last, so it wins), or None when neither side has a live piece keyed there |
| Engine.Board.GetAlive | watchyourback.py:92-107 | returns the colour's dictionary restricted to live pieces |
| Engine.Board.GetBorderPieces | watchyourback.py:109-139 | returns the colour's live pieces keyed on the current outer ring or on one of the four squares inside its corners |
| Engine.Board.CountOutside | watchyourback.py:198-216 | counts the squares of the current area showing the colour's marker on the outer ring or inside its corners |
| Engine.Board.RemovePiece | watchyourback.py:179-184 | sets the square to empty when it is on the grid and changes nothing else |
| Engine.Board.UpdateTeam | watchyourback.py:186-196 | re-keys the colour's dictionary entry from oldpos to newpos |
| Engine.Board.CheckEliminated | watchyourback.py:366-388 | kills the piece and blanks its square exactly as BoardModel.CheckEliminated, whose meaning QueryProps.CheckEliminatedEffect states |
| Engine.Board.Resurrect | watchyourback.py:390-395 | puts the piece's marker back on its square and sets it alive |
| Engine.Board.EliminateSurrounding | watchyourback.py:397-421 | captures the sandwiched orthogonal enemies, then checks the piece itself last, and returns the kill list (see BoardProps.EliminateKills) |
| Engine.Board.PlacePiece | watchyourback.py:141-162 | places a new live piece and returns the kill list, or returns None and changes nothing (see BoardProps.PlaceFails) |
| Engine.Board.ResurrectAll | watchyourback.py:168-169 | revives each piece of the list in order |
| Engine.Board.UndoPlace | watchyourback.py:164-177 | revives the kill list, blanks the square and deletes its key from the colour's dictionary |
| Engine.Board.ListMoves | watchyourback.py:324-364 | returns the step-or-jump moves of the piece in direction order, with the border rule when exclude is set (see QueryProps.ListMovesSound) |
| Engine.Board.MakeMove | watchyourback.py:423-437 | moves the piece, re-keys it, resolves captures and returns the kill list |
| Engine.Board.UndoMove | watchyourback.py:439-462 | moves the piece back and revives the kill list, re-keying the piece under oldpos and dropping newpos (the corrected undo_move; see Findings) |
| Engine.Board.RingLoop | watchyourback.py:226-239 | removes the outer ring from the play area square by square, in the source's order, and checks each piece keyed there |
| Engine.Board.ClearOldCorners | watchyourback.py:241-243 | sets the four old corners to empty |
| Engine.Board.PlaceCorners | watchyourback.py:247-262 | increments the shrink counter, kills any piece on a new corner, marks the corner and checks the pieces next to it |
| Engine.Board.Shrink | watchyourback.py:218-266 | performs the whole shrink and takes two off the playing size (see ShrinkProps.ShrinkEffect) |
| BoardModel.GetPiece | watchyourback.py:76-90 | None exactly when no side has a live piece keyed at the square; otherwise the live black piece keyed there, or else the white one |
| BoardModel.AliveMap | watchyourback.py:92-107 | the keys are exactly the side's live keys, each mapped to the dictionary's piece |
| BoardModel.BorderPieces | watchyourback.py:109-139 | holds exactly the side's live keys on the outer ring of the current level or inside its corners |
| BoardModel.RemovePiece | watchyourback.py:179-184 | the square becomes empty when on the grid; every other square keeps its cell |
| BoardModel.RemoveFirst | watchyourback.py:230 | list.remove: drops the first occurrence of a present element, one element shorter, and keeps every other element |
| BoardProps.KillThenResurrect | watchyourback.py:386-395 | resurrect undoes a capture of a standing piece exactly |
| BoardProps.ResurrectRestores | watchyourback.py:168-169 | reviving a kill list returns the board the kills started from |
| BoardProps.EliminateKills | watchyourback.py:397-421 | the kill list names standing pieces keyed on their squares; each is an orthogonal enemy neighbour or the acting piece, which can only come last; exactly the listed pieces die and their squares are blanked |
| BoardProps.SelfKilled | watchyourback.py:417-419 | the acting piece, checked after its captures, is appended last when it is itself sandwiched |
| BoardProps.KillsKeepConsistent | watchyourback.py:397-421 | captures keep the board consistent (markers, dictionaries and arena agree) |
| BoardProps.PlaceConsistent | watchyourback.py:141-162 | place_piece keeps the board consistent |
| BoardProps.PlaceFails | watchyourback.py:148-162 | place_piece returns None exactly when the square is outside the play area or not empty, and then changes nothing |
| BoardProps.PlaceUndoPlace | watchyourback.py:141-177 | undo_place after place_piece with its kill list restores the grid, the area, every piece and alive flag (the new piece stays in the arena), removes the square from the colour's dictionary and leaves the other dictionary alone |
| BoardProps.PlaceRestores | watchyourback.py:141-177 | the board after place_piece and undo_place is restored from the board before |
| BoardProps.RestoredQueries | watchyourback.py:76-107 | a restored board has the same live keys, alive maps and check_win results |
| BoardProps.RelocateShape | watchyourback.py:429-433 | the first half of make_move: oldpos empty, newpos the mover's marker, pos updated and the entry re-keyed |
| BoardProps.MoveConsistent | watchyourback.py:423-437 | make_move of a standing piece to a free square keeps the board consistent |
| BoardProps.MoveKills | watchyourback.py:423-437 | reviving make_move's kill list gives the board with the piece relocated and nothing captured |
| BoardProps.MoveUndoMove | watchyourback.py:423-462 | the corrected undo_move after make_move restores grid, pieces, area and both dictionaries (minus a newpos key that was already stale), and the result is restored from the start |
| BoardProps.MoveUndoMoveAsWritten | watchyourback.py:439-462 | undo_move as written after make_move returns the starting board with an extra newpos key for the mover |
| BoardProps.StaleKeyCountsTwice | watchyourback.py:456-462 | that extra key names a live piece, so the side's live-key count is one more than before the move and the board is inconsistent |
| BoardProps.StaleKeyLive | watchyourback.py:456-462 | after undo_move as written, the stale newpos key names a live piece |
| QueryProps.CheckWinMeaning | watchyourback.py:268-298 | WIN iff own ≥ 2 and enemy < 2; LOSS iff own < 2 and enemy ≥ 2; TIE iff both < 2; CONTINUE iff both ≥ 2 |
| QueryProps.CheckWinSymmetric | watchyourback.py:268-298 | WIN for one side iff LOSS for the other; TIE and CONTINUE agree for both sides |
| QueryProps.StartingZoneMembers | watchyourback.py:58-74 | a square is in the zone iff it is in the play area, not an original corner, and in the colour's rows |
| QueryProps.StartingZoneNoDup | watchyourback.py:58-74 | the zone repeats no square when the play area does not |
| QueryProps.StartingZoneRows | watchyourback.py:15 | zone squares are never original corners; white rows are 0-5, black rows 2-7 |
| QueryProps.CheckEliminatedEffect | watchyourback.py:366-388 | the piece dies iff it is outside the play area or both neighbours on one axis are in the area and hostile (enemy or corner); dying blanks its square only; otherwise nothing changes |
| QueryProps.NotCapturedWhenOpen | watchyourback.py:379-388 | a piece in the area with a free neighbour on each axis is not captured; diagonals play no part |
| QueryProps.ListMovesSound | watchyourback.py:324-364 | at most four squares, each a free step or, past an occupied square, a free jump in one direction |
| QueryProps.ListMovesComplete | watchyourback.py:333-360 | without the border rule, every free step or jump is offered |
| QueryProps.ListMovesExclude | watchyourback.py:338-363 | with the border rule, a ring square is offered only alone; every reachable square off the ring is offered; nothing is offered only when nothing is reachable |
| ShrinkProps.OutOfPlayDies | watchyourback.py:372-376 | a piece whose square left the play area is captured, and its square is blanked |
| ShrinkProps.VisitRingKeeps | watchyourback.py:229-239 | visiting a ring square removes it from the area and keeps the board consistent |
| ShrinkProps.RingOrderVisited | watchyourback.py:226-239 | the loops visit exactly the squares of the outer ring |
| ShrinkProps.ClearCornersKeeps | watchyourback.py:241-243 | the old corners become empty and every other square keeps its cell |
| ShrinkProps.NewCornersKeeps | watchyourback.py:249-262 | the new corners are marked and the board stays consistent |
| ShrinkProps.ShrinkEffect | watchyourback.py:218-266 | shrink increments the counter, takes two off the size, removes exactly the outer ring from the area, empties the old corners, marks the new ones, and leaves every piece keyed on the ring or a new corner dead |
| ShrinkProps.OutsideIsBorder | watchyourback.py:109-139 | count_outside counts exactly the pieces get_border_pieces returns |
| ShrinkProps.InitialBoardShape | watchyourback.py:35-56 | the initial board is consistent, its area is the whole board, and only the four corner squares hold corners |
| SearchProps.PlaceKeepsLayout | watchyourback.py:141-162 | place_piece adds no corner and keeps the area and the shrink level |
| SearchProps.MoveKeepsLayout | watchyourback.py:423-437 | make_move adds no corner and keeps the area and the shrink level |
| SearchProps.ListMovesRestored | watchyourback.py:324-364 | a restored board offers the same moves |
| SearchProps.FreeSquares | minimax_module.py:133-135 | the zone's squares where get_piece finds no live piece, in zone order |
| SearchProps.MoveTargetFree | watchyourback.py:333-360 | a listmoves square is free for the move |
| SearchProps.PlaceStepKept | minimax_module.py:155-157 | placing on a free square and undoing it leaves a board restored from the search's start with the other side's dictionary untouched |
| SearchProps.MoveStepKept | minimax_module.py:211-214 | moving a live piece to a free square and undoing it with the corrected undo_move does the same |
| SearchProps.UndoAfterSearch | minimax_module.py:137-139 | a search below a placement that keeps its board restored, followed by undo_place, leaves a board restored from the start |
| Values.Max | minimax_module.py:156 | max of two utilities: an upper bound equal to one of them |
| Values.Min | minimax_module.py:177 | min of two utilities: a lower bound equal to one of them |
| Values.MaxLoop | minimax_module.py:153-163 | the loop of a MAX node stays in the window [a, b] and returns b on a cutoff |
| Values.MinLoop | minimax_module.py:174-184 | the loop of a MIN node stays in the window [a, b] and returns a on a cutoff |
| Values.MaxLoopClamp | minimax_module.py:153-163 | the MAX loop returns min(max(a, values), b), and cuts off iff some value reaches b |
| Values.MinLoopClamp | minimax_module.py:174-184 | the MIN loop returns max(min(b, values), a), and cuts off iff some value reaches a |
| Values.ArgMaxFirst | minimax_module.py:142 | the index of a largest value, the first one among ties |
| Evaluation.ManhattanDistance | minimax_module.py:18-21 | |ax-bx| + |ay-by|, zero exactly when the squares are equal |
| Evaluation.ManhattanSymmetric | minimax_module.py:18-21 | the distance is symmetric |
| Evaluation.ManhattanTriangle | minimax_module.py:18-21 | the distance obeys the triangle inequality |
| Evaluation.MinOf | minimax_module.py:121 | min of a non-empty list: a member no larger than any element |
| Evaluation.DistancesTo | minimax_module.py:118-120 | the list of distances from a square to each middle square, in order |
| Evaluation.MiddleDistanceRange | minimax_module.py:116-121 | the distance to the nearest middle square is zero exactly on a middle square and at most 6 on the board |
| Evaluation.CentreDistanceBounds | minimax_module.py:116-124 | the sum of the pieces' middle distances is between 0 and 6 per piece |
| Evaluation.Evaluate | minimax_module.py:96-126 | in the moving phase: +∞ iff WIN, −∞ iff LOSS, −100 on TIE; in the placing phase always finite |
| Evaluation.EvaluateBounds | minimax_module.py:110-124 | when no terminal value applies, 20·own − 15·enemy − 6·own ≤ value ≤ 20·own − 15·enemy |
| Evaluation.EvaluateRestored | minimax_module.py:96-126 | a restored board evaluates to the same value |
| Agent.PhaseSchedule | minimax_module.py:67-70 | after a run of actions the phase is MOVING iff it started so or one action was at turn 22 or 23; MOVING is never left |
| Agent.PlaceLoopResult | minimax_module.py:152-184 | how the placing loop stopped is what max_place/min_place returns, and a returned value lies in its window |
| Agent.StepPlaced | minimax_module.py:153-161 | a placed child's value extends the loop's record and either cuts off or continues |
| Agent.RaisedNotOriginal | minimax_module.py:154-157 | a placing node can only raise (place_piece refusing an open zone square) when a shrink has added corners |
| Agent.ChosenAll | minimax_module.py:129-142 | a full pass over the zone picks the first square of largest value from the dictionary of all open squares |
| Agent.MoveChosenAll | minimax_module.py:187-198 | a full pass over the live pieces records every move of every live piece and picks the first of largest value, or none when there is no move |
| Agent.PickFirst | minimax_module.py:142 | the first index of largest value is what max(values, key=values.get) picks |
| Agent.PickedUnique | minimax_module.py:198 | max(values, key=values.get) picks a single key |
| Agent.MoveValueOf | minimax_module.py:193-195 | a move from the listmoves result, evaluated after make_move on a restored board, is a recorded move value |
| Agent.MoveNodeResult | minimax_module.py:201-242 | a moving node's loop result is what max_move/min_move returns, and lies in its window |
| Agent.DistanceFromMiddle | minimax_module.py:116-121 | the loop building dfm returns the distance to the nearest middle square |
| Agent.ShrinkAt | minimax_module.py:45-46 | the board shrinks once exactly at a SHRINK turn and stays playable |
| Agent.PlacedPlayable | minimax_module.py:55 | placing on a board laid out like a playable one leaves it playable |
| Agent.MovedPlayable | minimax_module.py:65 | moving a live piece to a free square leaves the board playable |
| Agent.ChosenMoveReady | minimax_module.py:61-65 | the move alpha_beta_move returns is a live piece that get_piece finds, going to a free square |
| Agent.Player.constructor | minimax_module.py:27-37 | a fresh initial board, phase PLACING, turn 0, and the colour and its enemy |
| Agent.Player.EvaluateBoard | minimax_module.py:96-126 | returns Evaluation.Evaluate of the board for the player's colour and phase |
| Agent.Player.Score | minimax_module.py:110-124 | returns 20·own − 15·enemy minus the own pieces' middle distances |
| Agent.Player.MaxPlace | minimax_module.py:145-163 | leaves the board restored; returns the evaluation at a cutoff, otherwise the fail-hard MAX fold over the open zone squares in zone order, inside [a, b] |
| Agent.Player.MinPlace | minimax_module.py:166-184 | the same for the MIN node over the enemy's zone |
| Agent.Player.PlaceLoop | minimax_module.py:153-163 | the loop over the zone stops with the fold of the values seen, or raises at a corner square |
| Agent.Player.PlaceStep | minimax_module.py:154-161 | one zone square: skipped when taken, otherwise placed, searched, undone and folded |
| Agent.Player.PlaceAndSearch | minimax_module.py:155-157 | place, search below, undo: the value is the evaluation after the placement and the board is restored |
| Agent.Player.SearchBelow | minimax_module.py:148-150 | a depth-0 placing node returns the evaluation and changes nothing |
| Agent.Player.AlphaBetaPlace | minimax_module.py:129-142 | leaves the board restored; returns the first open zone square of largest max_place value, having valued every open square in zone order |
| Agent.Player.RootStep | minimax_module.py:133-139 | one zone square of alpha_beta_place: skipped, or placed, valued by max_place and undone |
| Agent.Player.RootSearch | minimax_module.py:137-139 | place, max_place, undo_place: the value is max_place's on the placed board, and the board is restored |
| Agent.Player.RootMax | minimax_module.py:138 | max_place at PLACE_DEPTH with the full window |
| Agent.Player.RootUndo | minimax_module.py:139 | undo_place after a search leaves a board restored from the one before the placement |
| Agent.Player.MaxMove | minimax_module.py:201-220 | leaves the board restored, undoing with the corrected undo_move; returns the evaluation at a cutoff, otherwise the fail-hard MAX fold over the moves of the own live pieces, inside [a, b] |
| Agent.Player.MinMove | minimax_module.py:223-242 | the same for the MIN node (corrected undo_move) over the enemy's moves |
| Agent.Player.MoveLoop | minimax_module.py:209-220 | the loops over pieces and moves stop, with each move undone by the corrected undo_move, with the fold of the recorded values, having tried every move unless cut off |
| Agent.Player.PieceLoop | minimax_module.py:210-218 | the inner loop over one piece's listmoves result, undoing each move with the corrected undo_move |
| Agent.Player.MoveStep | minimax_module.py:211-218 | one move: made, searched, undone by the corrected undo_move and folded |
| Agent.Player.MoveAndSearch | minimax_module.py:212-214 | make, search below, undo with the corrected undo_move: the value is the evaluation after the move and the board is restored |
| Agent.Player.SearchBelowMove | minimax_module.py:204-206 | a depth-0 moving node returns the evaluation and changes nothing |
| Agent.Player.AlphaBetaMove | minimax_module.py:187-198 | leaves the board restored, undoing with the corrected undo_move; returns the first move of largest value among every move of every live piece, or none when there is no move |
| Agent.Player.RootPieceLoop | minimax_module.py:191-196 | records every move of one live piece with its value, undoing each with the corrected undo_move |
| Agent.Player.RootMoveStep | minimax_module.py:192-196 | one move of alpha_beta_move: made, valued, undone by the corrected undo_move and recorded |
| Agent.Player.ShrinkIfDue | minimax_module.py:45-46 | shrinks the board exactly at a SHRINK turn |
| Agent.Player.PlaceTurn | minimax_module.py:52-55 | the chosen square is an open zone square, and the board is a board restored from the start with it placed |
| Agent.Player.MoveTurn | minimax_module.py:61-65 | the chosen move is a move of a live own piece, and the board is a board restored (by the corrected undo_move) with it made |
| Agent.Player.Play | minimax_module.py:48-65 | a placement in the placing phase and a move otherwise, applied to a board restored from the start (for a move, by the corrected undo_move) |
| Agent.Player.Action | minimax_module.py:40-75 | shrinks at a SHRINK turn, plays for the phase, switches to MOVING after turn 22 or 23, and leaves turns at t + 1 |
| Agent.Player.Update | minimax_module.py:78-92 | shrinks at a SHRINK turn, then places the enemy's piece, or moves the live piece get_piece finds at oldpos and reports when there is none |

## Left out

- Search depth: the source searches with PLACE_DEPTH = 1 and MOVE_DEPTH = 0, and the searches are proved for those depths only.
- Agent.Player.MaxPlace: requires depth ≤ 1, the only depths the source uses.
- Agent.Player.MinPlace: requires depth ≤ 1, the only depths the source uses.
- Agent.Player.MaxMove: requires depth ≤ 1, the only depths the source uses.
- Agent.Player.MinMove: requires depth ≤ 1, the only depths the source uses.
- Agent.Player.MoveLoop: calls listmoves with the border rule off. The moving-phase callers omit listmoves' required argument (minimax_module.py:192, 210, 232), which raises in Python. The crash is not modelled.
- Agent.Player.AlphaBetaMove: tries the live pieces in an unspecified order, not in the dictionary's insertion order. The values dictionary is a list of (move, value) pairs in insertion order, and that no key repeats is not proved.
- Agent.Player.AlphaBetaPlace: the values dictionary is a list of (square, value) pairs in zone order.
- Agent.Player.PlaceTurn: states only that the chosen square is an open zone square. That it is alpha_beta_place's choice is stated by Agent.Player.AlphaBetaPlace.
- Agent.Player.MoveTurn: states only that the chosen move is a candidate move. That it is alpha_beta_move's choice is stated by Agent.Player.AlphaBetaMove.
- Agent.Player.Action: a None result stands for the exception the source raises when no play exists (max over an empty dictionary) or when place_piece refuses a corner square mid-search.
- Agent.Player.Update: promises a consistent board only for a move to a free square. The source assumes the referee's move is legal.
- Engine.Board.Shrink: requires at most one earlier shrink. The source can only be shrunk twice (at turns 128 and 192).
- Engine.Board.UpdateTeam: requires oldpos to be a key. The KeyError the source raises otherwise is not modelled.
- Engine.Board.MakeMove: requires the piece to be keyed on its square. The KeyError from update_team otherwise is not modelled.
- BoardModel.EliminateSurrounding: a neighbour showing the enemy marker with no dictionary entry is skipped. The source raises KeyError there.
- Floating point: evaluate_board's float arithmetic and math.inf become an integer utility with ±∞ values. Every weight is a whole number.
- Child values: each child value is stated on some board restored from the searched board (Agent.PlaceValue, Agent.MoveValue), not on the searched board itself. That a child value is determined by the searched board is not proved: Evaluation.EvaluateRestored equates the evaluations of restored boards before a play, but a placement on a restored board gives the new piece a different arena handle, so the boards after the play are not restored from each other.
- Agent.Player.MaxMove: undoes each move with the corrected undo_move (Engine.Board.UndoMove), not the source's. The source's undo_move (called at minimax_module.py:196, 214 and 236; watchyourback.py:456-462) leaves a live stale newpos key (BoardProps.StaleKeyLive). In the source every later sibling's evaluate_board counts the moved piece once more per stale key (+20 minus its middle distance for an own piece, −15 for an enemy piece), check_win miscounts, and the stale keys stay on the player's board after action.
- Agent.Player.MinMove: undoes each move with the corrected undo_move (Engine.Board.UndoMove), not the source's. The source's undo_move (called at minimax_module.py:196, 214 and 236; watchyourback.py:456-462) leaves a live stale newpos key (BoardProps.StaleKeyLive). In the source every later sibling's evaluate_board counts the moved piece once more per stale key (+20 minus its middle distance for an own piece, −15 for an enemy piece), check_win miscounts, and the stale keys stay on the player's board after action.
- Agent.Player.MoveLoop: undoes each move with the corrected undo_move (Engine.Board.UndoMove), not the source's. The source's undo_move (called at minimax_module.py:196, 214 and 236; watchyourback.py:456-462) leaves a live stale newpos key (BoardProps.StaleKeyLive). In the source every later sibling's evaluate_board counts the moved piece once more per stale key (+20 minus its middle distance for an own piece, −15 for an enemy piece), check_win miscounts, and the stale keys stay on the player's board after action.
- Agent.Player.PieceLoop: undoes each move with the corrected undo_move (Engine.Board.UndoMove), not the source's. The source's undo_move (called at minimax_module.py:196, 214 and 236; watchyourback.py:456-462) leaves a live stale newpos key (BoardProps.StaleKeyLive). In the source every later sibling's evaluate_board counts the moved piece once more per stale key (+20 minus its middle distance for an own piece, −15 for an enemy piece), check_win miscounts, and the stale keys stay on the player's board after action.
- Agent.Player.MoveStep: undoes each move with the corrected undo_move (Engine.Board.UndoMove), not the source's. The source's undo_move (called at minimax_module.py:196, 214 and 236; watchyourback.py:456-462) leaves a live stale newpos key (BoardProps.StaleKeyLive). In the source every later sibling's evaluate_board counts the moved piece once more per stale key (+20 minus its middle distance for an own piece, −15 for an enemy piece), check_win miscounts, and the stale keys stay on the player's board after action.
- Agent.Player.MoveAndSearch: undoes each move with the corrected undo_move (Engine.Board.UndoMove), not the source's. The source's undo_move (called at minimax_module.py:196, 214 and 236; watchyourback.py:456-462) leaves a live stale newpos key (BoardProps.StaleKeyLive). In the source every later sibling's evaluate_board counts the moved piece once more per stale key (+20 minus its middle distance for an own piece, −15 for an enemy piece), check_win miscounts, and the stale keys stay on the player's board after action.
- Agent.Player.AlphaBetaMove: undoes each move with the corrected undo_move (Engine.Board.UndoMove), not the source's. The source's undo_move (called at minimax_module.py:196, 214 and 236; watchyourback.py:456-462) leaves a live stale newpos key (BoardProps.StaleKeyLive). In the source every later sibling's evaluate_board counts the moved piece once more per stale key (+20 minus its middle distance for an own piece, −15 for an enemy piece), check_win miscounts, and the stale keys stay on the player's board after action.
- Agent.Player.RootPieceLoop: undoes each move with the corrected undo_move (Engine.Board.UndoMove), not the source's. The source's undo_move (called at minimax_module.py:196, 214 and 236; watchyourback.py:456-462) leaves a live stale newpos key (BoardProps.StaleKeyLive). In the source every later sibling's evaluate_board counts the moved piece once more per stale key (+20 minus its middle distance for an own piece, −15 for an enemy piece), check_win miscounts, and the stale keys stay on the player's board after action.
- Agent.Player.RootMoveStep: undoes each move with the corrected undo_move (Engine.Board.UndoMove), not the source's. The source's undo_move (called at minimax_module.py:196, 214 and 236; watchyourback.py:456-462) leaves a live stale newpos key (BoardProps.StaleKeyLive). In the source every later sibling's evaluate_board counts the moved piece once more per stale key (+20 minus its middle distance for an own piece, −15 for an enemy piece), check_win miscounts, and the stale keys stay on the player's board after action.
- Agent.Player.MoveTurn: undoes each move with the corrected undo_move (Engine.Board.UndoMove), not the source's. The source's undo_move (called at minimax_module.py:196, 214 and 236; watchyourback.py:456-462) leaves a live stale newpos key (BoardProps.StaleKeyLive). In the source every later sibling's evaluate_board counts the moved piece once more per stale key (+20 minus its middle distance for an own piece, −15 for an enemy piece), check_win miscounts, and the stale keys stay on the player's board after action.
- Agent.Player.Play: undoes each move with the corrected undo_move (Engine.Board.UndoMove), not the source's. The source's undo_move (called at minimax_module.py:196, 214 and 236; watchyourback.py:456-462) leaves a live stale newpos key (BoardProps.StaleKeyLive). In the source every later sibling's evaluate_board counts the moved piece once more per stale key (+20 minus its middle distance for an own piece, −15 for an enemy piece), check_win miscounts, and the stale keys stay on the player's board after action.
- Agent.Player.Action: undoes each move with the corrected undo_move (Engine.Board.UndoMove), not the source's. The source's undo_move (called at minimax_module.py:196, 214 and 236; watchyourback.py:456-462) leaves a live stale newpos key (BoardProps.StaleKeyLive). In the source every later sibling's evaluate_board counts the moved piece once more per stale key (+20 minus its middle distance for an own piece, −15 for an enemy piece), check_win miscounts, and the stale keys stay on the player's board after action.
- SearchProps.MoveStepKept: undoes each move with the corrected undo_move (Engine.Board.UndoMove), not the source's. The source's undo_move (called at minimax_module.py:196, 214 and 236; watchyourback.py:456-462) leaves a live stale newpos key (BoardProps.StaleKeyLive). In the source every later sibling's evaluate_board counts the moved piece once more per stale key (+20 minus its middle distance for an own piece, −15 for an enemy piece), check_win miscounts, and the stale keys stay on the player's board after action.
- Update's action type: the isinstance test on action[0] is the Play datatype.
- Size: the board is fixed at 8×8, as the source hardcodes it.
- I/O: the referee, print_grid, test.py's printing and player_module.py are not part of this model, and the unused random and copy imports are not modelled.

## Findings

| source | as written | input that shows it | evidently intended | confidence | as-written member | corrected member |
|---|---|---|---|---|---|---|
| watchyourback.py:456-462 | undo_move sets self.pos to oldpos and then tests `self.pos in dictionary`. After make_move's update_team that is never a key, so it always inserts oldpos and never deletes newpos | test.py:6-22: white at (2,1) moves to (2,2) and is captured; after undo_move the white dictionary holds (2,1) and (2,2) for the same live piece, so check_win counts two white pieces where one stands | re-key the piece from newpos back to oldpos, so the dictionaries return to their state before make_move | high, not executed | BoardProps.MoveUndoMoveAsWritten | BoardProps.MoveUndoMove |
