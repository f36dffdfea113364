/**
 * The Player of minimax_module.py: its own copy of the board, its phase and
 * turn counter, evaluate_board, the alpha-beta searches of the placing and
 * the moving phase, and the action and update entry points the referee
 * calls.
 *
 * A search runs on the player's board by applying a placement or a move,
 * searching below it and undoing it. What each search promises is stated
 * over the board it was given: the board is left restored (SearchKept), and
 * the value returned is the fail-hard alpha-beta fold (Values.MaxLoop and
 * Values.MinLoop) over the values of the children it visited, in the order
 * it visited them, each child being the placement or move it names applied
 * to a board restored from the given one.
 */
module Agent {
  import opened Rules
  import opened BoardModel
  import opened BoardProps
  import opened QueryProps
  import opened ShrinkProps
  import opened Values
  import opened Evaluation
  import opened SearchProps
  import opened Engine

  /** What action returns and update receives: a square to place on, or a
    * move from one square to another. */
  datatype Play = Placement(pos: Pos) | Movement(from: Pos, to: Pos)

  // ------------------------------------------------------------------ phase

  /** The phase after action(t): the placing phase ends with turn 22 or 23. */
  function NextPhase(phase: Phase, t: int): Phase
  {
    if (t == MovingPhase - 2 || t == MovingPhase - 1) && phase == Placing then Moving else phase
  }

  /** The phase after actions at the turns `ts`, in order. */
  function PhaseAfter(phase: Phase, ts: seq<int>): Phase
    decreases |ts|
  {
    if ts == [] then phase else NextPhase(PhaseAfter(phase, ts[..|ts| - 1]), ts[|ts| - 1])
  }

  /** A player is in the moving phase after a run of actions exactly when it
    * started there or one of the actions was at turn 22 or 23; the moving
    * phase is never left. */
  lemma {:induction false} PhaseSchedule(phase: Phase, ts: seq<int>)
    ensures PhaseAfter(phase, ts) == Moving <==>
      phase == Moving || exists i :: 0 <= i < |ts| && (ts[i] == MovingPhase - 2 || ts[i] == MovingPhase - 1)
    decreases |ts|
  {
    if ts != [] {
      var init := ts[..|ts| - 1];
      PhaseSchedule(phase, init);
      if exists i :: 0 <= i < |init| && (init[i] == MovingPhase - 2 || init[i] == MovingPhase - 1) {
        var i :| 0 <= i < |init| && (init[i] == MovingPhase - 2 || init[i] == MovingPhase - 1);
        assert ts[i] == init[i];
      }
      if exists i :: 0 <= i < |ts| && (ts[i] == MovingPhase - 2 || ts[i] == MovingPhase - 1) {
        var i :| 0 <= i < |ts| && (ts[i] == MovingPhase - 2 || ts[i] == MovingPhase - 1);
        if i < |init| {
          assert init[i] == ts[i];
        }
      }
    }
  }

  // --------------------------------------------------------- placing search

  /** The loop of a MAX node (isMax) or a MIN node over the values `vals`. */
  function Fold(isMax: bool, a: Utility, b: Utility, vals: seq<Utility>): (Utility, bool)
  {
    if isMax then MaxLoop(a, b, vals) else MinLoop(a, b, vals)
  }

  /** The cutoff test of max_place and min_place: the end of the placing
    * phase is within reach, or the depth is used up. */
  predicate PlaceCutoff(turns: int, depth: nat)
  {
    turns + (PlaceDepth - depth) >= MovingPhase || depth == 0
  }

  /** `v` is what evaluate_board gives for `c` after `mover` places at `p` on
    * a board restored from `st` on which `p` is free. */
  ghost predicate PlaceValue(st: BoardState, mover: Side, p: Pos, v: Utility, c: Side, phase: Phase)
  {
    exists u :: Restored(st, u) && Consistent(u) && Free(u, p) && v == Evaluate(PlacePiece(u, mover, p).0, c, phase)
  }

  /** Each square of `tried` is a PlaceValue for the value of `vals` at the same index. */
  ghost predicate PlaceValues(st: BoardState, mover: Side, c: Side, phase: Phase, tried: seq<Pos>, vals: seq<Utility>)
    requires |tried| == |vals|
    decreases |tried|
  {
    tried == [] ||
    (PlaceValues(st, mover, c, phase, tried[..|tried| - 1], vals[..|vals| - 1])
     && PlaceValue(st, mover, tried[|tried| - 1], vals[|vals| - 1], c, phase))
  }

  /** A placing node of the search for `c` on `st` that did not cut off:
    * it visited the squares `tried` of the mover's zone that get_piece
    * found open, in zone order, and their children were worth `vals`. It
    * returned the fold of those values, having stopped early or visited every
    * open square; or it raised, when place_piece refused the next open square
    * because a corner marker stands there. */
  ghost predicate PlaceNode(st: BoardState, c: Side, phase: Phase, isMax: bool, a: Utility, b: Utility,
                            r: Option<Utility>, vals: seq<Utility>, tried: seq<Pos>)
    requires Wf(st)
  {
    var mover := if isMax then c else Opponent(c);
    var open := FreeSquares(st, StartingZone(st.area, mover));
    var fold := Fold(isMax, a, b, vals);
    && |vals| == |tried| && tried <= open
    && PlaceValues(st, mover, c, phase, tried, vals)
    && (r.Some? ==> r.value == fold.0 && (fold.1 || tried == open))
    && (r.None? ==> !fold.1 && |tried| < |open| && open[|tried|] in st.grid && st.grid[open[|tried|]] == Corner)
  }

  /** What max_place (isMax) or min_place at `depth` returns on `st`. */
  ghost predicate PlaceResult(st: BoardState, c: Side, phase: Phase, turns: int, isMax: bool, depth: nat,
                              a: Utility, b: Utility, r: Option<Utility>)
    requires Wf(st)
  {
    if PlaceCutoff(turns, depth) then r == Some(Evaluate(st, c, phase))
    else exists vals, tried :: PlaceNode(st, c, phase, isMax, a, b, r, vals, tried)
  }

  /** `v` is what max_place gives below `c` placing at `p` on a board
    * restored from `st`, as alpha_beta_place records it. */
  ghost predicate RootPlaceValue(st: BoardState, c: Side, phase: Phase, turns: int, p: Pos, v: Utility)
  {
    exists u :: Restored(st, u) && Consistent(u) && Free(u, p)
      && PlaceResult(PlacePiece(u, c, p).0, c, phase, turns, true, PlaceDepth, NegInf, PosInf, Some(v))
  }

  /** A placing loop on `st` has looked at zone[..i]: it tried the squares
    * get_piece found open there, and their children were worth `vals`. */
  ghost predicate Visited(st: BoardState, mover: Side, c: Side, phase: Phase, zone: seq<Pos>, i: nat,
                          vals: seq<Utility>, tried: seq<Pos>)
    requires Wf(st)
  {
    && i <= |zone| && tried == FreeSquares(st, zone[..i]) && |vals| == |tried|
    && PlaceValues(st, mover, c, phase, tried, vals)
  }

  lemma VisitedNone(st: BoardState, mover: Side, c: Side, phase: Phase, zone: seq<Pos>)
    requires Wf(st)
    ensures Visited(st, mover, c, phase, zone, 0, [], [])
  {
    assert zone[..0] == [];
  }

  /** The loop passes over a square get_piece finds taken. */
  lemma VisitedSkip(st: BoardState, mover: Side, c: Side, phase: Phase, zone: seq<Pos>, i: nat,
                    vals: seq<Utility>, tried: seq<Pos>)
    requires Wf(st) && Visited(st, mover, c, phase, zone, i, vals, tried) && i < |zone|
    requires GetPiece(st, zone[i]).Some?
    ensures Visited(st, mover, c, phase, zone, i + 1, vals, tried)
  {
    FreeSquaresStep(st, zone, i);
  }

  /** The loop places on an open square of a board restored from `st` and
    * records the value of the child. */
  lemma VisitedPlace(st: BoardState, cur: BoardState, mover: Side, c: Side, phase: Phase, zone: seq<Pos>, i: nat,
                     vals: seq<Utility>, tried: seq<Pos>, v: Utility)
    requires Wf(st) && Visited(st, mover, c, phase, zone, i, vals, tried) && i < |zone|
    requires Restored(st, cur) && Consistent(cur) && Free(cur, zone[i]) && GetPiece(st, zone[i]).None?
    requires v == Evaluate(PlacePiece(cur, mover, zone[i]).0, c, phase)
    ensures Visited(st, mover, c, phase, zone, i + 1, vals + [v], tried + [zone[i]])
  {
    FreeSquaresStep(st, zone, i);
    assert PlaceValue(st, mover, zone[i], v, c, phase);
    PlaceValuesSnoc(st, mover, c, phase, tried, vals, zone[i], v);
  }

  /** One more placement whose value is known. */
  lemma PlaceValuesSnoc(st: BoardState, mover: Side, c: Side, phase: Phase,
                        tried: seq<Pos>, vals: seq<Utility>, p: Pos, v: Utility)
    requires |tried| == |vals| && PlaceValues(st, mover, c, phase, tried, vals)
    requires PlaceValue(st, mover, p, v, c, phase)
    ensures PlaceValues(st, mover, c, phase, tried + [p], vals + [v])
  {
    LastOfSnoc(tried, p);
    LastOfSnoc(vals, v);
  }

  /** A loop that went through the whole zone without cutting off. */
  lemma PlaceNodeAll(st: BoardState, c: Side, phase: Phase, turns: int, isMax: bool, depth: nat, a: Utility, b: Utility,
                     zone: seq<Pos>, vals: seq<Utility>, tried: seq<Pos>, x: Utility)
    requires Wf(st) && zone == StartingZone(st.area, if isMax then c else Opponent(c))
    requires Visited(st, if isMax then c else Opponent(c), c, phase, zone, |zone|, vals, tried)
    requires Fold(isMax, a, b, vals) == (x, false) && !PlaceCutoff(turns, depth)
    ensures PlaceResult(st, c, phase, turns, isMax, depth, a, b, Some(x))
  {
    assert zone[..|zone|] == zone;
    assert PlaceNode(st, c, phase, isMax, a, b, Some(x), vals, tried);
  }

  /** A loop that cut off after looking at zone[..j]. */
  lemma PlaceNodeCut(st: BoardState, c: Side, phase: Phase, turns: int, isMax: bool, depth: nat, a: Utility, b: Utility,
                     zone: seq<Pos>, j: nat, vals: seq<Utility>, tried: seq<Pos>, x: Utility)
    requires Wf(st) && zone == StartingZone(st.area, if isMax then c else Opponent(c))
    requires Visited(st, if isMax then c else Opponent(c), c, phase, zone, j, vals, tried)
    requires Fold(isMax, a, b, vals) == (x, true) && !PlaceCutoff(turns, depth)
    ensures PlaceResult(st, c, phase, turns, isMax, depth, a, b, Some(x))
  {
    FreeSquaresPrefix(st, zone, j);
    assert PlaceNode(st, c, phase, isMax, a, b, Some(x), vals, tried);
  }

  /** The square place_piece refused on a board restored from `st`: get_piece
    * found it open and it is marked as a corner. */
  lemma RefusedSquare(st: BoardState, cur: BoardState, mover: Side, zone: seq<Pos>, i: nat)
    requires zone == StartingZone(st.area, mover) && i < |zone|
    requires Wf(st) && Restored(st, cur) && Consistent(cur)
    requires GetPiece(st, zone[i]).None? && !Free(cur, zone[i])
    ensures zone[i] in st.grid && st.grid[zone[i]] == Corner
  {
    var pos := zone[i];
    StartingZoneMembers(st.area, mover);
    GetPieceRestored(st, cur, pos);
    OpenSquare(cur, pos);
  }

  /** A loop whose place_piece at zone[i] was refused: undo_place raises. */
  lemma PlaceNodeRaised(st: BoardState, c: Side, phase: Phase, turns: int, isMax: bool, depth: nat, a: Utility, b: Utility,
                        zone: seq<Pos>, i: nat, vals: seq<Utility>, tried: seq<Pos>)
    requires Wf(st) && zone == StartingZone(st.area, if isMax then c else Opponent(c)) && i < |zone|
    requires Visited(st, if isMax then c else Opponent(c), c, phase, zone, i, vals, tried)
    requires GetPiece(st, zone[i]).None? && zone[i] in st.grid && st.grid[zone[i]] == Corner
    requires !Fold(isMax, a, b, vals).1 && !PlaceCutoff(turns, depth)
    ensures PlaceResult(st, c, phase, turns, isMax, depth, a, b, None)
  {
    FreeSquaresNext(st, zone, i);
    assert PlaceNode(st, c, phase, isMax, a, b, None, vals, tried);
  }

  /** A placing node raises only on a board with a corner marker off the
    * original corners, that is after a shrink. */
  lemma RaisedNotOriginal(st: BoardState, c: Side, phase: Phase, turns: int, isMax: bool, depth: nat,
                          a: Utility, b: Utility)
    requires Wf(st) && PlaceResult(st, c, phase, turns, isMax, depth, a, b, None)
    ensures !OnlyOriginalCorners(st)
  {
    var mover := if isMax then c else Opponent(c);
    var zone := StartingZone(st.area, mover);
    var vals, tried :| PlaceNode(st, c, phase, isMax, a, b, None, vals, tried);
    var open := FreeSquares(st, zone);
    var p := open[|tried|];
    assert p in open;
    StartingZoneRows(st.area, mover, p);
  }

  /** How the loop of a placing node on `st` stopped after looking at
    * zone[..j]: with the fold of the values `vals` of the squares `tried`,
    * having cut off or seen the whole zone; or (r is None) raising at zone[j],
    * an open square marked as a corner. */
  ghost predicate LoopStopped(st: BoardState, c: Side, phase: Phase, isMax: bool, a: Utility, b: Utility,
                              zone: seq<Pos>, j: nat, vals: seq<Utility>, tried: seq<Pos>, r: Option<Utility>)
    requires Wf(st)
  {
    var mover := if isMax then c else Opponent(c);
    && Visited(st, mover, c, phase, zone, j, vals, tried)
    && (r.None? ==> j < |zone| && GetPiece(st, zone[j]).None? && zone[j] in st.grid && st.grid[zone[j]] == Corner
                    && !Fold(isMax, a, b, vals).1)
    && (r.Some? ==> r.value == Fold(isMax, a, b, vals).0 && (Fold(isMax, a, b, vals).1 || j == |zone|))
  }

  /** The loop's way of stopping is what the placing node returns; a value
    * it returns lies in the window it was given. */
  lemma PlaceLoopResult(st: BoardState, c: Side, phase: Phase, turns: int, isMax: bool, depth: nat,
                        a: Utility, b: Utility, j: nat, vals: seq<Utility>, tried: seq<Pos>, r: Option<Utility>)
    requires Wf(st) && !PlaceCutoff(turns, depth)
    requires LoopStopped(st, c, phase, isMax, a, b, StartingZone(st.area, if isMax then c else Opponent(c)), j, vals, tried, r)
    ensures PlaceResult(st, c, phase, turns, isMax, depth, a, b, r)
    ensures r.Some? && Le(a, b) ==> Le(a, r.value) && Le(r.value, b)
  {
    var zone := StartingZone(st.area, if isMax then c else Opponent(c));
    var fold := Fold(isMax, a, b, vals);
    if r.None? {
      PlaceNodeRaised(st, c, phase, turns, isMax, depth, a, b, zone, j, vals, tried);
    } else if fold.1 {
      PlaceNodeCut(st, c, phase, turns, isMax, depth, a, b, zone, j, vals, tried, fold.0);
    } else {
      PlaceNodeAll(st, c, phase, turns, isMax, depth, a, b, zone, vals, tried, fold.0);
    }
  }

  /** One pass of the loop of a MAX node: a = max(a, v), and the cut when a >= b. */
  function MaxStep(acc: Utility, b: Utility, v: Utility): (Utility, bool)
  {
    var a' := Max(acc, v);
    if Le(b, a') then (b, true) else (a', false)
  }

  /** One pass of the loop of a MIN node: b = min(b, v), and the cut when b <= a. */
  function MinStep(a: Utility, acc: Utility, v: Utility): (Utility, bool)
  {
    var b' := Min(acc, v);
    if Le(b', a) then (a, true) else (b', false)
  }

  /** The fold over one more child value, from a loop that has not cut off. */
  lemma FoldStep(isMax: bool, a: Utility, b: Utility, vals: seq<Utility>, acc: Utility, v: Utility)
    requires Fold(isMax, a, b, vals) == (acc, false)
    ensures Fold(isMax, a, b, vals + [v]) == if isMax then MaxStep(acc, b, v) else MinStep(a, acc, v)
  {
    assert (vals + [v])[..|vals|] == vals;
  }

  /** The pass at zone[i] where place_piece refused an open square stops the
    * loop with undo_place raising. */
  lemma StepRaised(st: BoardState, cur: BoardState, c: Side, phase: Phase, isMax: bool, a: Utility, b: Utility,
                   zone: seq<Pos>, i: nat, vals: seq<Utility>, tried: seq<Pos>)
    requires Wf(st) && zone == StartingZone(st.area, if isMax then c else Opponent(c)) && i < |zone|
    requires Visited(st, if isMax then c else Opponent(c), c, phase, zone, i, vals, tried)
    requires !Fold(isMax, a, b, vals).1
    requires Restored(st, cur) && Consistent(cur) && GetPiece(st, zone[i]).None? && !Free(cur, zone[i])
    ensures LoopStopped(st, c, phase, isMax, a, b, zone, i, vals, tried, None)
  {
    RefusedSquare(st, cur, if isMax then c else Opponent(c), zone, i);
  }

  /** The pass at zone[i] where the mover placed on an open square: the
    * child's value `v` joins the record and moves the window, and a cut
    * stops the loop with the bound it reached. */
  lemma StepPlaced(st: BoardState, cur: BoardState, c: Side, phase: Phase, isMax: bool, a: Utility, b: Utility,
                   zone: seq<Pos>, i: nat, vals: seq<Utility>, tried: seq<Pos>, acc: Utility, v: Utility)
    requires Wf(st) && i < |zone|
    requires Visited(st, if isMax then c else Opponent(c), c, phase, zone, i, vals, tried)
    requires Fold(isMax, a, b, vals) == (acc, false)
    requires Restored(st, cur) && Consistent(cur) && Free(cur, zone[i]) && GetPiece(st, zone[i]).None?
    requires v == Evaluate(PlacePiece(cur, if isMax then c else Opponent(c), zone[i]).0, c, phase)
    ensures var step := if isMax then MaxStep(acc, b, v) else MinStep(a, acc, v);
      if step.1 then LoopStopped(st, c, phase, isMax, a, b, zone, i + 1, vals + [v], tried + [zone[i]], Some(step.0))
      else Visited(st, if isMax then c else Opponent(c), c, phase, zone, i + 1, vals + [v], tried + [zone[i]])
           && Fold(isMax, a, b, vals + [v]) == step
  {
    VisitedPlace(st, cur, if isMax then c else Opponent(c), c, phase, zone, i, vals, tried, v);
    FoldStep(isMax, a, b, vals, acc, v);
  }

  /** Each square of `order` is a RootPlaceValue for the value of `vals` at
    * the same index. */
  ghost predicate RootValues(st: BoardState, c: Side, phase: Phase, turns: int, order: seq<Pos>, vals: seq<Utility>)
    requires |order| == |vals|
    decreases |order|
  {
    order == [] ||
    (RootValues(st, c, phase, turns, order[..|order| - 1], vals[..|vals| - 1])
     && RootPlaceValue(st, c, phase, turns, order[|order| - 1], vals[|vals| - 1]))
  }

  /** The loop of alpha_beta_place on `st` has looked at zone[..i]: its
    * dictionary holds the squares get_piece found open there, in that order,
    * with their values. */
  ghost predicate RootVisited(st: BoardState, c: Side, phase: Phase, turns: int, zone: seq<Pos>, i: nat,
                              order: seq<Pos>, vals: seq<Utility>)
    requires Wf(st)
  {
    && i <= |zone| && order == FreeSquares(st, zone[..i]) && |vals| == |order|
    && RootValues(st, c, phase, turns, order, vals)
  }

  lemma RootVisitedNone(st: BoardState, c: Side, phase: Phase, turns: int, zone: seq<Pos>)
    requires Wf(st)
    ensures RootVisited(st, c, phase, turns, zone, 0, [], [])
  {
    assert zone[..0] == [];
  }

  /** The loop passes over a square get_piece finds taken. */
  lemma RootVisitedSkip(st: BoardState, c: Side, phase: Phase, turns: int, zone: seq<Pos>, i: nat,
                        order: seq<Pos>, vals: seq<Utility>)
    requires Wf(st) && RootVisited(st, c, phase, turns, zone, i, order, vals) && i < |zone|
    requires GetPiece(st, zone[i]).None? == false
    ensures RootVisited(st, c, phase, turns, zone, i + 1, order, vals)
  {
    FreeSquaresStep(st, zone, i);
  }

  /** The loop records the value max_place found below a placement on an
    * open square of a board restored from `st`. */
  lemma RootVisitedPlace(st: BoardState, cur: BoardState, c: Side, phase: Phase, turns: int, zone: seq<Pos>, i: nat,
                         order: seq<Pos>, vals: seq<Utility>, v: Utility)
    requires Wf(st) && RootVisited(st, c, phase, turns, zone, i, order, vals) && i < |zone|
    requires Restored(st, cur) && Consistent(cur) && Free(cur, zone[i]) && GetPiece(st, zone[i]).None?
    requires PlaceResult(PlacePiece(cur, c, zone[i]).0, c, phase, turns, true, PlaceDepth, NegInf, PosInf, Some(v))
    ensures RootVisited(st, c, phase, turns, zone, i + 1, order + [zone[i]], vals + [v])
  {
    FreeSquaresStep(st, zone, i);
    assert RootPlaceValue(st, c, phase, turns, zone[i], v);
    RootValuesSnoc(st, c, phase, turns, order, vals, zone[i], v);
  }

  /** One more dictionary entry whose value is known. */
  lemma RootValuesSnoc(st: BoardState, c: Side, phase: Phase, turns: int,
                       order: seq<Pos>, vals: seq<Utility>, p: Pos, v: Utility)
    requires |order| == |vals| && RootValues(st, c, phase, turns, order, vals)
    requires RootPlaceValue(st, c, phase, turns, p, v)
    ensures RootValues(st, c, phase, turns, order + [p], vals + [v])
  {
    LastOfSnoc(order, p);
    LastOfSnoc(vals, v);
  }

  /** A starting-zone square that get_piece finds open and place_piece
    * refuses holds a corner marker off the original corners. */
  lemma RefusedCorner(st: BoardState, mover: Side, pos: Pos)
    requires Consistent(st) && pos in StartingZone(st.area, mover)
    requires GetPiece(st, pos).None? && !Free(st, pos)
    ensures !OnlyOriginalCorners(st)
  {
    StartingZoneMembers(st.area, mover);
    OpenSquare(st, pos);
    StartingZoneRows(st.area, mover, pos);
    assert st.grid[pos] == Corner;
  }

  /** What alpha_beta_place promises about the board `u` it leaves behind
    * on `st` and the square `r` it returns (None where it raises): the layout
    * is kept; a returned square is the first of largest value in the
    * dictionary of every open square of the zone, in zone order, with the
    * board restored; and on a board with only the original corners it raises
    * only when no square is open, leaving the board as it was. */
  ghost predicate PlaceChosen(st: BoardState, u: BoardState, c: Side, phase: Phase, turns: int,
                              r: Option<Pos>, order: seq<Pos>, vals: seq<Utility>)
    requires Wf(st)
  {
    && Consistent(u) && SameLayout(st, u)
    && (r.Some? ==>
          && SearchKept(st, u, c)
          && order == FreeSquares(st, StartingZone(st.area, c))
          && |vals| == |order| && RootValues(st, c, phase, turns, order, vals)
          && Picked(order, vals, r.value))
    && (r.None? && OnlyOriginalCorners(st) ==> FreeSquares(st, StartingZone(st.area, c)) == [] && u == st)
  }

  /** The loop stopped where something raised. */
  lemma ChosenRaised(st: BoardState, u: BoardState, c: Side, phase: Phase, turns: int,
                     order: seq<Pos>, vals: seq<Utility>)
    requires Wf(st) && Consistent(u) && SameLayout(st, u) && !OnlyOriginalCorners(st)
    ensures PlaceChosen(st, u, c, phase, turns, None, order, vals)
  {
  }

  /** The loop went through the whole zone: max over the dictionary. */
  lemma ChosenAll(st: BoardState, u: BoardState, c: Side, phase: Phase, turns: int,
                  order: seq<Pos>, vals: seq<Utility>)
    requires Wf(st) && SearchKept(st, u, c) && (order == [] ==> u == st)
    requires RootVisited(st, c, phase, turns, StartingZone(st.area, c), |StartingZone(st.area, c)|, order, vals)
    ensures PlaceChosen(st, u, c, phase, turns, if order == [] then None else Some(order[ArgMaxFirst(vals)]), order, vals)
  {
    var zone := StartingZone(st.area, c);
    assert zone[..|zone|] == zone;
    RestoredLayout(st, u);
    if order != [] {
      PickFirst(order, vals);
    }
  }

  // ---------------------------------------------------------- moving search

  /** The cutoff test of max_move and min_move: the game is decided for the
    * player, or the depth is used up. */
  predicate MoveCutoff(st: BoardState, c: Side, depth: nat)
    requires Wf(st)
  {
    CheckWin(st, c) != Continue || depth == 0
  }

  /** `v` is what evaluate_board gives for `c` after the live piece of
    * `mover` keyed at `mv.0` moves to `mv.1` on a board restored from `st`. */
  ghost predicate MoveValue(st: BoardState, mover: Side, mv: (Pos, Pos), v: Utility, c: Side, phase: Phase)
  {
    exists u :: Restored(st, u) && Wf(u) && mv.0 in LiveKeys(u, mover)
      && Standing(u, u.Team(mover)[mv.0])
      && v == Evaluate(MakeMove(u, u.Team(mover)[mv.0], mv.1).0, c, phase)
  }

  /** Each move of `tried` is a move of `mover` on `st` and a MoveValue for
    * the value of `vals` at the same index. */
  ghost predicate MoveValues(st: BoardState, mover: Side, c: Side, phase: Phase,
                             tried: seq<(Pos, Pos)>, vals: seq<Utility>)
    requires Wf(st) && |tried| == |vals|
    decreases |tried|
  {
    tried == [] ||
    (MoveValues(st, mover, c, phase, tried[..|tried| - 1], vals[..|vals| - 1])
     && tried[|tried| - 1] in MovesOf(st, mover)
     && MoveValue(st, mover, tried[|tried| - 1], vals[|vals| - 1], c, phase))
  }

  /** A moving node of the search for `c` on `st` that did not cut off: it
    * tried the moves `tried` of the mover, their children were worth `vals`,
    * and it returned the fold of those values, having stopped early or tried
    * every move of every live piece of the mover. */
  ghost predicate MoveNode(st: BoardState, c: Side, phase: Phase, isMax: bool, a: Utility, b: Utility,
                           r: Utility, vals: seq<Utility>, tried: seq<(Pos, Pos)>)
    requires Wf(st)
  {
    var mover := if isMax then c else Opponent(c);
    && |vals| == |tried| && MoveValues(st, mover, c, phase, tried, vals)
    && r == Fold(isMax, a, b, vals).0
    && (!Fold(isMax, a, b, vals).1 ==> forall mv :: mv in MovesOf(st, mover) ==> mv in tried)
  }

  /** What max_move (isMax) or min_move at `depth` returns on `st`. */
  ghost predicate MoveResult(st: BoardState, c: Side, phase: Phase, isMax: bool, depth: nat,
                             a: Utility, b: Utility, r: Utility)
    requires Wf(st)
  {
    if MoveCutoff(st, c, depth) then r == Evaluate(st, c, phase)
    else exists vals, tried :: MoveNode(st, c, phase, isMax, a, b, r, vals, tried)
  }

  /** The loop over the live pieces of `mover` has finished the pieces keyed
    * in `done`: every listmoves square of each was tried. */
  ghost predicate MovesCovered(st: BoardState, done: set<Pos>, tried: seq<(Pos, Pos)>)
    requires Wf(st)
  {
    forall k, m :: k in done && m in ListMoves(st, k, false) ==> (k, m) in tried
  }

  /** ... and the inner loop over the moves `moves` of the piece keyed at `k`
    * has tried the first `j` of them. */
  ghost predicate PieceCovered(st: BoardState, done: set<Pos>, k: Pos, moves: seq<Pos>, j: nat, tried: seq<(Pos, Pos)>)
    requires Wf(st)
  {
    && j <= |moves| && MovesCovered(st, done, tried)
    && forall i :: 0 <= i < j ==> (k, moves[i]) in tried
  }

  /** The state of the loops of the moving search after the pieces `done`:
    * the values recorded so far, and the moves covered. */
  ghost predicate MovesVisited(st: BoardState, mover: Side, c: Side, phase: Phase, done: set<Pos>,
                               vals: seq<Utility>, tried: seq<(Pos, Pos)>)
    requires Wf(st)
  {
    && |vals| == |tried| && MoveValues(st, mover, c, phase, tried, vals)
    && MovesCovered(st, done, tried)
  }

  /** ... and after the first `j` moves of the piece keyed at `k`. */
  ghost predicate PieceVisited(st: BoardState, mover: Side, c: Side, phase: Phase, done: set<Pos>,
                               k: Pos, moves: seq<Pos>, j: nat, vals: seq<Utility>, tried: seq<(Pos, Pos)>)
    requires Wf(st)
  {
    && |vals| == |tried| && MoveValues(st, mover, c, phase, tried, vals)
    && PieceCovered(st, done, k, moves, j, tried)
  }

  lemma MovesVisitedNone(st: BoardState, mover: Side, c: Side, phase: Phase)
    requires Wf(st)
    ensures MovesVisited(st, mover, c, phase, {}, [], [])
  {
  }

  lemma PieceVisitedStart(st: BoardState, mover: Side, c: Side, phase: Phase, done: set<Pos>,
                          k: Pos, moves: seq<Pos>, vals: seq<Utility>, tried: seq<(Pos, Pos)>)
    requires Wf(st) && MovesVisited(st, mover, c, phase, done, vals, tried)
    ensures PieceVisited(st, mover, c, phase, done, k, moves, 0, vals, tried)
  {
  }

  /** All the moves of the piece keyed at `k` were tried. */
  lemma PieceCoveredDone(st: BoardState, done: set<Pos>, k: Pos, tried: seq<(Pos, Pos)>)
    requires Wf(st)
    requires PieceCovered(st, done, k, ListMoves(st, k, false), |ListMoves(st, k, false)|, tried)
    ensures MovesCovered(st, done + {k}, tried)
  {
    var moves := ListMoves(st, k, false);
    forall k', m | k' in done + {k} && m in ListMoves(st, k', false) ensures (k', m) in tried {
      if k' == k {
        var i :| 0 <= i < |moves| && moves[i] == m;
      }
    }
  }

  /** Trying moves[j] covers it. */
  lemma PieceCoveredStep(st: BoardState, done: set<Pos>, k: Pos, moves: seq<Pos>, j: nat, tried: seq<(Pos, Pos)>)
    requires Wf(st) && PieceCovered(st, done, k, moves, j, tried) && j < |moves|
    ensures PieceCovered(st, done, k, moves, j + 1, tried + [(k, moves[j])])
  {
    var t := tried + [(k, moves[j])];
    forall x | x in tried ensures x in t {
    }
    assert t[|tried|] == (k, moves[j]);
  }

  /** One more tried move whose value is known. */
  lemma MoveValuesSnoc(st: BoardState, mover: Side, c: Side, phase: Phase,
                       tried: seq<(Pos, Pos)>, vals: seq<Utility>, mv: (Pos, Pos), v: Utility)
    requires Wf(st) && |tried| == |vals| && MoveValues(st, mover, c, phase, tried, vals)
    requires mv in MovesOf(st, mover) && MoveValue(st, mover, mv, v, c, phase)
    ensures MoveValues(st, mover, c, phase, tried + [mv], vals + [v])
  {
    LastOfSnoc(tried, mv);
    LastOfSnoc(vals, v);
  }

  /** Appending `x` to `s` gives a sequence whose front is `s` and whose
    * last element is `x`. */
  lemma LastOfSnoc<T>(s: seq<T>, x: T)
    ensures (s + [x])[..|s|] == s && (s + [x])[|s|] == x
  {
  }

  /** A move made on a board restored from `st` records the child's value
    * `v`, which moves the window. */
  lemma MoveStepped(st: BoardState, cur: BoardState, after: BoardState, mover: Side, c: Side, phase: Phase,
                    isMax: bool, a: Utility, b: Utility, done: set<Pos>, k: Pos, h: Handle, moves: seq<Pos>, j: nat,
                    vals: seq<Utility>, tried: seq<(Pos, Pos)>, acc: Utility, v: Utility)
    requires Wf(st) && mover == (if isMax then c else Opponent(c))
    requires k in LiveKeys(st, mover) && h == st.Team(mover)[k] && moves == ListMoves(st, k, false) && j < |moves|
    requires PieceVisited(st, mover, c, phase, done, k, moves, j, vals, tried)
    requires Fold(isMax, a, b, vals) == (acc, false)
    requires SearchKept(st, cur, mover) && SearchKept(cur, after, mover)
    requires v == Evaluate(MakeMove(cur, h, moves[j]).0, c, phase)
    ensures SearchKept(st, after, mover)
    ensures Fold(isMax, a, b, vals + [v]) == if isMax then MaxStep(acc, b, v) else MinStep(a, acc, v)
    ensures PieceVisited(st, mover, c, phase, done, k, moves, j + 1, vals + [v], tried + [(k, moves[j])])
  {
    MoveRecorded(st, cur, after, mover, c, phase, done, k, h, moves, j, vals, tried, v);
    FoldStep(isMax, a, b, vals, acc, v);
  }

  /** A move made on a board kept from `st`, searched below and undone,
    * is recorded with the value `v` evaluate_board gives after it. */
  lemma MoveRecorded(st: BoardState, cur: BoardState, after: BoardState, mover: Side, c: Side, phase: Phase,
                     done: set<Pos>, k: Pos, h: Handle, moves: seq<Pos>, j: nat,
                     vals: seq<Utility>, tried: seq<(Pos, Pos)>, v: Utility)
    requires Wf(st) && k in LiveKeys(st, mover) && h == st.Team(mover)[k]
    requires moves == ListMoves(st, k, false) && j < |moves|
    requires PieceVisited(st, mover, c, phase, done, k, moves, j, vals, tried)
    requires SearchKept(st, cur, mover) && SearchKept(cur, after, mover)
    requires v == Evaluate(MakeMove(cur, h, moves[j]).0, c, phase)
    ensures SearchKept(st, after, mover)
    ensures PieceVisited(st, mover, c, phase, done, k, moves, j + 1, vals + [v], tried + [(k, moves[j])])
  {
    SearchKeptTrans(st, cur, after, mover);
    MoveValueOf(st, cur, mover, c, phase, k, moves[j], v);
    MoveValuesSnoc(st, mover, c, phase, tried, vals, (k, moves[j]), v);
    PieceCoveredStep(st, done, k, moves, j, tried);
  }

  /** The piece keyed at `k` on `st` can make its j-th listmoves move on a
    * board kept from `st`. */
  lemma MoveReady(st: BoardState, cur: BoardState, mover: Side, k: Pos, h: Handle, moves: seq<Pos>, j: nat)
    requires Wf(st) && k in LiveKeys(st, mover) && h == st.Team(mover)[k]
    requires moves == ListMoves(st, k, false) && j < |moves| && SearchKept(st, cur, mover)
    ensures Consistent(cur) && k in LiveKeys(cur, mover) && h == cur.Team(mover)[k] && Free(cur, moves[j])
  {
    PieceOnBoard(st, cur, mover, k);
    MoveTargetFree(st, k, moves[j]);
  }

  /** The move from `k` to `m` made on a board restored from `st` is a move
    * of `mover` on `st`, and `v` is its MoveValue. */
  lemma MoveValueOf(st: BoardState, cur: BoardState, mover: Side, c: Side, phase: Phase, k: Pos, m: Pos, v: Utility)
    requires Wf(st) && k in LiveKeys(st, mover) && m in ListMoves(st, k, false)
    requires Restored(st, cur) && Consistent(cur)
    requires v == Evaluate(MakeMove(cur, st.Team(mover)[k], m).0, c, phase)
    ensures (k, m) in MovesOf(st, mover) && MoveValue(st, mover, (k, m), v, c, phase)
  {
    MovesOfMember(st, mover, k, m);
    RestoredQueries(st, cur);
    assert AliveMap(cur, mover)[k] == AliveMap(st, mover)[k];
    StandingOfLive(cur, mover, k);
  }

  /** A live piece of `st` is keyed, with the same handle, on a board
    * restored from `st`, and stands on its key square. */
  lemma PieceOnBoard(st: BoardState, cur: BoardState, mover: Side, k: Pos)
    requires Wf(st) && k in LiveKeys(st, mover) && Restored(st, cur) && Consistent(cur)
    ensures k in LiveKeys(cur, mover) && cur.Team(mover)[k] == st.Team(mover)[k]
    ensures cur.Team(mover)[k] < |cur.pieces| && cur.pieces[cur.Team(mover)[k]].pos == k
  {
    RestoredQueries(st, cur);
    assert AliveMap(cur, mover)[k] == AliveMap(st, mover)[k];
    StandingOfLive(cur, mover, k);
  }

  /** The loop tried every move of every live piece of the mover. */
  lemma MoveNodeAll(st: BoardState, c: Side, phase: Phase, isMax: bool, a: Utility, b: Utility,
                    done: set<Pos>, vals: seq<Utility>, tried: seq<(Pos, Pos)>, x: Utility)
    requires Wf(st) && MovesVisited(st, if isMax then c else Opponent(c), c, phase, done, vals, tried)
    requires LiveKeys(st, if isMax then c else Opponent(c)) <= done
    requires Fold(isMax, a, b, vals) == (x, false)
    ensures MoveNode(st, c, phase, isMax, a, b, x, vals, tried)
  {
    var mover := if isMax then c else Opponent(c);
    forall mv | mv in MovesOf(st, mover) ensures mv in tried {
      MovesOfMember(st, mover, mv.0, mv.1);
    }
  }

  /** The loop cut off. */
  lemma MoveNodeCut(st: BoardState, c: Side, phase: Phase, isMax: bool, a: Utility, b: Utility,
                    done: set<Pos>, vals: seq<Utility>, tried: seq<(Pos, Pos)>, x: Utility)
    requires Wf(st) && MovesVisited(st, if isMax then c else Opponent(c), c, phase, done, vals, tried)
    requires Fold(isMax, a, b, vals) == (x, true)
    ensures MoveNode(st, c, phase, isMax, a, b, x, vals, tried)
  {
  }

  /** A node's loop result is what max_move or min_move returns, and lies in
    * the window it was given. */
  lemma MoveNodeResult(st: BoardState, c: Side, phase: Phase, isMax: bool, depth: nat, a: Utility, b: Utility,
                       r: Utility, vals: seq<Utility>, tried: seq<(Pos, Pos)>)
    requires Wf(st) && !MoveCutoff(st, c, depth) && MoveNode(st, c, phase, isMax, a, b, r, vals, tried)
    ensures MoveResult(st, c, phase, isMax, depth, a, b, r)
    ensures Le(a, b) ==> Le(a, r) && Le(r, b)
  {
  }

  // ------------------------------------------------------------------ root

  /** max(values, key=values.get) on a dictionary whose keys, in insertion
    * order, are `order` and whose values are `vals` picks `x`: a key of
    * largest value, the first such key in insertion order. */
  ghost predicate Picked<K>(order: seq<K>, vals: seq<Utility>, x: K)
    requires |order| == |vals|
  {
    exists i :: 0 <= i < |order| && order[i] == x
      && (forall j :: 0 <= j < |vals| ==> Le(vals[j], vals[i]))
      && (forall j :: 0 <= j < i ==> !Le(vals[i], vals[j]))
  }

  /** The key Picked names is a key of the dictionary. */
  lemma PickedIn<K>(order: seq<K>, vals: seq<Utility>, x: K)
    requires |order| == |vals| && Picked(order, vals, x)
    ensures x in order
  {
  }

  /** What alpha_beta_move leaves and returns: the board restored from `st`;
    * a dictionary holding every move of every live piece of `c`, each with
    * the value evaluate_board gives after it (max_move at depth 0); and the
    * first move of largest value, or nothing (max raises on the empty
    * dictionary) exactly when `c` has no move. */
  ghost predicate MoveChosen(st: BoardState, u: BoardState, c: Side, phase: Phase,
                             r: Option<(Pos, Pos)>, order: seq<(Pos, Pos)>, vals: seq<Utility>)
    requires Wf(st)
  {
    && SearchKept(st, u, c)
    && |vals| == |order| && MoveValues(st, c, c, phase, order, vals)
    && (forall mv :: mv in MovesOf(st, c) ==> mv in order)
    && (r.None? <==> MovesOf(st, c) == {})
    && (r.Some? ==> Picked(order, vals, r.value))
  }

  /** The loop of alpha_beta_move went through every live piece. */
  lemma MoveChosenAll(st: BoardState, u: BoardState, c: Side, phase: Phase, done: set<Pos>,
                      order: seq<(Pos, Pos)>, vals: seq<Utility>)
    requires Wf(st) && SearchKept(st, u, c) && LiveKeys(st, c) <= done
    requires MovesVisited(st, c, c, phase, done, vals, order)
    ensures MoveChosen(st, u, c, phase, if order == [] then None else Some(order[ArgMaxFirst(vals)]), order, vals)
  {
    forall mv | mv in MovesOf(st, c) ensures mv in order {
      MovesOfMember(st, c, mv.0, mv.1);
    }
    if order != [] {
      assert order[|order| - 1] in MovesOf(st, c);
      PickFirst(order, vals);
    }
  }

  /** The first index of largest value is what max picks. */
  lemma PickFirst<K>(order: seq<K>, vals: seq<Utility>)
    requires |order| == |vals| > 0
    ensures Picked(order, vals, order[ArgMaxFirst(vals)])
  {
    var i := ArgMaxFirst(vals);
    assert order[i] == order[ArgMaxFirst(vals)];
  }

  /** The pick is determined by the dictionary. */
  lemma PickedUnique<K>(order: seq<K>, vals: seq<Utility>, x: K, y: K)
    requires |order| == |vals| && Picked(order, vals, x) && Picked(order, vals, y)
    ensures x == y
  {
    var i :| 0 <= i < |order| && order[i] == x
      && (forall j :: 0 <= j < |vals| ==> Le(vals[j], vals[i]))
      && (forall j :: 0 <= j < i ==> !Le(vals[i], vals[j]));
    var k :| 0 <= k < |order| && order[k] == y
      && (forall j :: 0 <= j < |vals| ==> Le(vals[j], vals[k]))
      && (forall j :: 0 <= j < k ==> !Le(vals[k], vals[j]));
    assert Le(vals[k], vals[i]) && Le(vals[i], vals[k]);
  }

  /** The inner loop of evaluate_board: the list `dfm` of the distances from
    * `p` to the middle squares, and its minimum. */
  method DistanceFromMiddle(p: Pos) returns (distance: int)
    ensures distance == MiddleDistance(p)
  {
    var dfm: seq<int> := [];
    var j := 0;
    while j < |MiddleSquares|
      invariant 0 <= j <= |MiddleSquares|
      invariant dfm == DistancesTo(p, MiddleSquares[..j])
    {
      assert MiddleSquares[..j + 1][..j] == MiddleSquares[..j];
      dfm := dfm + [ManhattanDistance(p, MiddleSquares[j])];
      j := j + 1;
    }
    assert MiddleSquares[..j] == MiddleSquares;
    distance := MinOf(dfm);
  }

  // ------------------------------------------------------- action and update

  /** A board the player can act on: consistent, its play area the square of
    * its level, shrunk at most twice, and showing only the original corners
    * before the first shrink. */
  ghost predicate Playable(st: BoardState)
  {
    && Consistent(st) && AreaShape(st) && 0 <= st.shrinks <= 2
    && (st.shrinks == 0 ==> OnlyOriginalCorners(st))
  }

  /** The board action and update go on with at turn `t`: shrunk once when
    * `t` is a turn of SHRINK, as it was otherwise. */
  ghost function ShrinkAt(st: BoardState, t: int): (r: BoardState)
    requires Playable(st) && (t in ShrinkTurns ==> st.shrinks <= 1)
    ensures Playable(r) && r.shrinks == st.shrinks + (if t in ShrinkTurns then 1 else 0)
    ensures t !in ShrinkTurns ==> r == st
  {
    if t in ShrinkTurns then ShrinkEffect(st); Shrink(st) else st
  }

  /** `after` is `u` once side `c` has made `play` on it: place_piece at a
    * square, or make_move of the live piece of `c` keyed at the starting
    * square. */
  ghost predicate PlayedOn(u: BoardState, c: Side, play: Play, after: BoardState)
  {
    Wf(u) &&
    match play
    case Placement(pos) => after == PlacePiece(u, c, pos).0
    case Movement(from, to) =>
      from in LiveKeys(u, c) && Standing(u, u.Team(c)[from])
      && after == MakeMove(u, u.Team(c)[from], to).0
  }

  /** A board of the same layout as a playable one, and consistent, is playable. */
  lemma LayoutPlayable(st: BoardState, r: BoardState)
    requires Playable(st) && Consistent(r) && SameLayout(st, r)
    ensures Playable(r)
  {
  }

  /** place_piece on a board of the layout of a playable one leaves a playable board. */
  lemma PlacedPlayable(st: BoardState, u: BoardState, c: Side, pos: Pos)
    requires Playable(st) && Consistent(u) && SameLayout(st, u)
    ensures Playable(PlacePiece(u, c, pos).0) && PlayedOn(u, c, Placement(pos), PlacePiece(u, c, pos).0)
  {
    PlaceConsistent(u, c, pos);
    PlaceKeepsLayout(u, c, pos);
    SameLayoutTrans(st, u, PlacePiece(u, c, pos).0);
    LayoutPlayable(st, PlacePiece(u, c, pos).0);
  }

  /** A move of a standing piece to a free square, made on a board of the
    * layout of a playable one, leaves a playable board. */
  lemma MovedPlayable(st: BoardState, u: BoardState, c: Side, k: Pos, m: Pos)
    requires Playable(st) && Consistent(u) && SameLayout(st, u)
    requires k in LiveKeys(u, c) && Standing(u, u.Team(c)[k]) && Free(u, m)
    ensures PlayedOn(u, c, Movement(k, m), MakeMove(u, u.Team(c)[k], m).0)
    ensures Playable(MakeMove(u, u.Team(c)[k], m).0)
  {
    var h := u.Team(c)[k];
    MoveConsistent(u, h, m);
    MoveKeepsLayout(u, h, m);
    SameLayoutTrans(st, u, MakeMove(u, h, m).0);
    LayoutPlayable(st, MakeMove(u, h, m).0);
  }

  /** Every move a MoveValues record holds is a move of the mover. */
  lemma {:induction false} MoveValuesIn(st: BoardState, mover: Side, c: Side, phase: Phase,
                                        tried: seq<(Pos, Pos)>, vals: seq<Utility>, i: nat)
    requires Wf(st) && |tried| == |vals| && MoveValues(st, mover, c, phase, tried, vals) && i < |tried|
    ensures tried[i] in MovesOf(st, mover)
    decreases |tried|
  {
    if i < |tried| - 1 {
      FrontIndex(tried, i);
      MoveValuesIn(st, mover, c, phase, tried[..|tried| - 1], vals[..|vals| - 1], i);
    }
  }

  /** Dropping the last element keeps the others where they were. */
  lemma FrontIndex<T>(s: seq<T>, i: nat)
    requires i < |s| - 1
    ensures s[..|s| - 1][i] == s[i]
  {
  }

  /** get_piece finds a piece standing on its square. */
  lemma GetPieceStanding(st: BoardState, p: Pos)
    requires Consistent(st) && GetPiece(st, p).Some?
    ensures Standing(st, GetPiece(st, p).value)
  {
    if p in LiveKeys(st, Black) {
      StandingOfLive(st, Black, p);
    } else {
      StandingOfLive(st, White, p);
    }
  }

  /** The move alpha_beta_move picks can be made on the board it leaves:
    * get_piece finds the live piece at its square, and its target is free. */
  lemma ChosenMoveReady(st: BoardState, u: BoardState, c: Side, phase: Phase,
                        order: seq<(Pos, Pos)>, vals: seq<Utility>, k: Pos, m: Pos)
    requires Wf(st) && MoveChosen(st, u, c, phase, Some((k, m)), order, vals)
    ensures Consistent(u) && k in LiveKeys(u, c) && GetPiece(u, k) == Some(u.Team(c)[k])
    ensures Standing(u, u.Team(c)[k]) && Free(u, m) && SameLayout(st, u) && (k, m) in MovesOf(st, c)
  {
    RestoredLayout(st, u);
    var i :| 0 <= i < |order| && order[i] == (k, m);
    MoveValuesIn(st, c, c, phase, order, vals, i);
    MovesOfMember(st, c, k, m);
    PieceOnBoard(st, u, c, k);
    GetPieceOfLive(u, c, k);
    StandingOfLive(u, c, k);
    MoveTargetFree(st, k, m);
  }

  // ------------------------------------------------------------------ player

  class Player {
    const board: Board
    var phase: Phase
    var turns: int
    const colour: Side
    const enemy: Side

    /** The player's board is consistent and its play area is the square of
      * its level; before the first shrink the only corners are the original
      * four. */
    ghost predicate Valid()
      reads this, board
    {
      board.Valid() && enemy == Opponent(colour) && Playable(board.Abs())
    }

    /** __init__(colour): a fresh board, the placing phase, turn 0. */
    constructor (c: Side)
      ensures Valid() && fresh(board)
      ensures colour == c && enemy == Opponent(c) && phase == Placing && turns == 0
      ensures board.Abs() == InitialBoard()
    {
      board := new Board();
      phase := Placing;
      turns := 0;
      colour := c;
      enemy := Opponent(c);
      InitialBoardShape();
    }

    /** evaluate_board(board) for this player's side and phase. */
    method EvaluateBoard(b: Board) returns (v: Utility)
      requires b.Valid() && enemy == Opponent(colour)
      ensures v == Evaluate(b.Abs(), colour, phase)
    {
      if phase == Moving {
        var result := CheckWin(b.Abs(), colour);
        if result == Win {
          return PosInf;
        } else if result == Loss {
          return NegInf;
        } else if result == Tie {
          return Fin(-100);
        }
      }
      var value := Score(b);
      return Fin(value);
    }

    /** The rest of evaluate_board: 20 per live piece of the player, -15 per
      * live enemy piece, less the distance of each live piece of the player
      * from the middle. */
    method Score(b: Board) returns (value: int)
      requires b.Valid() && enemy == Opponent(colour)
      ensures Wf(b.Abs()) && Named(b.pieces, AliveMap(b.Abs(), colour), LiveKeys(b.Abs(), colour))
      ensures value == Material(b.Abs(), colour)
                       - CentreDistance(b.pieces, AliveMap(b.Abs(), colour), LiveKeys(b.Abs(), colour))
    {
      ghost var st := b.Abs();
      var own := b.GetAlive(colour);
      var other := b.GetAlive(enemy);
      value := 20 * |own| - 15 * |other|;
      AliveNamed(st, colour);
      var todo := own.Keys;
      while todo != {}
        invariant todo <= own.Keys
        invariant value - CentreDistance(st.pieces, own, todo) ==
                  Material(st, colour) - CentreDistance(st.pieces, own, own.Keys)
        decreases todo
      {
        var k :| k in todo;
        var p := b.pieces[own[k]].pos;
        var distance := DistanceFromMiddle(p);
        CentreDistanceAny(st.pieces, own, todo, k);
        value := value - distance;
        todo := todo - {k};
      }
    }

    /** max_place(depth, a, b): the placing node where this player places. */
    method MaxPlace(depth: nat, a: Utility, b: Utility) returns (r: Option<Utility>)
      requires board.Valid() && Consistent(board.Abs()) && enemy == Opponent(colour) && depth <= 1
      modifies board
      ensures board.Valid() && SearchKept(old(board.Abs()), board.Abs(), colour)
      ensures PlaceResult(old(board.Abs()), colour, phase, turns, true, depth, a, b, r)
      ensures PlaceCutoff(turns, depth) ==>
                board.Abs() == old(board.Abs()) && r == Some(Evaluate(old(board.Abs()), colour, phase))
      ensures !PlaceCutoff(turns, depth) && r.Some? && Le(a, b) ==> Le(a, r.value) && Le(r.value, b)
      decreases depth, 3
    {
      ghost var st := board.Abs();
      if turns + (PlaceDepth - depth) >= MovingPhase || depth == 0 {
        SearchKeptRefl(st, colour);
        var v := EvaluateBoard(board);
        return Some(v);
      }
      ghost var j, vals, tried;
      r, j, vals, tried := PlaceLoop(true, depth, a, b);
      PlaceLoopResult(st, colour, phase, turns, true, depth, a, b, j, vals, tried, r);
    }

    /** min_place(depth, a, b): the placing node where the enemy places. */
    method MinPlace(depth: nat, a: Utility, b: Utility) returns (r: Option<Utility>)
      requires board.Valid() && Consistent(board.Abs()) && enemy == Opponent(colour) && depth <= 1
      modifies board
      ensures board.Valid() && SearchKept(old(board.Abs()), board.Abs(), enemy)
      ensures PlaceResult(old(board.Abs()), colour, phase, turns, false, depth, a, b, r)
      ensures PlaceCutoff(turns, depth) ==>
                board.Abs() == old(board.Abs()) && r == Some(Evaluate(old(board.Abs()), colour, phase))
      ensures !PlaceCutoff(turns, depth) && r.Some? && Le(a, b) ==> Le(a, r.value) && Le(r.value, b)
      decreases depth, 3
    {
      ghost var st := board.Abs();
      if turns + (PlaceDepth - depth) >= MovingPhase || depth == 0 {
        SearchKeptRefl(st, enemy);
        var v := EvaluateBoard(board);
        return Some(v);
      }
      ghost var j, vals, tried;
      r, j, vals, tried := PlaceLoop(false, depth, a, b);
      PlaceLoopResult(st, colour, phase, turns, false, depth, a, b, j, vals, tried, r);
    }

    /** The loop of max_place (isMax, where this player places and `a` rises)
      * and of min_place (the enemy places and `b` falls) over the mover's
      * starting zone: each square get_piece finds open is placed on, searched
      * below and undone, and its value folded into the window. */
    method PlaceLoop(isMax: bool, depth: nat, a: Utility, b: Utility)
      returns (r: Option<Utility>, ghost j: nat, ghost vals: seq<Utility>, ghost tried: seq<Pos>)
      requires board.Valid() && Consistent(board.Abs()) && enemy == Opponent(colour) && depth == 1
      modifies board
      ensures board.Valid() && SearchKept(old(board.Abs()), board.Abs(), if isMax then colour else enemy)
      ensures LoopStopped(old(board.Abs()), colour, phase, isMax, a, b,
                          StartingZone(old(board.Abs()).area, if isMax then colour else enemy), j, vals, tried, r)
      decreases depth, 2
    {
      ghost var st := board.Abs();
      var mover := if isMax then colour else enemy;
      SearchKeptRefl(st, mover);
      var zone := board.StartingZone(mover);
      vals, tried := [], [];
      VisitedNone(st, mover, colour, phase, zone);
      var acc := if isMax then a else b;
      var i := 0;
      while i < |zone|
        invariant 0 <= i <= |zone|
        invariant board.Valid() && SearchKept(st, board.Abs(), mover)
        invariant Visited(st, mover, colour, phase, zone, i, vals, tried)
        invariant Fold(isMax, a, b, vals) == (acc, false)
      {
        var stop;
        stop, r, acc, vals, tried := PlaceStep(isMax, depth, st, zone, i, a, b, acc, vals, tried);
        if stop {
          return r, if r.None? then i else i + 1, vals, tried;
        }
        i := i + 1;
      }
      return Some(acc), i, vals, tried;
    }

    /** One pass of the loop of max_place or min_place, at zone[i]: a square
      * get_piece finds taken is passed over; on an open one the mover
      * places, searches and undoes, and the child's value moves the window,
      * stopping the loop on a cut or where undo_place raises. */
    method PlaceStep(isMax: bool, depth: nat, ghost st: BoardState, zone: seq<Pos>, i: nat,
                     a: Utility, b: Utility, acc: Utility, ghost vals: seq<Utility>, ghost tried: seq<Pos>)
      returns (stop: bool, r: Option<Utility>, acc': Utility, ghost vals': seq<Utility>, ghost tried': seq<Pos>)
      requires board.Valid() && enemy == Opponent(colour) && depth == 1 && Wf(st)
      requires zone == StartingZone(st.area, if isMax then colour else enemy) && i < |zone|
      requires SearchKept(st, board.Abs(), if isMax then colour else enemy)
      requires Visited(st, if isMax then colour else enemy, colour, phase, zone, i, vals, tried)
      requires Fold(isMax, a, b, vals) == (acc, false)
      modifies board
      ensures board.Valid() && SearchKept(st, board.Abs(), if isMax then colour else enemy)
      ensures !stop ==> Visited(st, if isMax then colour else enemy, colour, phase, zone, i + 1, vals', tried')
                        && Fold(isMax, a, b, vals') == (acc', false)
      ensures stop ==> LoopStopped(st, colour, phase, isMax, a, b, zone, if r.None? then i else i + 1, vals', tried', r)
      decreases depth, 1
    {
      var mover := if isMax then colour else enemy;
      var pos := zone[i];
      ghost var cur := board.Abs();
      var found := board.GetPiece(pos);
      GetPieceRestored(st, cur, pos);
      if found != None {
        VisitedSkip(st, mover, colour, phase, zone, i, vals, tried);
        return false, None, acc, vals, tried;
      }
      var placed, v := PlaceAndSearch(isMax, depth, pos, if isMax then acc else a, if isMax then b else acc);
      SearchKeptTrans(st, cur, board.Abs(), mover);
      if !placed {
        StepRaised(st, cur, colour, phase, isMax, a, b, zone, i, vals, tried);
        return true, None, acc, vals, tried;
      }
      StepPlaced(st, cur, colour, phase, isMax, a, b, zone, i, vals, tried, acc, v);
      vals', tried' := vals + [v], tried + [pos];
      if isMax {
        acc' := Max(acc, v);
        if Le(b, acc') {
          return true, Some(b), acc', vals', tried';
        }
      } else {
        acc' := Min(acc, v);
        if Le(acc', a) {
          return true, Some(a), acc', vals', tried';
        }
      }
      return false, None, acc', vals', tried';
    }

    /** alpha_beta_place(): the square to place on. Each square of the
      * player's starting zone that get_piece finds open is placed on,
      * searched with max_place(PLACE_DEPTH, -inf, inf) and undone; the
      * dictionary `order`/`vals` records the values, and the first square of
      * largest value is returned. None where max over the empty dictionary
      * or undo_place raises. */
    method AlphaBetaPlace() returns (r: Option<Pos>, ghost order: seq<Pos>, ghost vals: seq<Utility>)
      requires board.Valid() && Consistent(board.Abs()) && enemy == Opponent(colour)
      modifies board
      ensures board.Valid() && PlaceChosen(old(board.Abs()), board.Abs(), colour, phase, turns, r, order, vals)
    {
      ghost var st := board.Abs();
      SearchKeptRefl(st, colour);
      var zone := board.StartingZone(colour);
      var keys: seq<Pos> := [];
      var values: seq<Utility> := [];
      RootVisitedNone(st, colour, phase, turns, zone);
      var i := 0;
      while i < |zone|
        invariant 0 <= i <= |zone|
        invariant board.Valid() && SearchKept(st, board.Abs(), colour)
        invariant RootVisited(st, colour, phase, turns, zone, i, keys, values)
        invariant keys == [] ==> board.Abs() == st
      {
        var raised;
        raised, keys, values := RootStep(st, zone, i, keys, values);
        if raised {
          ChosenRaised(st, board.Abs(), colour, phase, turns, keys, values);
          return None, keys, values;
        }
        i := i + 1;
      }
      ChosenAll(st, board.Abs(), colour, phase, turns, keys, values);
      if keys == [] {
        return None, keys, values;
      }
      var k := ArgMaxFirst(values);
      return Some(keys[k]), keys, values;
    }

    /** One pass of the loop of alpha_beta_place, at zone[i]. `raised` where
      * undo_place or the search below raised. */
    method RootStep(ghost st: BoardState, zone: seq<Pos>, i: nat, keys: seq<Pos>, values: seq<Utility>)
      returns (raised: bool, keys': seq<Pos>, values': seq<Utility>)
      requires board.Valid() && enemy == Opponent(colour) && Wf(st)
      requires zone == StartingZone(st.area, colour) && i < |zone|
      requires SearchKept(st, board.Abs(), colour) && (keys == [] ==> board.Abs() == st)
      requires RootVisited(st, colour, phase, turns, zone, i, keys, values)
      modifies board
      ensures board.Valid() && Consistent(board.Abs()) && SameLayout(st, board.Abs())
      ensures !raised ==> SearchKept(st, board.Abs(), colour) && (keys' == [] ==> board.Abs() == st)
                          && RootVisited(st, colour, phase, turns, zone, i + 1, keys', values')
      ensures raised ==> !OnlyOriginalCorners(st)
    {
      var pos := zone[i];
      ghost var cur := board.Abs();
      var found := board.GetPiece(pos);
      GetPieceRestored(st, cur, pos);
      if found != None {
        RootVisitedSkip(st, colour, phase, turns, zone, i, keys, values);
        return false, keys, values;
      }
      StartingZoneMembers(st.area, colour);
      var v;
      raised, v := RootSearch(pos);
      RestoredLayout(st, cur);
      SameLayoutTrans(st, cur, board.Abs());
      if raised {
        CornersKept(st, cur);
        return true, keys, values;
      }
      SearchKeptTrans(st, cur, board.Abs(), colour);
      RootVisitedPlace(st, cur, colour, phase, turns, zone, i, keys, values, v);
      return false, keys + [pos], values + [v];
    }

    /** The body of the loop of alpha_beta_place at a square get_piece found
      * open: place, max_place(PLACE_DEPTH, -inf, inf), undo. `raised` where
      * max_place raised or place_piece refused the square, so that
      * undo_place raises. */
    method RootSearch(pos: Pos) returns (raised: bool, v: Utility)
      requires board.Valid() && Consistent(board.Abs()) && enemy == Opponent(colour)
      requires pos in StartingZone(board.Abs().area, colour) && GetPiece(board.Abs(), pos).None?
      modifies board
      ensures board.Valid() && Consistent(board.Abs()) && SameLayout(old(board.Abs()), board.Abs())
      ensures raised ==> !OnlyOriginalCorners(old(board.Abs()))
      ensures !raised ==> SearchKept(old(board.Abs()), board.Abs(), colour) && Free(old(board.Abs()), pos)
      ensures !raised ==> PlaceResult(PlacePiece(old(board.Abs()), colour, pos).0, colour, phase, turns, true,
                                      PlaceDepth, NegInf, PosInf, Some(v))
    {
      ghost var cur := board.Abs();
      PlaceOutcome(cur, colour, pos);
      PlaceKeepsLayout(cur, colour, pos);
      var eliminated := board.PlacePiece(colour, pos);
      ghost var placed := board.Abs();
      var r := RootMax();
      SameLayoutTrans(cur, placed, board.Abs());
      if r == None {
        CornersKept(cur, placed);
        return true, NegInf;
      }
      if eliminated == None {
        RefusedCorner(cur, colour, pos);
        return true, NegInf;
      }
      RootUndo(cur, pos, eliminated.value);
      return false, r.value;
    }

    /** max_place(PLACE_DEPTH, -inf, inf), as alpha_beta_place calls it. */
    method RootMax() returns (r: Option<Utility>)
      requires board.Valid() && Consistent(board.Abs()) && enemy == Opponent(colour)
      modifies board
      ensures board.Valid() && SearchKept(old(board.Abs()), board.Abs(), colour)
      ensures SameLayout(old(board.Abs()), board.Abs())
      ensures r.None? ==> !OnlyOriginalCorners(old(board.Abs()))
      ensures r.Some? ==> PlaceResult(old(board.Abs()), colour, phase, turns, true, PlaceDepth, NegInf, PosInf, r)
    {
      ghost var st := board.Abs();
      r := MaxPlace(PlaceDepth, NegInf, PosInf);
      RestoredLayout(st, board.Abs());
      if r == None {
        RaisedNotOriginal(st, colour, phase, turns, true, PlaceDepth, NegInf, PosInf);
      }
    }

    /** undo_place after the search below a placement at `pos` on `cur`. */
    method RootUndo(ghost cur: BoardState, pos: Pos, eliminated: seq<Handle>)
      requires board.Valid() && Consistent(cur) && Free(cur, pos)
      requires PlacePiece(cur, colour, pos).1 == Some(eliminated)
      requires SearchKept(PlacePiece(cur, colour, pos).0, board.Abs(), colour)
      modifies board
      ensures board.Valid() && Consistent(board.Abs()) && SearchKept(cur, board.Abs(), colour)
      ensures SameLayout(cur, board.Abs())
    {
      UndoAfterSearch(cur, colour, pos, board.Abs());
      board.UndoPlace(colour, pos, eliminated);
      RestoredLayout(cur, board.Abs());
    }

    /** max_move(depth, a, b): the moving node where this player moves. */
    method MaxMove(depth: nat, a: Utility, b: Utility) returns (r: Utility)
      requires board.Valid() && Consistent(board.Abs()) && enemy == Opponent(colour) && depth <= 1
      modifies board
      ensures board.Valid() && SearchKept(old(board.Abs()), board.Abs(), colour)
      ensures MoveResult(old(board.Abs()), colour, phase, true, depth, a, b, r)
      ensures MoveCutoff(old(board.Abs()), colour, depth) ==>
                board.Abs() == old(board.Abs()) && r == Evaluate(old(board.Abs()), colour, phase)
      ensures !MoveCutoff(old(board.Abs()), colour, depth) && Le(a, b) ==> Le(a, r) && Le(r, b)
      decreases depth, 5
    {
      ghost var st := board.Abs();
      if CheckWin(board.Abs(), colour) != Continue || depth == 0 {
        SearchKeptRefl(st, colour);
        r := EvaluateBoard(board);
        return;
      }
      ghost var vals, tried;
      r, vals, tried := MoveLoop(true, depth, a, b);
      MoveNodeResult(st, colour, phase, true, depth, a, b, r, vals, tried);
    }

    /** min_move(depth, a, b): the moving node where the enemy moves. */
    method MinMove(depth: nat, a: Utility, b: Utility) returns (r: Utility)
      requires board.Valid() && Consistent(board.Abs()) && enemy == Opponent(colour) && depth <= 1
      modifies board
      ensures board.Valid() && SearchKept(old(board.Abs()), board.Abs(), enemy)
      ensures MoveResult(old(board.Abs()), colour, phase, false, depth, a, b, r)
      ensures MoveCutoff(old(board.Abs()), colour, depth) ==>
                board.Abs() == old(board.Abs()) && r == Evaluate(old(board.Abs()), colour, phase)
      ensures !MoveCutoff(old(board.Abs()), colour, depth) && Le(a, b) ==> Le(a, r) && Le(r, b)
      decreases depth, 5
    {
      ghost var st := board.Abs();
      if CheckWin(board.Abs(), colour) != Continue || depth == 0 {
        SearchKeptRefl(st, enemy);
        r := EvaluateBoard(board);
        return;
      }
      ghost var vals, tried;
      r, vals, tried := MoveLoop(false, depth, a, b);
      MoveNodeResult(st, colour, phase, false, depth, a, b, r, vals, tried);
    }

    /** The loops of max_move (isMax, where this player moves and `a` rises)
      * and of min_move (the enemy moves and `b` falls): over the live pieces
      * of the mover, and over the listmoves squares of each. */
    method MoveLoop(isMax: bool, depth: nat, a: Utility, b: Utility)
      returns (r: Utility, ghost vals: seq<Utility>, ghost tried: seq<(Pos, Pos)>)
      requires board.Valid() && Consistent(board.Abs()) && enemy == Opponent(colour) && depth == 1
      modifies board
      ensures board.Valid() && SearchKept(old(board.Abs()), board.Abs(), if isMax then colour else enemy)
      ensures MoveNode(old(board.Abs()), colour, phase, isMax, a, b, r, vals, tried)
      decreases depth, 4
    {
      ghost var st := board.Abs();
      var mover := if isMax then colour else enemy;
      SearchKeptRefl(st, mover);
      var alive := board.GetAlive(mover);
      var todo := alive.Keys;
      ghost var done: set<Pos> := {};
      vals, tried := [], [];
      MovesVisitedNone(st, mover, colour, phase);
      var acc := if isMax then a else b;
      while todo != {}
        invariant alive.Keys <= done + todo
        invariant board.Valid() && SearchKept(st, board.Abs(), mover)
        invariant MovesVisited(st, mover, colour, phase, done, vals, tried)
        invariant Fold(isMax, a, b, vals) == (acc, false)
        decreases todo
      {
        var k :| k in todo;
        var stop;
        stop, acc, vals, tried := PieceLoop(isMax, depth, st, done, k, alive[k], a, b, acc, vals, tried);
        if stop {
          MoveNodeCut(st, colour, phase, isMax, a, b, done, vals, tried, acc);
          return acc, vals, tried;
        }
        done := done + {k};
        todo := todo - {k};
      }
      MoveNodeAll(st, colour, phase, isMax, a, b, done, vals, tried, acc);
      return acc, vals, tried;
    }

    /** The inner loop of max_move or min_move over the moves of the live
      * piece `h` keyed at `k`. `stop` on a cut. */
    method PieceLoop(isMax: bool, depth: nat, ghost st: BoardState, ghost done: set<Pos>, k: Pos, h: Handle,
                     a: Utility, b: Utility, acc: Utility, ghost vals: seq<Utility>, ghost tried: seq<(Pos, Pos)>)
      returns (stop: bool, acc': Utility, ghost vals': seq<Utility>, ghost tried': seq<(Pos, Pos)>)
      requires board.Valid() && enemy == Opponent(colour) && depth == 1 && Wf(st)
      requires k in LiveKeys(st, if isMax then colour else enemy) && h == st.Team(if isMax then colour else enemy)[k]
      requires SearchKept(st, board.Abs(), if isMax then colour else enemy)
      requires MovesVisited(st, if isMax then colour else enemy, colour, phase, done, vals, tried)
      requires Fold(isMax, a, b, vals) == (acc, false)
      modifies board
      ensures board.Valid() && SearchKept(st, board.Abs(), if isMax then colour else enemy)
      ensures MovesVisited(st, if isMax then colour else enemy, colour, phase, if stop then done else done + {k}, vals', tried')
      ensures Fold(isMax, a, b, vals') == (acc', stop)
      decreases depth, 3
    {
      var mover := if isMax then colour else enemy;
      ghost var cur := board.Abs();
      PieceOnBoard(st, cur, mover, k);
      var moves := board.ListMoves(h, false);
      ListMovesRestored(st, cur, k, false);
      PieceVisitedStart(st, mover, colour, phase, done, k, moves, vals, tried);
      acc', vals', tried' := acc, vals, tried;
      var j := 0;
      while j < |moves|
        invariant 0 <= j <= |moves|
        invariant board.Valid() && SearchKept(st, board.Abs(), mover)
        invariant PieceVisited(st, mover, colour, phase, done, k, moves, j, vals', tried')
        invariant Fold(isMax, a, b, vals') == (acc', false)
      {
        stop, acc', vals', tried' := MoveStep(isMax, mover, depth, st, done, k, h, moves, j, a, b, acc', vals', tried');
        if stop {
          return;
        }
        j := j + 1;
      }
      PieceCoveredDone(st, done, k, tried');
      return false, acc', vals', tried';
    }

    /** One pass of the inner loop of max_move or min_move: move the piece to
      * moves[j], search below, undo, and move the window. */
    method MoveStep(isMax: bool, mover: Side, depth: nat, ghost st: BoardState, ghost done: set<Pos>, k: Pos, h: Handle,
                    moves: seq<Pos>, j: nat, a: Utility, b: Utility, acc: Utility,
                    ghost vals: seq<Utility>, ghost tried: seq<(Pos, Pos)>)
      returns (stop: bool, acc': Utility, ghost vals': seq<Utility>, ghost tried': seq<(Pos, Pos)>)
      requires board.Valid() && enemy == Opponent(colour) && depth == 1 && Wf(st)
      requires mover == if isMax then colour else enemy
      requires k in LiveKeys(st, mover) && h == st.Team(mover)[k]
      requires moves == ListMoves(st, k, false) && j < |moves|
      requires SearchKept(st, board.Abs(), mover)
      requires PieceVisited(st, mover, colour, phase, done, k, moves, j, vals, tried)
      requires Fold(isMax, a, b, vals) == (acc, false)
      modifies board
      ensures board.Valid() && SearchKept(st, board.Abs(), mover)
      ensures PieceVisited(st, mover, colour, phase, done, k, moves, j + 1, vals', tried')
      ensures Fold(isMax, a, b, vals') == (acc', stop)
      decreases depth, 2
    {
      ghost var cur := board.Abs();
      MoveReady(st, cur, mover, k, h, moves, j);
      var v := MoveAndSearch(mover, !isMax, depth, k, h, moves[j], if isMax then acc else a, if isMax then b else acc);
      MoveStepped(st, cur, board.Abs(), mover, colour, phase, isMax, a, b, done, k, h, moves, j, vals, tried, acc, v);
      vals', tried' := vals + [v], tried + [(k, moves[j])];
      if isMax {
        acc' := Max(acc, v);
        if Le(b, acc') {
          return true, b, vals', tried';
        }
      } else {
        acc' := Min(acc, v);
        if Le(acc', a) {
          return true, a, vals', tried';
        }
      }
      return false, acc', vals', tried';
    }

    /** alpha_beta_move: every move of every live piece of the player is made,
      * valued by max_move(MOVE_DEPTH, -inf, inf) and undone; the first move
      * of largest value is returned, None where max raises. */
    method AlphaBetaMove() returns (r: Option<(Pos, Pos)>, ghost order: seq<(Pos, Pos)>, ghost vals: seq<Utility>)
      requires board.Valid() && Consistent(board.Abs()) && enemy == Opponent(colour)
      modifies board
      ensures board.Valid() && MoveChosen(old(board.Abs()), board.Abs(), colour, phase, r, order, vals)
    {
      ghost var st := board.Abs();
      SearchKeptRefl(st, colour);
      var alive := board.GetAlive(colour);
      var todo := alive.Keys;
      ghost var done: set<Pos> := {};
      var keys: seq<(Pos, Pos)> := [];
      var values: seq<Utility> := [];
      MovesVisitedNone(st, colour, colour, phase);
      while todo != {}
        invariant alive.Keys <= done + todo
        invariant board.Valid() && SearchKept(st, board.Abs(), colour)
        invariant MovesVisited(st, colour, colour, phase, done, values, keys)
        decreases todo
      {
        var k :| k in todo;
        keys, values := RootPieceLoop(st, done, k, alive[k], keys, values);
        done := done + {k};
        todo := todo - {k};
      }
      MoveChosenAll(st, board.Abs(), colour, phase, done, keys, values);
      if keys == [] {
        return None, keys, values;
      }
      var i := ArgMaxFirst(values);
      return Some(keys[i]), keys, values;
    }

    /** The inner loop of alpha_beta_move over the moves of the live piece
      * `h` keyed at `k`. */
    method RootPieceLoop(ghost st: BoardState, ghost done: set<Pos>, k: Pos, h: Handle,
                         keys: seq<(Pos, Pos)>, values: seq<Utility>)
      returns (keys': seq<(Pos, Pos)>, values': seq<Utility>)
      requires board.Valid() && enemy == Opponent(colour) && Wf(st)
      requires k in LiveKeys(st, colour) && h == st.Team(colour)[k]
      requires SearchKept(st, board.Abs(), colour)
      requires MovesVisited(st, colour, colour, phase, done, values, keys)
      modifies board
      ensures board.Valid() && SearchKept(st, board.Abs(), colour)
      ensures MovesVisited(st, colour, colour, phase, done + {k}, values', keys')
    {
      ghost var cur := board.Abs();
      PieceOnBoard(st, cur, colour, k);
      var moves := board.ListMoves(h, false);
      ListMovesRestored(st, cur, k, false);
      PieceVisitedStart(st, colour, colour, phase, done, k, moves, values, keys);
      keys', values' := keys, values;
      for j := 0 to |moves|
        invariant board.Valid() && SearchKept(st, board.Abs(), colour)
        invariant PieceVisited(st, colour, colour, phase, done, k, moves, j, values', keys')
      {
        keys', values' := RootMoveStep(st, done, k, h, moves, j, keys', values');
      }
      PieceCoveredDone(st, done, k, keys');
    }

    /** One pass of the inner loop of alpha_beta_move: move the piece to
      * moves[j], value the board with max_move(MOVE_DEPTH, -inf, inf), undo,
      * and record the value under (oldpos, move). */
    method RootMoveStep(ghost st: BoardState, ghost done: set<Pos>, k: Pos, h: Handle, moves: seq<Pos>, j: nat,
                        keys: seq<(Pos, Pos)>, values: seq<Utility>)
      returns (keys': seq<(Pos, Pos)>, values': seq<Utility>)
      requires board.Valid() && enemy == Opponent(colour) && Wf(st)
      requires k in LiveKeys(st, colour) && h == st.Team(colour)[k]
      requires moves == ListMoves(st, k, false) && j < |moves|
      requires SearchKept(st, board.Abs(), colour)
      requires PieceVisited(st, colour, colour, phase, done, k, moves, j, values, keys)
      modifies board
      ensures board.Valid() && SearchKept(st, board.Abs(), colour)
      ensures PieceVisited(st, colour, colour, phase, done, k, moves, j + 1, values', keys')
    {
      ghost var cur := board.Abs();
      MoveReady(st, cur, colour, k, h, moves, j);
      var v := MoveAndSearch(colour, true, MoveDepth + 1, k, h, moves[j], NegInf, PosInf);
      MoveRecorded(st, cur, board.Abs(), colour, colour, phase, done, k, h, moves, j, values, keys, v);
      keys', values' := keys + [(k, moves[j])], values + [v];
    }

    /** The body of the inner loops of the moving search: `oldpos =
      * piece.pos`, make_move to `m`, search the node below (max_move where
      * childMax, else min_move) at depth - 1, undo_move. */
    method MoveAndSearch(mover: Side, childMax: bool, depth: nat, k: Pos, h: Handle, m: Pos, a: Utility, b: Utility)
      returns (v: Utility)
      requires board.Valid() && Consistent(board.Abs()) && enemy == Opponent(colour) && depth == 1
      requires k in LiveKeys(board.Abs(), mover) && h == board.Abs().Team(mover)[k] && Free(board.Abs(), m)
      modifies board
      ensures board.Valid() && SearchKept(old(board.Abs()), board.Abs(), mover)
      ensures v == Evaluate(MakeMove(old(board.Abs()), h, m).0, colour, phase)
      decreases depth, 1
    {
      ghost var cur := board.Abs();
      SearchKeptRefl(cur, mover);
      MoveStepKept(cur, cur, mover, k, m);
      var oldpos := board.pieces[h].pos;
      var eliminated := board.MakeMove(h, m);
      v := SearchBelowMove(childMax, depth - 1, a, b);
      board.UndoMove(h, oldpos, eliminated);
    }

    /** max_move (isMax) or min_move at depth 0: evaluate_board on the board
      * as it is. */
    method SearchBelowMove(isMax: bool, depth: nat, a: Utility, b: Utility) returns (r: Utility)
      requires board.Valid() && Consistent(board.Abs()) && enemy == Opponent(colour) && depth == 0
      modifies board
      ensures board.Valid() && board.Abs() == old(board.Abs())
      ensures r == Evaluate(board.Abs(), colour, phase)
      decreases depth, 6
    {
      if isMax {
        r := MaxMove(depth, a, b);
      } else {
        r := MinMove(depth, a, b);
      }
    }

    /** The call one level down from a placing node of max_place (isMax) or
      * min_place: at depth 0 it evaluates the board and leaves it as it is. */
    method SearchBelow(isMax: bool, depth: nat, a: Utility, b: Utility) returns (r: Option<Utility>)
      requires board.Valid() && Consistent(board.Abs()) && enemy == Opponent(colour) && depth == 0
      modifies board
      ensures board.Valid() && board.Abs() == old(board.Abs())
      ensures r == Some(Evaluate(board.Abs(), colour, phase))
      decreases depth, 4
    {
      if isMax {
        r := MinPlace(depth, a, b);
      } else {
        r := MaxPlace(depth, a, b);
      }
    }

    /** The body of the loop of max_place (isMax) or min_place at a square
      * get_piece found open: place, search the node below, undo. `placed` is
      * false where place_piece refused the square, so that undo_place raises. */
    method PlaceAndSearch(isMax: bool, depth: nat, pos: Pos, a: Utility, b: Utility) returns (placed: bool, v: Utility)
      requires board.Valid() && Consistent(board.Abs()) && enemy == Opponent(colour) && depth == 1
      modifies board
      ensures board.Valid()
      ensures SearchKept(old(board.Abs()), board.Abs(), if isMax then colour else enemy)
      ensures placed <==> Free(old(board.Abs()), pos)
      ensures placed ==> v == Evaluate(PlacePiece(old(board.Abs()), if isMax then colour else enemy, pos).0, colour, phase)
      decreases depth, 0
    {
      ghost var cur := board.Abs();
      var mover := if isMax then colour else enemy;
      PlaceOutcome(cur, mover, pos);
      var eliminated := board.PlacePiece(mover, pos);
      var r := SearchBelow(isMax, depth - 1, a, b);
      SearchKeptRefl(cur, mover);
      if eliminated == None {
        return false, NegInf;
      }
      PlaceStepKept(cur, cur, mover, pos);
      board.UndoPlace(mover, pos, eliminated.value);
      return true, r.value;
    }

    /** The shrink at the head of action and update: when `t` is a turn of
      * SHRINK. */
    method ShrinkIfDue(t: int)
      requires Valid() && (t in ShrinkTurns ==> board.numOfShrinks <= 1)
      modifies board
      ensures Valid() && board.Abs() == ShrinkAt(old(board.Abs()), t)
    {
      if t in ShrinkTurns {
        ShrinkEffect(board.Abs());
        board.Shrink();
      }
    }

    /** The placing branch of action: alpha_beta_place, then place_piece on
      * the square it picked; nothing is placed where the search raised. */
    method PlaceTurn() returns (r: Option<Pos>, ghost u: BoardState)
      requires Valid()
      modifies board
      ensures Valid()
      ensures r.Some? ==> r.value in FreeSquares(old(board.Abs()), StartingZone(old(board.Abs()).area, colour))
      ensures r.Some? ==> Restored(old(board.Abs()), u) && PlayedOn(u, colour, Placement(r.value), board.Abs())
      ensures r.None? ==> board.Abs() == u
    {
      ghost var st := board.Abs();
      ghost var order, vals;
      r, order, vals := AlphaBetaPlace();
      u := board.Abs();
      LayoutPlayable(st, u);
      if r.Some? {
        PickedIn(order, vals, r.value);
        PlacedPlayable(st, u, colour, r.value);
        var _ := board.PlacePiece(colour, r.value);
      }
    }

    /** The moving branch of action: alpha_beta_move, then make_move of the
      * piece get_piece finds at the square the picked move starts from. */
    method MoveTurn() returns (r: Option<(Pos, Pos)>, ghost u: BoardState)
      requires Valid()
      modifies board
      ensures Valid()
      ensures r.Some? ==> r.value in MovesOf(old(board.Abs()), colour)
      ensures r.Some? ==> Restored(old(board.Abs()), u) && PlayedOn(u, colour, Movement(r.value.0, r.value.1), board.Abs())
      ensures r.None? ==> board.Abs() == u
    {
      ghost var st := board.Abs();
      ghost var order, vals;
      r, order, vals := AlphaBetaMove();
      u := board.Abs();
      if r.Some? {
        var (k, m) := r.value;
        ChosenMoveReady(st, u, colour, phase, order, vals, k, m);
        MovedPlayable(st, u, colour, k, m);
        var found := board.GetPiece(k);
        var _ := board.MakeMove(found.value, m);
      }
    }

    /** The branch of action for the current phase: a placement chosen by
      * alpha_beta_place in the placing phase, a move chosen by
      * alpha_beta_move in the moving phase, played on the board the search
      * left. None where the search raised. */
    method Play() returns (r: Option<Play>, ghost u: BoardState)
      requires Valid()
      modifies board
      ensures Valid()
      ensures r.Some? ==> (r.value.Placement? <==> phase == Placing)
      ensures r.Some? ==> Restored(old(board.Abs()), u) && PlayedOn(u, colour, r.value, board.Abs())
    {
      if phase == Placing {
        var pos;
        pos, u := PlaceTurn();
        if pos.None? {
          return None, u;
        }
        r := Some(Placement(pos.value));
      } else {
        var mv;
        mv, u := MoveTurn();
        if mv.None? {
          return None, u;
        }
        r := Some(Movement(mv.value.0, mv.value.1));
      }
    }

    /** action(t): record the turn, shrink when it is a turn of SHRINK, play
      * the branch of the current phase, switch to the moving phase after
      * turn 22 or 23, and count the turn. None where the search raised,
      * which leaves the phase and the turn count as they were at that point. */
    method Action(t: int) returns (r: Option<Play>, ghost u: BoardState)
      requires Valid() && (t in ShrinkTurns ==> board.numOfShrinks <= 1)
      modifies this, board
      ensures Valid()
      ensures r.Some? ==> turns == t + 1 && phase == NextPhase(old(phase), t)
      ensures r.None? ==> turns == t && phase == old(phase)
      ensures r.Some? ==> (r.value.Placement? <==> old(phase) == Placing)
      ensures r.Some? ==> Restored(ShrinkAt(old(board.Abs()), t), u) && PlayedOn(u, colour, r.value, board.Abs())
    {
      turns := t;
      ShrinkIfDue(t);
      r, u := Play();
      if r.Some? {
        phase := NextPhase(phase, t);
        turns := t + 1;
      }
    }

    /** update(play): shrink when the turn count is a turn of SHRINK, then
      * place an enemy piece, or make the move of the live piece get_piece
      * finds at its starting square. `ok` is false where there is none, so
      * that the move raises. */
    method Update(play: Play) returns (ok: bool)
      requires Valid() && (turns in ShrinkTurns ==> board.numOfShrinks <= 1)
      modifies board
      ensures board.Valid()
      ensures var s0 := ShrinkAt(old(board.Abs()), turns);
        match play
        case Placement(pos) => ok && Valid() && board.Abs() == PlacePiece(s0, enemy, pos).0
        case Movement(from, to) =>
          && (ok <==> GetPiece(s0, from).Some?)
          && (ok ==> board.Abs() == MakeMove(s0, GetPiece(s0, from).value, to).0)
          && (!ok ==> Valid() && board.Abs() == s0)
          && (ok && Free(s0, to) ==> Valid())
    {
      ShrinkIfDue(turns);
      ghost var s0 := board.Abs();
      match play
      case Placement(pos) =>
        PlaceConsistent(s0, enemy, pos);
        PlaceKeepsLayout(s0, enemy, pos);
        var _ := board.PlacePiece(enemy, pos);
        LayoutPlayable(s0, board.Abs());
        ok := true;
      case Movement(from, to) =>
        var found := board.GetPiece(from);
        if found.None? {
          return false;
        }
        var h := found.value;
        GetPieceStanding(s0, from);
        if Free(s0, to) {
          MoveConsistent(s0, h, to);
          MoveKeepsLayout(s0, h, to);
        }
        var _ := board.MakeMove(h, to);
        if Free(s0, to) {
          LayoutPlayable(s0, board.Abs());
        }
        ok := true;
    }
  }
}
