/**
 * What the alpha-beta routines of minimax_module.py rely on from the engine:
 * how a search node's board relates to the board it started from after
 * each apply/undo pair, which squares get_piece leaves open, that the
 * searches see the same queries on a restored board, and the squares and
 * moves a node tries.
 */
module SearchProps {
  import opened Rules
  import opened BoardModel
  import opened BoardProps
  import opened QueryProps
  import opened ShrinkProps

  // ------------------------------------------------------------- corners

  /** The only corner markers are the four original corners, as before the first shrink. */
  ghost predicate OnlyOriginalCorners(st: BoardState)
  {
    forall p :: p in st.grid && st.grid[p] == Corner ==> p in OriginalCorners
  }

  /** `r` shows no corner marker that `st` did not. */
  ghost predicate NoNewCorners(st: BoardState, r: BoardState)
  {
    forall p :: p in r.grid && r.grid[p] == Corner ==> p in st.grid && st.grid[p] == Corner
  }

  /** `r` keeps the play area, level and size of `st` and shows no new corner. */
  ghost predicate SameLayout(st: BoardState, r: BoardState)
  {
    && NoNewCorners(st, r)
    && r.area == st.area && r.shrinks == st.shrinks && r.playingSize == st.playingSize
  }

  lemma KillsKeepLayout(st: BoardState, r: BoardState, ks: seq<Handle>)
    requires KilledFrom(st, r, ks)
    ensures SameLayout(st, r)
  {
  }

  /** A restored board keeps the layout. */
  lemma RestoredLayout(st: BoardState, u: BoardState)
    requires Restored(st, u)
    ensures SameLayout(st, u)
  {
  }

  lemma SameLayoutTrans(a: BoardState, b: BoardState, c: BoardState)
    requires SameLayout(a, b) && SameLayout(b, c)
    ensures SameLayout(a, c)
  {
  }

  /** A corner marker off the original corners on a board of the same layout
    * was already on the board it came from. */
  lemma CornersKept(st: BoardState, r: BoardState)
    requires SameLayout(st, r) && !OnlyOriginalCorners(r)
    ensures !OnlyOriginalCorners(st)
  {
    var p :| p in r.grid && r.grid[p] == Corner && p !in OriginalCorners;
    assert p in st.grid && st.grid[p] == Corner;
  }

  /** place_piece marks no corner and leaves the play area as it was. */
  lemma PlaceKeepsLayout(st: BoardState, c: Side, pos: Pos)
    requires Consistent(st)
    ensures SameLayout(st, PlacePiece(st, c, pos).0)
  {
    if Free(st, pos) {
      AddPieceConsistent(st, c, pos);
      AddPieceShape(st, c, pos);
      var s1 := AddPiece(st, c, pos);
      EliminateKills(s1, |st.pieces|);
      var e := EliminateSurrounding(s1, |st.pieces|);
      KillsKeepLayout(s1, e.0, e.1);
    }
  }

  /** make_move onto an empty square in play marks no corner and leaves the
    * play area as it was. */
  lemma MoveKeepsLayout(st: BoardState, h: Handle, newpos: Pos)
    requires Consistent(st) && Standing(st, h) && Free(st, newpos)
    ensures SameLayout(st, MakeMove(st, h, newpos).0)
  {
    RelocateConsistent(st, h, newpos);
    RelocateShape(st, h, newpos);
    var s1 := Relocate(st, h, newpos);
    EliminateKills(s1, h);
    var e := EliminateSurrounding(s1, h);
    KillsKeepLayout(s1, e.0, e.1);
  }

  // ------------------------------------------------------------- queries

  /** get_piece on a square keyed by a live piece of `c` finds that piece. */
  lemma GetPieceOfLive(st: BoardState, c: Side, k: Pos)
    requires Consistent(st) && k in LiveKeys(st, c)
    ensures GetPiece(st, k) == Some(st.Team(c)[k])
  {
    StandingOfLive(st, c, k);
    if k in LiveKeys(st, Opponent(c)) {
      StandingOfLive(st, Opponent(c), k);
      assert false;
    }
  }

  /** A square in play where get_piece finds nothing is free unless it is a corner. */
  lemma OpenSquare(st: BoardState, p: Pos)
    requires Consistent(st) && p in st.area && GetPiece(st, p).None?
    ensures Free(st, p) <==> st.grid[p] != Corner
  {
    WfTeam(st, White);
    WfTeam(st, Black);
    assert st.grid[p].Stone? ==> p in LiveKeys(st, st.grid[p].side);
  }

  /** get_piece reads the same on a restored board. */
  lemma GetPieceRestored(st: BoardState, u: BoardState, p: Pos)
    requires Wf(st) && Restored(st, u)
    ensures Wf(u) && GetPiece(u, p) == GetPiece(st, p)
  {
    RestoredQueries(st, u);
    RestoredTeam(st, u, White);
    RestoredTeam(st, u, Black);
    assert u.black == u.Team(Black) && st.black == st.Team(Black);
    assert u.white == u.Team(White) && st.white == st.Team(White);
  }

  lemma {:induction false} ScanDirsSame(st: BoardState, u: BoardState, pos: Pos, exclude: bool, n: nat)
    requires Wf(st) && Wf(u) && n <= 4
    requires u.grid == st.grid && u.area == st.area && u.shrinks == st.shrinks
    ensures ScanDirs(u, pos, exclude, n) == ScanDirs(st, pos, exclude, n)
  {
    if n > 0 {
      ScanDirsSame(st, u, pos, exclude, n - 1);
    }
  }

  /** listmoves reads only the grid, the play area and the level, so it offers
    * the same squares on a restored board. */
  lemma ListMovesRestored(st: BoardState, u: BoardState, pos: Pos, exclude: bool)
    requires Wf(st) && Restored(st, u)
    ensures Wf(u) && ListMoves(u, pos, exclude) == ListMoves(st, pos, exclude)
  {
    RestoredQueries(st, u);
    ScanDirsSame(st, u, pos, exclude, 4);
  }

  // ------------------------------------------------------ squares tried

  /** The squares of `zone`, in order, where get_piece finds no piece: the
    * squares the placing search tries. */
  function FreeSquares(st: BoardState, zone: seq<Pos>): (r: seq<Pos>)
    requires Wf(st)
    ensures forall p :: p in r <==> p in zone && GetPiece(st, p).None?
    decreases |zone|
  {
    if zone == [] then []
    else
      var last := zone[|zone| - 1];
      FreeSquares(st, zone[..|zone| - 1]) + (if GetPiece(st, last).None? then [last] else [])
  }

  /** The squares found in a prefix of the zone come first, in the same order. */
  lemma {:induction false} FreeSquaresPrefix(st: BoardState, zone: seq<Pos>, i: nat)
    requires Wf(st) && i <= |zone|
    ensures FreeSquares(st, zone[..i]) <= FreeSquares(st, zone)
    decreases |zone|
  {
    if i < |zone| {
      var init := zone[..|zone| - 1];
      assert init[..i] == zone[..i];
      FreeSquaresPrefix(st, init, i);
    } else {
      assert zone[..i] == zone;
    }
  }

  lemma FreeSquaresStep(st: BoardState, zone: seq<Pos>, i: nat)
    requires Wf(st) && i < |zone|
    ensures FreeSquares(st, zone[..i + 1]) ==
      FreeSquares(st, zone[..i]) + (if GetPiece(st, zone[i]).None? then [zone[i]] else [])
  {
    assert zone[..i + 1][..i] == zone[..i];
  }

  /** An open square at zone[i] is the next square found after zone[..i]. */
  lemma FreeSquaresNext(st: BoardState, zone: seq<Pos>, i: nat)
    requires Wf(st) && i < |zone| && GetPiece(st, zone[i]).None?
    ensures var tried := FreeSquares(st, zone[..i]);
      |tried| < |FreeSquares(st, zone)| && FreeSquares(st, zone)[|tried|] == zone[i]
      && tried <= FreeSquares(st, zone)
  {
    FreeSquaresStep(st, zone, i);
    FreeSquaresPrefix(st, zone, i + 1);
    FreeSquaresPrefix(st, zone, i);
    var tried := FreeSquares(st, zone[..i]);
    assert (tried + [zone[i]])[|tried|] == zone[i];
  }

  /** The moves the moving search tries for side `c`: every listmoves square
    * of every live piece of `c`. */
  ghost function MovesOf(st: BoardState, c: Side): set<(Pos, Pos)>
    requires Wf(st)
  {
    set k, m | k in LiveKeys(st, c) && m in ListMoves(st, k, false) :: (k, m)
  }

  lemma MovesOfMember(st: BoardState, c: Side, k: Pos, m: Pos)
    requires Wf(st)
    ensures (k, m) in MovesOf(st, c) <==> k in LiveKeys(st, c) && m in ListMoves(st, k, false)
  {
    if (k, m) in MovesOf(st, c) {
      var k', m' :| k' in LiveKeys(st, c) && m' in ListMoves(st, k', false) && (k, m) == (k', m');
    }
  }

  /** Every square listmoves offers is free. */
  lemma MoveTargetFree(st: BoardState, k: Pos, m: Pos)
    requires Wf(st) && m in ListMoves(st, k, false)
    ensures Free(st, m)
  {
    ListMovesSound(st, k, false);
  }

  // ------------------------------------------------------------ restoring

  /** What a search node leaves of the board `st` it was given: a restored,
    * consistent board whose other side's dictionary is untouched. */
  ghost predicate SearchKept(st: BoardState, u: BoardState, mover: Side)
  {
    && Consistent(st) && Restored(st, u) && Consistent(u)
    && u.Team(Opponent(mover)) == st.Team(Opponent(mover))
  }

  lemma SearchKeptRefl(st: BoardState, mover: Side)
    requires Consistent(st)
    ensures SearchKept(st, st, mover)
  {
    RestoredRefl(st);
  }

  lemma SearchKeptTrans(a: BoardState, b: BoardState, c: BoardState, mover: Side)
    requires SearchKept(a, b, mover) && SearchKept(b, c, mover)
    ensures SearchKept(a, c, mover)
  {
    RestoredTrans(a, b, c);
  }

  /** A place_piece and its undo_place on a kept board keep it. */
  lemma PlaceStepKept(st: BoardState, cur: BoardState, mover: Side, pos: Pos)
    requires SearchKept(st, cur, mover) && Free(cur, pos)
    ensures var r := PlacePiece(cur, mover, pos);
      && r.1.Some? && Handles(r.0, r.1.value) && Consistent(r.0)
      && SearchKept(st, UndoPlace(r.0, mover, pos, r.1.value), mover)
  {
    PlaceConsistent(cur, mover, pos);
    PlaceRestores(cur, mover, pos);
    PlaceUndoPlace(cur, mover, pos);
    var r := PlacePiece(cur, mover, pos);
    var u := UndoPlace(r.0, mover, pos, r.1.value);
    RestoredTrans(st, cur, u);
    RestoredConsistent(st, u);
  }

  /** place_piece gives no eliminated list exactly where the square is not
    * free, and then leaves the board as it was; either way the board stays
    * consistent. */
  lemma PlaceOutcome(st: BoardState, mover: Side, pos: Pos)
    requires Consistent(st)
    ensures var r := PlacePiece(st, mover, pos);
      && Consistent(r.0) && (r.1.Some? <==> Free(st, pos)) && (r.1.None? ==> r.0 == st)
  {
    PlaceConsistent(st, mover, pos);
  }

  /** A make_move and its undo_move on a kept board keep it. */
  lemma MoveStepKept(st: BoardState, cur: BoardState, mover: Side, k: Pos, m: Pos)
    requires SearchKept(st, cur, mover) && k in LiveKeys(cur, mover) && Free(cur, m)
    ensures var h := cur.Team(mover)[k];
      && Standing(cur, h) && cur.pieces[h].pos == k && cur.pieces[h].player == mover
      && var mm := MakeMove(cur, h, m);
      && Handles(mm.0, mm.1) && h < |mm.0.pieces| && Consistent(mm.0)
      && SearchKept(st, UndoMove(mm.0, h, k, mm.1), mover)
  {
    var h := cur.Team(mover)[k];
    StandingOfLive(cur, mover, k);
    WfTeam(cur, mover);
    MoveConsistent(cur, h, m);
    MoveUndoMove(cur, h, m);
    var mm := MakeMove(cur, h, m);
    var u := UndoMove(mm.0, h, k, mm.1);
    RestoredTrans(st, cur, u);
    RestoredConsistent(st, u);
  }

  /** Resurrection reads only the grid and the pieces it revives, so on a
    * board whose arena extends another's and whose grid is the same it
    * gives the same grid and the same arena prefix. */
  lemma {:induction false} ResurrectAllPrefix(x: BoardState, y: BoardState, hs: seq<Handle>)
    requires Handles(x, hs) && y.grid == x.grid
    requires |x.pieces| <= |y.pieces| && y.pieces[..|x.pieces|] == x.pieces
    ensures Handles(y, hs)
    ensures ResurrectAll(y, hs).grid == ResurrectAll(x, hs).grid
    ensures ResurrectAll(y, hs).pieces[..|x.pieces|] == ResurrectAll(x, hs).pieces
    decreases |hs|
  {
    if hs != [] {
      var init := hs[..|hs| - 1];
      var h := hs[|hs| - 1];
      ResurrectAllPrefix(x, y, init);
      var x1 := ResurrectAll(x, init);
      var y1 := ResurrectAll(y, init);
      assert y1.pieces[h] == y1.pieces[..|x.pieces|][h];
      assert Resurrect(y1, h).pieces[..|x.pieces|] == Resurrect(x1, h).pieces;
    }
  }

  /** undo_place at the root of alpha_beta_place, after max_place has
    * searched the board place_piece made: the search left that board
    * restored, consistent and with the placer's enemy's dictionary untouched,
    * and undoing the placement on it gives back a restored board. Only the
    * placed piece of the placer's side can have died, so every entry the
    * search dropped from the placer's dictionary was already dead. */
  lemma UndoAfterSearch(st: BoardState, c: Side, pos: Pos, q: BoardState)
    requires Consistent(st) && Free(st, pos)
    requires var r := PlacePiece(st, c, pos);
      r.1.Some? && SearchKept(r.0, q, c)
    ensures var r := PlacePiece(st, c, pos);
      Handles(q, r.1.value) && SearchKept(st, UndoPlace(q, c, pos, r.1.value), c)
  {
    PlacedShapeOf(st, c, pos);
    var r := PlacePiece(st, c, pos);
    var p := r.0;
    var ks := r.1.value;
    RestoredWf(p, q);
    RestoredSub(p, q, c);
    UndoAfterSearchGrid(st, c, pos, p, ks, q);
    WfTeam(st, c);
    assert pos in st.Team(c) ==> !st.pieces[st.Team(c)[pos]].alive by {
      assert TeamAgrees(st, st.Team(c), c) by {
        if c == White { } else { }
      }
    }
    UndoAfterSearchTeam(st, c, pos, p, q);
    var u := UndoPlace(q, c, pos, ks);
    UndoPlaceShape(q, c, pos, ks);
    UndoneRestored(st, c, pos, u);
    RestoredConsistent(st, u);
  }

  /** What place_piece on a free square leaves, as undo after a search needs it. */
  ghost predicate PlacedShape(st: BoardState, c: Side, pos: Pos, p: BoardState, ks: seq<Handle>)
  {
    && Handles(p, ks) && |st.pieces| < |p.pieces|
    && ResurrectAll(p, ks).grid == st.grid[pos := Stone(c)]
    && ResurrectAll(p, ks).pieces[..|st.pieces|] == st.pieces
    && p.area == st.area && p.shrinks == st.shrinks && p.playingSize == st.playingSize
    && p.Team(c) == st.Team(c)[pos := |st.pieces|]
    && p.Team(Opponent(c)) == st.Team(Opponent(c))
    && (forall h :: 0 <= h < |st.pieces| && st.pieces[h].player == c && st.pieces[h].alive ==> p.pieces[h].alive)
  }

  lemma PlacedShapeOf(st: BoardState, c: Side, pos: Pos)
    requires Consistent(st) && Free(st, pos)
    ensures var r := PlacePiece(st, c, pos);
      r.1.Some? && PlacedShape(st, c, pos, r.0, r.1.value)
  {
    AddPieceConsistent(st, c, pos);
    var s1 := AddPiece(st, c, pos);
    EliminateKills(s1, |st.pieces|);
    var e := EliminateSurrounding(s1, |st.pieces|);
    FrameKeepsWf(s1, e.0);
    assert PlacePiece(st, c, pos) == (e.0, Some(e.1));
    ResurrectRestores(s1, e.0, e.1);
    AddPieceShape(st, c, pos);
    assert s1.Team(c) == st.Team(c)[pos := |st.pieces|];
    forall h | 0 <= h < |st.pieces| && st.pieces[h].player == c && st.pieces[h].alive
      ensures e.0.pieces[h].alive
    {
      assert s1.pieces[h] == st.pieces[h];
    }
  }

  /** The first half of place_piece: the new marker and the arena grown by one. */
  lemma AddPieceShape(st: BoardState, c: Side, pos: Pos)
    requires Wf(st)
    ensures var s1 := AddPiece(st, c, pos);
      && s1.grid == st.grid[pos := Stone(c)]
      && |st.pieces| < |s1.pieces| && s1.pieces[..|st.pieces|] == st.pieces
      && s1.area == st.area && s1.shrinks == st.shrinks && s1.playingSize == st.playingSize
  {
  }

  lemma RestoredWf(st: BoardState, u: BoardState)
    requires Wf(st) && Restored(st, u)
    ensures Wf(u)
  {
    RestoredTeam(st, u, White);
    RestoredTeam(st, u, Black);
  }

  lemma RestoredSub(st: BoardState, u: BoardState, c: Side)
    requires Restored(st, u)
    ensures SubTeam(st.Team(c), u.Team(c), st.pieces)
  {
  }

  lemma UndoAfterSearchGrid(st: BoardState, c: Side, pos: Pos, p: BoardState, ks: seq<Handle>, q: BoardState)
    requires Free'(st, pos) && PlacedShape(st, c, pos, p, ks)
    requires Wf(q) && Restored(p, q)
    ensures Handles(q, ks)
    ensures var u := UndoPlace(q, c, pos, ks);
      && u.grid == st.grid && u.area == st.area
      && u.shrinks == st.shrinks && u.playingSize == st.playingSize
      && |st.pieces| <= |u.pieces| && u.pieces[..|st.pieces|] == st.pieces
  {
    ResurrectAllPrefix(p, q, ks);
    var r := ResurrectAll(q, ks);
    UndoPlaceShape(q, c, pos, ks);
    assert r.grid[pos := Empty] == st.grid;
    assert r.pieces[..|st.pieces|] == r.pieces[..|p.pieces|][..|st.pieces|];
  }

  /** Free without its well-formedness precondition. */
  ghost predicate Free'(st: BoardState, p: Pos)
  {
    p in st.area && p in st.grid && st.grid[p] == Empty
  }

  lemma UndoAfterSearchTeam(st: BoardState, c: Side, pos: Pos, p: BoardState, q: BoardState)
    requires TeamOk(st.pieces, st.Team(c), c) && |st.pieces| <= |p.pieces|
    requires pos in st.Team(c) ==> !st.pieces[st.Team(c)[pos]].alive
    requires p.Team(c) == st.Team(c)[pos := |st.pieces|]
    requires forall h :: 0 <= h < |st.pieces| && st.pieces[h].player == c && st.pieces[h].alive ==> p.pieces[h].alive
    requires SubTeam(p.Team(c), q.Team(c), p.pieces)
    ensures SubTeam(st.Team(c), q.Team(c) - {pos}, st.pieces)
  {
    forall k | k in st.Team(c) && k !in q.Team(c) - {pos}
      ensures !st.pieces[st.Team(c)[k]].alive
    {
      if k != pos {
        assert k in p.Team(c) && k !in q.Team(c);
      }
    }
  }

  /** undo_place as resurrection, then a blank square and a dropped key. */
  lemma UndoPlaceShape(q: BoardState, c: Side, pos: Pos, ks: seq<Handle>)
    requires Wf(q) && Handles(q, ks)
    ensures var r := ResurrectAll(q, ks);
      var u := UndoPlace(q, c, pos, ks);
      && u.grid == RemovePiece(r, pos).grid && u.pieces == r.pieces && u.area == q.area
      && u.shrinks == q.shrinks && u.playingSize == q.playingSize
      && u.Team(c) == q.Team(c) - {pos} && u.Team(Opponent(c)) == q.Team(Opponent(c))
  {
  }

  /** The board undo_place gives after the search is restored from `st`. */
  lemma UndoneRestored(st: BoardState, c: Side, pos: Pos, u: BoardState)
    requires u.grid == st.grid && u.area == st.area
    requires u.shrinks == st.shrinks && u.playingSize == st.playingSize
    requires |st.pieces| <= |u.pieces| && u.pieces[..|st.pieces|] == st.pieces
    requires SubTeam(st.Team(c), u.Team(c), st.pieces)
    requires u.Team(Opponent(c)) == st.Team(Opponent(c))
    ensures Restored(st, u)
  {
    if c == White { } else { }
  }
}
