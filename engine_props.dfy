/**
 * Properties of the engine functions of BoardModel: what a capture does and
 * how it is undone, the round trips of place_piece/undo_place and
 * make_move/undo_move, the invariant Consistent they keep, and the
 * queries' contracts.
 */
module BoardProps {
  import opened Rules
  import opened BoardModel

  // ------------------------------------------------- captures and their undo

  /** The squares of the pieces `ks`. */
  ghost function Spots(st: BoardState, ks: seq<Handle>): set<Pos>
    requires Handles(st, ks)
  {
    set i | 0 <= i < |ks| :: st.pieces[ks[i]].pos
  }

  /** `r` is `st` after eliminating exactly the pieces `ks`, each of which was
    * alive and showing its marker on its own square (no two on one square). */
  ghost predicate KilledFrom(st: BoardState, r: BoardState, ks: seq<Handle>)
  {
    && Frame(st, r) && Handles(st, ks)
    && (forall i :: 0 <= i < |ks| ==>
          st.pieces[ks[i]].alive && st.pieces[ks[i]].pos in st.grid
          && st.grid[st.pieces[ks[i]].pos] == Stone(st.pieces[ks[i]].player))
    && (forall i, j :: 0 <= i < j < |ks| ==> st.pieces[ks[i]].pos != st.pieces[ks[j]].pos)
    && (forall h :: 0 <= h < |st.pieces| ==> r.pieces[h].alive == (st.pieces[h].alive && h !in ks))
    && r.grid.Keys == st.grid.Keys
    && (forall p :: p in st.grid ==> r.grid[p] == if p in Spots(st, ks) then Empty else st.grid[p])
  }

  /** Every piece of `ks` is the entry of its own square in its side's dictionary. */
  ghost predicate KeyedAll(st: BoardState, ks: seq<Handle>)
    requires Handles(st, ks)
  {
    forall i :: 0 <= i < |ks| ==>
      var e := st.pieces[ks[i]];
      e.pos in st.Team(e.player) && st.Team(e.player)[e.pos] == ks[i]
  }

  lemma KilledFromNothing(st: BoardState)
    ensures KilledFrom(st, st, [])
  {
    assert Spots(st, []) == {};
  }

  lemma KillExtends(st: BoardState, r: BoardState, ks: seq<Handle>, e: Handle)
    requires KilledFrom(st, r, ks)
    requires e < |r.pieces| && r.pieces[e].alive
    requires r.pieces[e].pos in r.grid && r.grid[r.pieces[e].pos] == Stone(r.pieces[e].player)
    ensures KilledFrom(st, Kill(r, e), ks + [e])
  {
    var ks' := ks + [e];
    var p := st.pieces[e].pos;
    assert p !in Spots(st, ks);
    assert ks'[..|ks'| - 1] == ks;
    SpotsSnoc(st, ks');
    KillExtendsStanding(st, r, ks, e);
  }

  lemma KillExtendsStanding(st: BoardState, r: BoardState, ks: seq<Handle>, e: Handle)
    requires KilledFrom(st, r, ks)
    requires e < |r.pieces| && r.pieces[e].alive
    requires r.pieces[e].pos in r.grid && r.grid[r.pieces[e].pos] == Stone(r.pieces[e].player)
    ensures forall i :: 0 <= i < |ks + [e]| ==>
      st.pieces[(ks + [e])[i]].alive && st.pieces[(ks + [e])[i]].pos in st.grid
      && st.grid[st.pieces[(ks + [e])[i]].pos] == Stone(st.pieces[(ks + [e])[i]].player)
  {
    var ks' := ks + [e];
    forall i | 0 <= i < |ks'|
      ensures st.pieces[ks'[i]].alive && st.pieces[ks'[i]].pos in st.grid
              && st.grid[st.pieces[ks'[i]].pos] == Stone(st.pieces[ks'[i]].player)
    {
      if i < |ks| { assert ks'[i] == ks[i]; }
    }
  }

  /** Resurrecting a piece just killed gives back the board before the kill. */
  lemma KillThenResurrect(st: BoardState, e: Handle)
    requires e < |st.pieces| && st.pieces[e].alive
    requires st.pieces[e].pos in st.grid && st.grid[st.pieces[e].pos] == Stone(st.pieces[e].player)
    ensures Resurrect(Kill(st, e), e) == st
  {
    var q := Resurrect(Kill(st, e), e);
    assert q.grid == st.grid;
    assert q.pieces == st.pieces;
  }

  lemma SpotsSnoc(st: BoardState, ks: seq<Handle>)
    requires Handles(st, ks) && ks != []
    ensures Handles(st, ks[..|ks| - 1])
    ensures Spots(st, ks) == Spots(st, ks[..|ks| - 1]) + {st.pieces[ks[|ks| - 1]].pos}
  {
    var init := ks[..|ks| - 1];
    forall x | x in Spots(st, ks) ensures x in Spots(st, init) + {st.pieces[ks[|ks| - 1]].pos} {
      var i :| 0 <= i < |ks| && st.pieces[ks[i]].pos == x;
      if i < |init| { assert ks[i] == init[i]; }
    }
    forall x | x in Spots(st, init) ensures x in Spots(st, ks) {
      var i :| 0 <= i < |init| && st.pieces[init[i]].pos == x;
      assert ks[i] == init[i];
    }
  }

  /** Before the last kill of a sequence, the board was `st` with only that piece killed. */
  lemma PeelKill(st: BoardState, r: BoardState, ks: seq<Handle>)
    requires KilledFrom(st, r, ks) && ks != []
    ensures KilledFrom(Kill(st, ks[|ks| - 1]), r, ks[..|ks| - 1])
  {
    var init := ks[..|ks| - 1];
    var mid := Kill(st, ks[|ks| - 1]);
    SpotsSnoc(st, ks);
    PeelSpots(st, r, ks);
    PeelStanding(st, r, ks);
    PeelApart(st, r, ks);
    forall h | 0 <= h < |mid.pieces|
      ensures r.pieces[h].alive == (mid.pieces[h].alive && h !in init)
    {
      assert h in ks <==> h in init || h == ks[|ks| - 1];
    }
  }

  lemma PeelSpots(st: BoardState, r: BoardState, ks: seq<Handle>)
    requires KilledFrom(st, r, ks) && ks != []
    ensures Handles(Kill(st, ks[|ks| - 1]), ks[..|ks| - 1])
    ensures Spots(Kill(st, ks[|ks| - 1]), ks[..|ks| - 1]) == Spots(st, ks[..|ks| - 1])
  {
  }

  lemma PeelStanding(st: BoardState, r: BoardState, ks: seq<Handle>)
    requires KilledFrom(st, r, ks) && ks != []
    ensures var init := ks[..|ks| - 1];
      var mid := Kill(st, ks[|ks| - 1]);
      forall i :: 0 <= i < |init| ==>
        mid.pieces[init[i]].alive && mid.pieces[init[i]].pos in mid.grid
        && mid.grid[mid.pieces[init[i]].pos] == Stone(mid.pieces[init[i]].player)
  {
    var init := ks[..|ks| - 1];
    var last := ks[|ks| - 1];
    var mid := Kill(st, last);
    forall i | 0 <= i < |init|
      ensures mid.pieces[init[i]].alive && mid.pieces[init[i]].pos in mid.grid
              && mid.grid[mid.pieces[init[i]].pos] == Stone(mid.pieces[init[i]].player)
    {
      assert init[i] == ks[i];
      assert st.pieces[ks[i]].pos != st.pieces[last].pos;
    }
  }

  lemma PeelApart(st: BoardState, r: BoardState, ks: seq<Handle>)
    requires KilledFrom(st, r, ks) && ks != []
    ensures var init := ks[..|ks| - 1];
      var mid := Kill(st, ks[|ks| - 1]);
      forall i, j :: 0 <= i < j < |init| ==> mid.pieces[init[i]].pos != mid.pieces[init[j]].pos
  {
    var init := ks[..|ks| - 1];
    var mid := Kill(st, ks[|ks| - 1]);
    forall i, j | 0 <= i < j < |init|
      ensures mid.pieces[init[i]].pos != mid.pieces[init[j]].pos
    {
      assert init[i] == ks[i] && init[j] == ks[j];
    }
  }

  /** Resurrecting what an elimination killed, in the order it was killed,
    * gives back the board before it. */
  lemma {:induction false} ResurrectRestores(st: BoardState, r: BoardState, ks: seq<Handle>)
    requires KilledFrom(st, r, ks)
    ensures Handles(r, ks) && ResurrectAll(r, ks) == st
    decreases |ks|
  {
    assert Handles(r, ks);
    if ks == [] {
      assert r.grid == st.grid;
      assert r.pieces == st.pieces;
    } else {
      var last := ks[|ks| - 1];
      PeelKill(st, r, ks);
      ResurrectRestores(Kill(st, last), r, ks[..|ks| - 1]);
      KillThenResurrect(st, last);
    }
  }

  /** Piece `e` is of the other side and stands next to piece `h`. */
  ghost predicate EnemyNeighbour(st: BoardState, h: Handle, e: Handle)
    requires h < |st.pieces|
  {
    e < |st.pieces| && st.pieces[e].player == Opponent(st.pieces[h].player)
    && Adjacent(st.pieces[h].pos, st.pieces[e].pos)
  }

  /** Piece `h` is alive, keyed at its square and showing its marker there. */
  ghost predicate Standing(st: BoardState, h: Handle)
  {
    && h < |st.pieces| && st.pieces[h].alive
    && st.pieces[h].pos in st.Team(st.pieces[h].player)
    && st.Team(st.pieces[h].player)[st.pieces[h].pos] == h
    && st.pieces[h].pos in st.grid && st.grid[st.pieces[h].pos] == Stone(st.pieces[h].player)
  }

  lemma KeyedAllSnoc(st: BoardState, ks: seq<Handle>, e: Handle)
    requires Handles(st, ks) && KeyedAll(st, ks) && e < |st.pieces|
    requires st.pieces[e].pos in st.Team(st.pieces[e].player)
    requires st.Team(st.pieces[e].player)[st.pieces[e].pos] == e
    ensures Handles(st, ks + [e]) && KeyedAll(st, ks + [e])
  {
    var ks' := ks + [e];
    forall i | 0 <= i < |ks'|
      ensures st.pieces[ks'[i]].pos in st.Team(st.pieces[ks'[i]].player)
              && st.Team(st.pieces[ks'[i]].player)[st.pieces[ks'[i]].pos] == ks'[i]
    {
      if i < |ks| { assert ks'[i] == ks[i]; }
    }
  }

  ghost predicate AllEnemies(st: BoardState, h: Handle, ks: seq<Handle>)
    requires h < |st.pieces|
  {
    forall i :: 0 <= i < |ks| ==> EnemyNeighbour(st, h, ks[i])
  }

  lemma AllEnemiesSnoc(st: BoardState, h: Handle, ks: seq<Handle>, e: Handle)
    requires h < |st.pieces| && AllEnemies(st, h, ks) && EnemyNeighbour(st, h, e)
    ensures AllEnemies(st, h, ks + [e])
  {
    var ks' := ks + [e];
    forall i | 0 <= i < |ks'| ensures EnemyNeighbour(st, h, ks'[i]) {
      if i < |ks| { assert ks'[i] == ks[i]; }
    }
  }

  /** One pass of the loop: a neighbour it checks stands on the board, so
    * killing it extends the elimination. */
  lemma ElimStepKills(st: BoardState, q: BoardState, h: Handle, d: Pos, acc: seq<Handle>)
    requires Consistent(st) && h < |st.pieces| && Wf(q)
    requires d == Up || d == Down || d == Left || d == Right
    requires KilledFrom(st, q, acc) && KeyedAll(st, acc) && AllEnemies(st, h, acc)
    ensures var r := ElimStep(q, h, d, acc);
      KilledFrom(st, r.0, r.1) && KeyedAll(st, r.1) && AllEnemies(st, h, r.1)
  {
    var me := q.pieces[h];
    var foe := Opponent(me.player);
    var adj := Step(me.pos, d);
    if adj in q.area && q.grid[adj] == Stone(foe) && adj in q.Team(foe) {
      var e := q.Team(foe)[adj];
      if CheckEliminated(q, e).1 {
        ElimKill(st, q, h, d, acc, e);
      } else {
        assert ElimStep(q, h, d, acc) == (q, acc);
      }
    } else {
      assert ElimStep(q, h, d, acc) == (q, acc);
    }
  }

  /** The kill case of one pass: enemy `e`, keyed next to `h`, is captured. */
  lemma ElimKill(st: BoardState, q: BoardState, h: Handle, d: Pos, acc: seq<Handle>, e: Handle)
    requires Consistent(st) && h < |st.pieces| && Wf(q)
    requires d == Up || d == Down || d == Left || d == Right
    requires KilledFrom(st, q, acc) && KeyedAll(st, acc) && AllEnemies(st, h, acc)
    requires var adj := Step(q.pieces[h].pos, d); var foe := Opponent(q.pieces[h].player);
      adj in q.area && q.grid[adj] == Stone(foe) && adj in q.Team(foe) && e == q.Team(foe)[adj]
    requires CheckEliminated(q, e).1
    ensures ElimStep(q, h, d, acc) == (Kill(q, e), acc + [e])
    ensures KilledFrom(st, Kill(q, e), acc + [e]) && KeyedAll(st, acc + [e]) && AllEnemies(st, h, acc + [e])
  {
    var foe := Opponent(q.pieces[h].player);
    var adj := Step(q.pieces[h].pos, d);
    assert adj !in Spots(st, acc);
    WfTeam(st, foe);
    assert st.pieces[e].pos == adj;
    KillExtends(st, q, acc, e);
    KeyedAllSnoc(st, acc, e);
    assert EnemyNeighbour(st, h, e);
    AllEnemiesSnoc(st, h, acc, e);
  }

  /** The first `n` passes of eliminate_surrounding's loop kill only enemy
    * neighbours of `h` that were standing on the board. */
  lemma {:induction false} ElimNeighboursKills(st: BoardState, h: Handle, n: nat)
    requires Consistent(st) && h < |st.pieces| && n <= 4
    ensures var r := ElimNeighbours(st, h, n);
      KilledFrom(st, r.0, r.1) && KeyedAll(st, r.1) && AllEnemies(st, h, r.1)
  {
    if n == 0 {
      KilledFromNothing(st);
    } else {
      ElimNeighboursKills(st, h, n - 1);
      var p := ElimNeighbours(st, h, n - 1);
      FrameKeepsWf(st, p.0);
      ElimStepKills(st, p.0, h, Directions[n - 1], p.1);
    }
  }

  /** eliminate_surrounding after `h` has just been placed or moved: it kills
    * exactly the pieces it reports, enemy neighbours first, and `h` itself
    * only as the last one, and only when the board after the neighbours'
    * removal captures it. */
  lemma EliminateKills(st: BoardState, h: Handle)
    requires Consistent(st) && Standing(st, h)
    ensures var r := EliminateSurrounding(st, h);
      && KilledFrom(st, r.0, r.1)
      && KeyedAll(st, r.1)
      && (forall i :: 0 <= i < |r.1| ==> r.1[i] == h || EnemyNeighbour(st, h, r.1[i]))
      && (forall i :: 0 <= i < |r.1| && r.1[i] == h ==> i == |r.1| - 1)
  {
    ElimNeighboursKills(st, h, 4);
    var p := ElimNeighbours(st, h, 4);
    FrameKeepsWf(st, p.0);
    SelfCheckLast(st, h, p.0, p.1);
  }

  /** The final check of eliminate_surrounding, on the board the neighbours'
    * pass left: `h` itself is killed last, if at all. */
  lemma SelfCheckLast(st: BoardState, h: Handle, q: BoardState, acc: seq<Handle>)
    requires Consistent(st) && Standing(st, h) && Wf(q)
    requires KilledFrom(st, q, acc) && KeyedAll(st, acc) && AllEnemies(st, h, acc)
    ensures var c := CheckEliminated(q, h);
      var ks := if c.1 then acc + [h] else acc;
      && KilledFrom(st, c.0, ks)
      && KeyedAll(st, ks)
      && (forall i :: 0 <= i < |ks| ==> ks[i] == h || EnemyNeighbour(st, h, ks[i]))
      && (forall i :: 0 <= i < |ks| && ks[i] == h ==> i == |ks| - 1)
  {
    forall i | 0 <= i < |acc| ensures acc[i] != h && st.pieces[acc[i]].pos != st.pieces[h].pos {
      assert EnemyNeighbour(st, h, acc[i]);
    }
    if CheckEliminated(q, h).1 {
      SelfKilled(st, h, q, acc);
    }
  }

  lemma SelfKilled(st: BoardState, h: Handle, q: BoardState, acc: seq<Handle>)
    requires Consistent(st) && Standing(st, h) && Wf(q)
    requires KilledFrom(st, q, acc) && KeyedAll(st, acc) && CheckEliminated(q, h).1
    requires forall i :: 0 <= i < |acc| ==> acc[i] != h && st.pieces[acc[i]].pos != st.pieces[h].pos
    requires forall i :: 0 <= i < |acc| ==> EnemyNeighbour(st, h, acc[i])
    ensures var ks := acc + [h];
      && KilledFrom(st, Kill(q, h), ks)
      && KeyedAll(st, ks)
      && (forall i :: 0 <= i < |ks| ==> ks[i] == h || EnemyNeighbour(st, h, ks[i]))
      && (forall i :: 0 <= i < |ks| && ks[i] == h ==> i == |ks| - 1)
  {
    assert st.pieces[h].pos !in Spots(st, acc);
    KillExtends(st, q, acc, h);
    KeyedAllSnoc(st, acc, h);
    var ks := acc + [h];
    forall i | 0 <= i < |ks| ensures (ks[i] == h || EnemyNeighbour(st, h, ks[i])) && (ks[i] == h ==> i == |ks| - 1) {
      if i < |acc| { assert ks[i] == acc[i]; }
    }
  }

  // ------------------------------------------------------------ invariant

  /** Eliminating standing pieces keeps the board consistent. */
  lemma KillsKeepConsistent(st: BoardState, r: BoardState, ks: seq<Handle>)
    requires Consistent(st) && KilledFrom(st, r, ks) && KeyedAll(st, ks)
    ensures Consistent(r)
  {
    FrameKeepsWf(st, r);
    forall s: Side, k | k in r.Team(s) && r.pieces[r.Team(s)[k]].alive
      ensures k in r.grid && r.grid[k] == Stone(s)
    {
      WfTeam(st, s);
    }
    assert TeamAgrees(r, r.white, White) by {
      assert r.white == r.Team(White);
    }
    assert TeamAgrees(r, r.black, Black) by {
      assert r.black == r.Team(Black);
    }
    forall p | p in r.area && r.grid[p].Stone?
      ensures p in r.Team(r.grid[p].side) && r.pieces[r.Team(r.grid[p].side)[p]].alive
    {
      assert p !in Spots(st, ks);
      var s := r.grid[p].side;
      WfTeam(st, s);
    }
  }

  /** The first half of place_piece on an empty square in play keeps the board
    * consistent, and the new piece stands on it. */
  lemma AddPieceConsistent(st: BoardState, c: Side, pos: Pos)
    requires Consistent(st) && Free(st, pos)
    ensures Consistent(AddPiece(st, c, pos)) && Standing(AddPiece(st, c, pos), |st.pieces|)
  {
    var r := AddPiece(st, c, pos);
    AddPieceAgrees(st, c, pos, White);
    AddPieceAgrees(st, c, pos, Black);
    AddPieceStones(st, c, pos);
    assert TeamAgrees(r, r.white, White) by {
      assert r.white == r.Team(White);
    }
    assert TeamAgrees(r, r.black, Black) by {
      assert r.black == r.Team(Black);
    }
  }

  lemma AddPieceAgrees(st: BoardState, c: Side, pos: Pos, s: Side)
    requires Consistent(st) && Free(st, pos)
    ensures TeamOk(AddPiece(st, c, pos).pieces, AddPiece(st, c, pos).Team(s), s)
    ensures TeamAgrees(AddPiece(st, c, pos), AddPiece(st, c, pos).Team(s), s)
  {
    var r := AddPiece(st, c, pos);
    WfTeam(st, s);
    WfTeam(r, s);
    assert TeamAgrees(st, st.Team(s), s) by {
      if s == White { assert st.white == st.Team(s); } else { assert st.black == st.Team(s); }
    }
    forall k | k in r.Team(s)
      ensures r.pieces[r.Team(s)[k]].pos == k
      ensures r.pieces[r.Team(s)[k]].alive ==> k in r.area && k in r.grid && r.grid[k] == Stone(s)
    {
      if s == c && k == pos {
      } else {
        assert k in st.Team(s) && r.Team(s)[k] == st.Team(s)[k];
      }
    }
  }

  lemma AddPieceStones(st: BoardState, c: Side, pos: Pos)
    requires Consistent(st) && Free(st, pos)
    ensures StonesKeyed(AddPiece(st, c, pos))
  {
    var r := AddPiece(st, c, pos);
    forall p | p in r.area && r.grid[p].Stone?
      ensures p in r.Team(r.grid[p].side) && r.pieces[r.Team(r.grid[p].side)[p]].alive
    {
      if p != pos {
        assert st.grid[p] == r.grid[p];
      }
    }
  }

  /** place_piece keeps the board consistent. */
  lemma PlaceConsistent(st: BoardState, c: Side, pos: Pos)
    requires Consistent(st)
    ensures Consistent(PlacePiece(st, c, pos).0)
  {
    if Free(st, pos) {
      AddPieceConsistent(st, c, pos);
      var s1 := AddPiece(st, c, pos);
      EliminateKills(s1, |st.pieces|);
      var e := EliminateSurrounding(s1, |st.pieces|);
      KillsKeepConsistent(s1, e.0, e.1);
    }
  }

  /** place_piece fails exactly when the square is out of play or taken, and
    * then leaves the board alone. */
  lemma PlaceFails(st: BoardState, c: Side, pos: Pos)
    requires Wf(st)
    ensures PlacePiece(st, c, pos).1.None? <==> !Free(st, pos)
    ensures PlacePiece(st, c, pos).1.None? ==> PlacePiece(st, c, pos).0 == st
  {
  }

  /** undo_place after a successful place_piece gives back the board, except
    * that the arena keeps the (unreachable) new piece and a dead piece's
    * stale entry at that square is gone. */
  lemma PlaceUndoPlace(st: BoardState, c: Side, pos: Pos)
    requires Consistent(st) && Free(st, pos)
    ensures var r := PlacePiece(st, c, pos);
      && r.1.Some? && Handles(r.0, r.1.value)
      && var u := UndoPlace(r.0, c, pos, r.1.value);
      && u.grid == st.grid && u.area == st.area
      && u.shrinks == st.shrinks && u.playingSize == st.playingSize
      && u.pieces == st.pieces + [Piece(c, pos, true)]
      && u.Team(c) == st.Team(c) - {pos}
      && u.Team(Opponent(c)) == st.Team(Opponent(c))
  {
    AddPieceConsistent(st, c, pos);
    var s1 := AddPiece(st, c, pos);
    EliminateKills(s1, |st.pieces|);
    var e := EliminateSurrounding(s1, |st.pieces|);
    FrameKeepsWf(s1, e.0);
    assert PlacePiece(st, c, pos) == (e.0, Some(e.1));
    ResurrectRestores(s1, e.0, e.1);
    UndoPlaceOfAdd(st, e.0, c, pos, e.1);
  }

  lemma UndoPlaceOfAdd(st: BoardState, r: BoardState, c: Side, pos: Pos, ks: seq<Handle>)
    requires Wf(st) && Wf(r) && Handles(r, ks) && Free(st, pos)
    requires ResurrectAll(r, ks) == AddPiece(st, c, pos)
    ensures var u := UndoPlace(r, c, pos, ks);
      && u.grid == st.grid && u.area == st.area
      && u.shrinks == st.shrinks && u.playingSize == st.playingSize
      && u.pieces == st.pieces + [Piece(c, pos, true)]
      && u.Team(c) == st.Team(c) - {pos}
      && u.Team(Opponent(c)) == st.Team(Opponent(c))
  {
    UndoPlaceGrid(st, r, c, pos, ks);
    UndoPlaceTeam(st, r, c, pos, ks);
  }

  lemma UndoPlaceGrid(st: BoardState, r: BoardState, c: Side, pos: Pos, ks: seq<Handle>)
    requires Wf(st) && Wf(r) && Handles(r, ks) && Free(st, pos)
    requires ResurrectAll(r, ks) == AddPiece(st, c, pos)
    ensures UndoPlace(r, c, pos, ks).grid == st.grid
  {
    assert AddPiece(st, c, pos).grid == st.grid[pos := Stone(c)];
  }

  lemma UndoPlaceTeam(st: BoardState, r: BoardState, c: Side, pos: Pos, ks: seq<Handle>)
    requires Wf(st) && Wf(r) && Handles(r, ks) && Free(st, pos)
    requires ResurrectAll(r, ks) == AddPiece(st, c, pos)
    ensures UndoPlace(r, c, pos, ks).Team(c) == st.Team(c) - {pos}
  {
    assert AddPiece(st, c, pos).Team(c) == st.Team(c)[pos := |st.pieces|];
  }

  // -------------------------------------------------- apply, then undo

  /** `u` keeps the entries of `m0` it has, unchanged, and drops only entries of dead pieces. */
  ghost predicate SubTeam(m0: map<Pos, Handle>, u: map<Pos, Handle>, pieces: seq<Piece>)
  {
    && (forall k :: k in u ==> k in m0 && u[k] == m0[k])
    && (forall k :: k in m0 && k !in u ==> m0[k] < |pieces| && !pieces[m0[k]].alive)
  }

  /** What an apply followed by its undo leaves of `st`: the same grid, area
    * and level, the old arena as a prefix of the new one, and each dictionary
    * at most missing entries of dead pieces. */
  ghost predicate Restored(st: BoardState, u: BoardState)
  {
    && u.grid == st.grid && u.area == st.area
    && u.shrinks == st.shrinks && u.playingSize == st.playingSize
    && |st.pieces| <= |u.pieces| && u.pieces[..|st.pieces|] == st.pieces
    && SubTeam(st.white, u.white, st.pieces) && SubTeam(st.black, u.black, st.pieces)
  }

  lemma RestoredRefl(st: BoardState)
    ensures Restored(st, st)
  {
    assert st.pieces[..|st.pieces|] == st.pieces;
  }

  lemma RestoredTrans(a: BoardState, b: BoardState, c: BoardState)
    requires Wf(a) && Restored(a, b) && Restored(b, c)
    ensures Restored(a, c)
  {
    assert c.pieces[..|a.pieces|] == b.pieces[..|b.pieces|][..|a.pieces|];
    forall k | k in a.white && k !in c.white ensures !a.pieces[a.white[k]].alive {
      if k in b.white {
        assert b.pieces[..|a.pieces|][a.white[k]] == a.pieces[a.white[k]];
      }
    }
    forall k | k in a.black && k !in c.black ensures !a.pieces[a.black[k]].alive {
      if k in b.black {
        assert b.pieces[..|a.pieces|][a.black[k]] == a.pieces[a.black[k]];
      }
    }
  }

  /** Each entry of a restored dictionary names the same piece, unchanged. */
  lemma RestoredTeam(st: BoardState, u: BoardState, s: Side)
    requires Wf(st) && Restored(st, u)
    ensures TeamOk(u.pieces, u.Team(s), s)
    ensures forall k :: k in u.Team(s) ==> u.pieces[u.Team(s)[k]] == st.pieces[st.Team(s)[k]]
    ensures LiveKeys'(u, s) == LiveKeys'(st, s)
    ensures forall k :: k in u.Team(s) ==> k in st.Team(s) && u.Team(s)[k] == st.Team(s)[k]
  {
    WfTeam(st, s);
    if s == White {
      assert u.Team(s) == u.white && st.Team(s) == st.white;
    } else {
      assert u.Team(s) == u.black && st.Team(s) == st.black;
    }
    forall k | k in u.Team(s) ensures u.pieces[u.Team(s)[k]] == st.pieces[st.Team(s)[k]] {
      assert u.pieces[..|st.pieces|][st.Team(s)[k]] == st.pieces[st.Team(s)[k]];
    }
  }

  /** LiveKeys without its well-formedness precondition, for stating RestoredTeam. */
  ghost function LiveKeys'(st: BoardState, s: Side): set<Pos>
  {
    set k | k in st.Team(s) && st.Team(s)[k] < |st.pieces| && st.pieces[st.Team(s)[k]].alive
  }

  /** A restored board is consistent again. */
  lemma RestoredConsistent(st: BoardState, u: BoardState)
    requires Consistent(st) && Restored(st, u)
    ensures Consistent(u)
  {
    RestoredTeam(st, u, White);
    RestoredTeam(st, u, Black);
    assert Wf(u);
    assert TeamAgrees(u, u.white, White) by {
      assert u.white == u.Team(White);
    }
    assert TeamAgrees(u, u.black, Black) by {
      assert u.black == u.Team(Black);
    }
    forall p | p in u.area && u.grid[p].Stone?
      ensures p in u.Team(u.grid[p].side) && u.pieces[u.Team(u.grid[p].side)[p]].alive
    {
      WfTeam(st, u.grid[p].side);
    }
  }

  /** Every query reads the same on a restored board. */
  lemma RestoredQueries(st: BoardState, u: BoardState)
    requires Wf(st) && Restored(st, u)
    ensures Wf(u)
    ensures LiveKeys(u, White) == LiveKeys(st, White) && LiveKeys(u, Black) == LiveKeys(st, Black)
    ensures AliveMap(u, White) == AliveMap(st, White) && AliveMap(u, Black) == AliveMap(st, Black)
    ensures CheckWin(u, White) == CheckWin(st, White) && CheckWin(u, Black) == CheckWin(st, Black)
  {
    RestoredLive(st, u, White);
    RestoredLive(st, u, Black);
  }

  lemma RestoredLive(st: BoardState, u: BoardState, s: Side)
    requires Wf(st) && Restored(st, u)
    ensures Wf(u) && LiveKeys(u, s) == LiveKeys(st, s) && AliveMap(u, s) == AliveMap(st, s)
  {
    RestoredTeam(st, u, White);
    RestoredTeam(st, u, Black);
    LiveKeysTotal(u, s);
    LiveKeysTotal(st, s);
    SameAlive(st, u, s);
  }

  lemma LiveKeysTotal(st: BoardState, s: Side)
    requires Wf(st)
    ensures LiveKeys(st, s) == LiveKeys'(st, s)
  {
    WfTeam(st, s);
  }

  /** Equal live keys naming the same handles give the same get_alive map. */
  lemma SameAlive(st: BoardState, u: BoardState, s: Side)
    requires Wf(st) && Wf(u) && LiveKeys(u, s) == LiveKeys(st, s)
    requires forall k :: k in u.Team(s) ==> k in st.Team(s) && u.Team(s)[k] == st.Team(s)[k]
    ensures AliveMap(u, s) == AliveMap(st, s)
  {
    var a := AliveMap(u, s);
    var b := AliveMap(st, s);
    assert a.Keys == b.Keys;
    forall k | k in a ensures a[k] == b[k] {
    }
  }

  /** Growing the arena of a restored board keeps it restored. */
  lemma RestoredGrow(st: BoardState, w: BoardState, u: BoardState)
    requires Restored(st, w)
    requires u.grid == w.grid && u.area == w.area && u.shrinks == w.shrinks && u.playingSize == w.playingSize
    requires u.white == w.white && u.black == w.black
    requires |w.pieces| <= |u.pieces| && u.pieces[..|w.pieces|] == w.pieces
    ensures Restored(st, u)
  {
    assert u.pieces[..|st.pieces|] == u.pieces[..|w.pieces|][..|st.pieces|];
  }

  /** place_piece then undo_place restores the board. */
  lemma PlaceRestores(st: BoardState, c: Side, pos: Pos)
    requires Consistent(st) && Free(st, pos)
    ensures var r := PlacePiece(st, c, pos);
      && r.1.Some? && Handles(r.0, r.1.value)
      && Restored(st, UndoPlace(r.0, c, pos, r.1.value))
  {
    PlaceUndoPlace(st, c, pos);
    var r := PlacePiece(st, c, pos);
    var u := UndoPlace(r.0, c, pos, r.1.value);
    DropEmptyKey(st, c, pos);
    var w := st.WithTeam(c, st.Team(c) - {pos});
    assert u.white == w.white && u.black == w.black by {
      if c == White {
        assert u.white == u.Team(c) && u.black == u.Team(Opponent(c));
      } else {
        assert u.black == u.Team(c) && u.white == u.Team(Opponent(c));
      }
    }
    assert u.pieces[..|w.pieces|] == w.pieces;
    RestoredGrow(st, w, u);
  }

  // ------------------------------------------------------------- moving

  lemma RelocateShape(st: BoardState, h: Handle, newpos: Pos)
    requires Wf(st) && Standing(st, h)
    ensures var r := Relocate(st, h, newpos);
      var c := st.pieces[h].player;
      && r.Team(c) == st.Team(c)[newpos := h] - {st.pieces[h].pos}
      && r.Team(Opponent(c)) == st.Team(Opponent(c))
      && r.grid == st.grid[st.pieces[h].pos := Empty][newpos := Stone(c)]
      && r.pieces == st.pieces[h := st.pieces[h].(pos := newpos)]
      && r.area == st.area && r.shrinks == st.shrinks && r.playingSize == st.playingSize
  {
  }

  lemma RelocateTeam(st: BoardState, h: Handle, newpos: Pos, s: Side)
    requires Consistent(st) && Standing(st, h) && Free(st, newpos)
    ensures var r := Relocate(st, h, newpos);
      && TeamOk(r.pieces, r.Team(s), s)
      && forall k :: k in r.Team(s) ==>
           && r.pieces[r.Team(s)[k]].pos == k
           && (r.pieces[r.Team(s)[k]].alive ==> k in r.area && k in r.grid && r.grid[k] == Stone(s))
  {
    RelocateShape(st, h, newpos);
    WfTeam(st, s);
    assert TeamAgrees(st, st.Team(s), s) by {
      if s == White { assert st.Team(s) == st.white; } else { assert st.Team(s) == st.black; }
    }
  }

  lemma RelocateStones(st: BoardState, h: Handle, newpos: Pos)
    requires Consistent(st) && Standing(st, h) && Free(st, newpos)
    ensures Wf(Relocate(st, h, newpos)) && StonesKeyed(Relocate(st, h, newpos))
  {
    RelocateShape(st, h, newpos);
    var r := Relocate(st, h, newpos);
    forall p | p in r.area && r.grid[p].Stone?
      ensures p in r.Team(r.grid[p].side) && r.pieces[r.Team(r.grid[p].side)[p]].alive
    {
      WfTeam(st, r.grid[p].side);
    }
  }

  /** The relocation half of make_move, onto an empty square in play, keeps
    * the board consistent and leaves the piece standing on the new square. */
  lemma RelocateConsistent(st: BoardState, h: Handle, newpos: Pos)
    requires Consistent(st) && Standing(st, h) && Free(st, newpos)
    ensures Consistent(Relocate(st, h, newpos)) && Standing(Relocate(st, h, newpos), h)
  {
    var r := Relocate(st, h, newpos);
    RelocateShape(st, h, newpos);
    RelocateTeam(st, h, newpos, White);
    RelocateTeam(st, h, newpos, Black);
    RelocateStones(st, h, newpos);
    assert r.white == r.Team(White) && r.black == r.Team(Black);
  }

  /** make_move onto an empty square in play keeps the board consistent. */
  lemma MoveConsistent(st: BoardState, h: Handle, newpos: Pos)
    requires Consistent(st) && Standing(st, h) && Free(st, newpos)
    ensures Consistent(MakeMove(st, h, newpos).0)
  {
    RelocateConsistent(st, h, newpos);
    var s1 := Relocate(st, h, newpos);
    EliminateKills(s1, h);
    var e := EliminateSurrounding(s1, h);
    KillsKeepConsistent(s1, e.0, e.1);
  }

  /** make_move as its captures leave it: the relocated board, and the
    * eliminated pieces as killed from it. */
  lemma MoveKills(st: BoardState, h: Handle, newpos: Pos)
    requires Consistent(st) && Standing(st, h) && Free(st, newpos)
    ensures Wf(Relocate(st, h, newpos))
    ensures var m := MakeMove(st, h, newpos);
      && Handles(m.0, m.1)
      && ResurrectAll(m.0, m.1) == Relocate(st, h, newpos)
      && m.0.pieces[h].pos == newpos
  {
    RelocateConsistent(st, h, newpos);
    var s1 := Relocate(st, h, newpos);
    EliminateKills(s1, h);
    ResurrectRestores(s1, MakeMove(st, h, newpos).0, MakeMove(st, h, newpos).1);
  }

  lemma UndoMoveGrid(st: BoardState, r: BoardState, h: Handle, newpos: Pos, ks: seq<Handle>)
    requires Wf(st) && Standing(st, h) && Free(st, newpos)
    requires Wf(r) && Handles(r, ks) && h < |r.pieces|
    requires ResurrectAll(r, ks) == Relocate(st, h, newpos)
    ensures var b := MoveBack(r, h, st.pieces[h].pos, ks);
      b.grid == st.grid && b.pieces == st.pieces && b.area == st.area
      && b.shrinks == st.shrinks && b.playingSize == st.playingSize
      && b.Team(Opponent(st.pieces[h].player)) == st.Team(Opponent(st.pieces[h].player))
      && b.Team(st.pieces[h].player) == st.Team(st.pieces[h].player)[newpos := h] - {st.pieces[h].pos}
  {
    RelocateShape(st, h, newpos);
    var oldpos := st.pieces[h].pos;
    var c := st.pieces[h].player;
    var b := MoveBack(r, h, oldpos, ks);
    assert b.grid == st.grid[oldpos := Empty][newpos := Stone(c)][newpos := Empty][oldpos := Stone(c)];
    assert b.grid == st.grid;
    assert b.pieces == st.pieces;
  }

  /** The dictionary arithmetic of update_team there and back. */
  lemma MoveKeyBack(m: map<Pos, Handle>, a: Pos, b: Pos, h: Handle)
    requires a != b && a in m && m[a] == h
    ensures (m[b := h] - {a})[a := h] - {b} == m - {b}
    ensures (m[b := h] - {a})[a := h] == m[b := h]
  {
  }

  lemma UndoMoveOf(st: BoardState, r: BoardState, h: Handle, newpos: Pos, ks: seq<Handle>)
    requires Wf(st) && Standing(st, h) && Free(st, newpos)
    requires Wf(r) && Handles(r, ks) && h < |r.pieces| && r.pieces[h].pos == newpos
    requires ResurrectAll(r, ks) == Relocate(st, h, newpos)
    ensures var c := st.pieces[h].player;
      UndoMove(r, h, st.pieces[h].pos, ks) == st.WithTeam(c, st.Team(c) - {newpos})
  {
    UndoMoveGrid(st, r, h, newpos, ks);
    var oldpos := st.pieces[h].pos;
    var c := st.pieces[h].player;
    assert oldpos != newpos;
    assert MoveBack(r, h, oldpos, ks).Team(c)[newpos] == h;
    MoveKeyBack(st.Team(c), oldpos, newpos, h);
  }

  lemma UndoMoveAsWrittenOf(st: BoardState, r: BoardState, h: Handle, newpos: Pos, ks: seq<Handle>)
    requires Wf(st) && Standing(st, h) && Free(st, newpos)
    requires Wf(r) && Handles(r, ks) && h < |r.pieces| && r.pieces[h].pos == newpos
    requires ResurrectAll(r, ks) == Relocate(st, h, newpos)
    ensures var c := st.pieces[h].player;
      && st.pieces[h].pos !in r.Team(c)
      && UndoMoveAsWritten(r, h, st.pieces[h].pos, ks) == st.WithTeam(c, st.Team(c)[newpos := h])
  {
    UndoMoveGrid(st, r, h, newpos, ks);
    var oldpos := st.pieces[h].pos;
    var c := st.pieces[h].player;
    assert oldpos != newpos;
    MoveKeyBack(st.Team(c), oldpos, newpos, h);
  }

  /** Dropping the entry of an empty square only forgets a dead piece. */
  lemma DropEmptyKey(st: BoardState, c: Side, k: Pos)
    requires Consistent(st) && k in st.grid && st.grid[k] == Empty
    ensures Restored(st, st.WithTeam(c, st.Team(c) - {k}))
  {
    var u := st.WithTeam(c, st.Team(c) - {k});
    WfTeam(st, c);
    assert u.pieces[..|st.pieces|] == st.pieces;
    assert TeamAgrees(st, st.Team(c), c) by {
      if c == White { assert st.Team(c) == st.white; } else { assert st.Team(c) == st.black; }
    }
    assert SubTeam(st.Team(c), u.Team(c), st.pieces);
    assert SubTeam(st.Team(Opponent(c)), u.Team(Opponent(c)), st.pieces);
    if c == White {
      assert u.white == u.Team(c) && u.black == u.Team(Opponent(c));
    } else {
      assert u.black == u.Team(c) && u.white == u.Team(Opponent(c));
    }
  }

  /** make_move then the corrected undo_move gives back the board, except that
    * a dead piece's stale entry at the destination is gone. */
  lemma MoveUndoMove(st: BoardState, h: Handle, newpos: Pos)
    requires Consistent(st) && Standing(st, h) && Free(st, newpos)
    ensures var m := MakeMove(st, h, newpos);
      && Handles(m.0, m.1) && h < |m.0.pieces|
      && var u := UndoMove(m.0, h, st.pieces[h].pos, m.1);
      && u == st.WithTeam(st.pieces[h].player, st.Team(st.pieces[h].player) - {newpos})
      && Restored(st, u)
      && (newpos !in st.Team(st.pieces[h].player) ==> u == st)
  {
    MoveKills(st, h, newpos);
    var m := MakeMove(st, h, newpos);
    var c := st.pieces[h].player;
    UndoMoveOf(st, m.0, h, newpos, m.1);
    DropEmptyKey(st, c, newpos);
    if newpos !in st.Team(c) {
      DropAbsent(st.Team(c), newpos);
      assert st.WithTeam(c, st.Team(c)) == st;
    }
  }

  lemma DropAbsent(m: map<Pos, Handle>, k: Pos)
    requires k !in m
    ensures m - {k} == m
  {
  }

  /** make_move then undo_move as written: the piece and the grid are back,
    * but the destination keeps an entry naming the piece, which now stands
    * elsewhere. */
  lemma MoveUndoMoveAsWritten(st: BoardState, h: Handle, newpos: Pos)
    requires Consistent(st) && Standing(st, h) && Free(st, newpos)
    ensures var m := MakeMove(st, h, newpos);
      var c := st.pieces[h].player;
      && Handles(m.0, m.1) && h < |m.0.pieces|
      && st.pieces[h].pos !in m.0.Team(c)
      && UndoMoveAsWritten(m.0, h, st.pieces[h].pos, m.1) == st.WithTeam(c, st.Team(c)[newpos := h])
  {
    MoveKills(st, h, newpos);
    var m := MakeMove(st, h, newpos);
    UndoMoveAsWrittenOf(st, m.0, h, newpos, m.1);
  }

  /** The entry undo_move as written leaves behind breaks consistency and makes
    * get_alive (and so check_win) count the moved piece twice. */
  lemma StaleKeyCountsTwice(st: BoardState, h: Handle, newpos: Pos)
    requires Consistent(st) && Standing(st, h) && Free(st, newpos)
    ensures var c := st.pieces[h].player;
      var u := st.WithTeam(c, st.Team(c)[newpos := h]);
      && Wf(u) && !Consistent(u)
      && newpos !in LiveKeys(st, c)
      && LiveKeys(u, c) == LiveKeys(st, c) + {newpos}
      && |LiveKeys(u, c)| == |LiveKeys(st, c)| + 1
      && LiveKeys(u, Opponent(c)) == LiveKeys(st, Opponent(c))
  {
    var c := st.pieces[h].player;
    var u := st.WithTeam(c, st.Team(c)[newpos := h]);
    StaleKeyLive(st, h, newpos);
    assert !TeamAgrees(u, u.Team(c), c) by {
      assert u.pieces[u.Team(c)[newpos]].pos != newpos;
    }
    if c == White { assert u.Team(c) == u.white; } else { assert u.Team(c) == u.black; }
  }

  lemma StaleKeyLive(st: BoardState, h: Handle, newpos: Pos)
    requires Consistent(st) && Standing(st, h) && Free(st, newpos)
    ensures var c := st.pieces[h].player;
      var u := st.WithTeam(c, st.Team(c)[newpos := h]);
      && Wf(u)
      && newpos !in LiveKeys(st, c)
      && LiveKeys(u, c) == LiveKeys(st, c) + {newpos}
      && LiveKeys(u, Opponent(c)) == LiveKeys(st, Opponent(c))
  {
    var c := st.pieces[h].player;
    WfTeam(st, c);
    WfTeam(st, Opponent(c));
    assert TeamAgrees(st, st.Team(c), c) by {
      if c == White { assert st.Team(c) == st.white; } else { assert st.Team(c) == st.black; }
    }
  }
}
