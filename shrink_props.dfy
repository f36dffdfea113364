/**
 * Properties of Board.shrink: it takes exactly ring `s` out of play, blanks
 * the old corners, sets the four new corners, kills every piece left on the
 * removed ring or on a new corner, and keeps the board consistent. Also the
 * agreement of count_outside with get_border_pieces.
 */
module ShrinkProps {
  import opened Rules
  import opened BoardModel
  import opened BoardProps

  /** The squares in play are exactly the square region of the current level. */
  ghost predicate AreaShape(st: BoardState)
  {
    forall p :: p in st.area <==> InSquare(p, st.shrinks)
  }

  /** What every step of shrink leaves alone: the dictionaries, each piece's
    * side and square, and the grid's squares; no piece comes back to life. */
  ghost predicate Keeps(a: BoardState, b: BoardState)
  {
    && b.white == a.white && b.black == a.black
    && |b.pieces| == |a.pieces|
    && (forall h :: 0 <= h < |a.pieces| ==>
          && b.pieces[h].player == a.pieces[h].player && b.pieces[h].pos == a.pieces[h].pos
          && (b.pieces[h].alive ==> a.pieces[h].alive))
    && a.grid.Keys <= b.grid.Keys
  }

  lemma KeepsTrans(a: BoardState, b: BoardState, c: BoardState)
    requires Keeps(a, b) && Keeps(b, c)
    ensures Keeps(a, c)
  {
  }

  /** list.remove on a list without repeats removes the square and nothing else. */
  lemma {:induction false} RemoveFirstNoDup(s: seq<Pos>, x: Pos)
    requires NoDup(s)
    ensures NoDup(RemoveFirst(s, x)) && x !in RemoveFirst(s, x)
    decreases |s|
  {
    if s != [] && s[0] != x {
      assert NoDup(s[1..]);
      RemoveFirstNoDup(s[1..], x);
      assert s[0] !in s[1..];
    }
  }

  // -------------------------------------------------------------- the ring

  /** A piece whose square is out of play is always eliminated by check_eliminated. */
  lemma OutOfPlayDies(s: BoardState, h: Handle)
    requires Wf(s) && h < |s.pieces| && s.pieces[h].pos !in s.area
    ensures CheckEliminated(s, h) == (Kill(s, h), true)
    ensures Kill(s, h).area == s.area && Kill(s, h).white == s.white && Kill(s, h).black == s.black
    ensures Kill(s, h).grid == (if s.pieces[h].pos in s.grid then s.grid[s.pieces[h].pos := Empty] else s.grid)
    ensures Kill(s, h).pieces == s.pieces[h := s.pieces[h].(alive := false)]
  {
  }

  /** One visit of the ring loop, for a square still in play. */
  lemma VisitRingDrops(cur: BoardState, sq: Pos)
    requires Consistent(cur) && sq in cur.area
    ensures SquareDropped(cur, VisitRing(cur, sq), sq)
  {
    var s1 := cur.(area := RemoveFirst(cur.area, sq));
    RemoveFirstNoDup(cur.area, sq);
    assert Wf(s1);
    WfTeam(cur, White);
    WfTeam(cur, Black);
    var s2 := s1;
    if sq in s1.white {
      assert TeamAgrees(cur, cur.white, White);
      OutOfPlayDies(s1, s1.white[sq]);
      s2 := Kill(s1, s1.white[sq]);
    }
    assert s2 == if sq in s1.white then CheckEliminated(s1, s1.white[sq]).0 else s1;
    FrameKeepsWf(s1, s2);
    var s3 := s2;
    if sq in s2.black {
      assert TeamAgrees(cur, cur.black, Black);
      OutOfPlayDies(s2, s2.black[sq]);
      s3 := Kill(s2, s2.black[sq]);
    }
    assert VisitRing(cur, sq) == s3;
    assert s3.pieces == KillKeyed(KillKeyed(cur.pieces, cur.white, sq), cur.black, sq);
    KillKeyedTwice(cur, sq);
  }

  /** The arena with the piece keyed at `sq` in `m`, if any, dead. */
  ghost function KillKeyed(pieces: seq<Piece>, m: map<Pos, Handle>, sq: Pos): seq<Piece>
  {
    if sq in m && m[sq] < |pieces| then pieces[m[sq] := pieces[m[sq]].(alive := false)] else pieces
  }

  lemma KillKeyedTwice(cur: BoardState, sq: Pos)
    requires Wf(cur)
    ensures var ps := KillKeyed(KillKeyed(cur.pieces, cur.white, sq), cur.black, sq);
      && |ps| == |cur.pieces|
      && forall h :: 0 <= h < |cur.pieces| ==>
           && ps[h].player == cur.pieces[h].player && ps[h].pos == cur.pieces[h].pos
           && (ps[h].alive <==> cur.pieces[h].alive && !KeyedAt(cur, sq, h))
  {
  }

  /** `r` is `cur` with `sq` out of play and the pieces keyed at `sq` killed. */
  ghost predicate SquareDropped(cur: BoardState, r: BoardState, sq: Pos)
  {
    && (forall p :: p in r.area <==> p in cur.area && p != sq)
    && NoDup(r.area)
    && r.white == cur.white && r.black == cur.black
    && r.grid.Keys == cur.grid.Keys
    && (forall p :: p in cur.grid && p != sq ==> r.grid[p] == cur.grid[p])
    && |r.pieces| == |cur.pieces|
    && (forall h :: 0 <= h < |cur.pieces| ==>
          && r.pieces[h].player == cur.pieces[h].player && r.pieces[h].pos == cur.pieces[h].pos
          && (r.pieces[h].alive <==> cur.pieces[h].alive && !KeyedAt(cur, sq, h)))
  }

  /** Piece `h` is the entry of square `sq` in one of the dictionaries. */
  ghost predicate KeyedAt(st: BoardState, sq: Pos, h: Handle)
  {
    (sq in st.white && h == st.white[sq]) || (sq in st.black && h == st.black[sq])
  }

  lemma SquareDroppedTeam(cur: BoardState, r: BoardState, sq: Pos, s: Side)
    requires Consistent(cur) && SquareDropped(cur, r, sq)
    ensures TeamOk(r.pieces, r.Team(s), s)
    ensures forall k :: k in r.Team(s) ==>
      && r.pieces[r.Team(s)[k]].pos == k
      && (r.pieces[r.Team(s)[k]].alive ==> k in r.area && k in r.grid && r.grid[k] == Stone(s))
  {
    WfTeam(cur, s);
    assert TeamAgrees(cur, cur.Team(s), s) by {
      if s == White { assert cur.Team(s) == cur.white; } else { assert cur.Team(s) == cur.black; }
    }
  }

  lemma SquareDroppedConsistent(cur: BoardState, r: BoardState, sq: Pos)
    requires Consistent(cur) && SquareDropped(cur, r, sq)
    ensures Consistent(r)
  {
    SquareDroppedTeam(cur, r, sq, White);
    SquareDroppedTeam(cur, r, sq, Black);
    assert Wf(r);
    assert r.white == r.Team(White) && r.black == r.Team(Black);
    SquareDroppedKeyed(cur, r, sq);
  }

  lemma SquareDroppedKeyed(cur: BoardState, r: BoardState, sq: Pos)
    requires Consistent(cur) && SquareDropped(cur, r, sq) && Wf(r)
    ensures StonesKeyed(r)
  {
    forall p | p in r.area && r.grid[p].Stone?
      ensures p in r.Team(r.grid[p].side) && r.pieces[r.Team(r.grid[p].side)[p]].alive
    {
      WfTeam(cur, r.grid[p].side);
    }
  }

  /** One visit of the ring loop takes `sq` out of play, kills what is keyed
    * there, and keeps the board consistent. */
  lemma VisitRingKeeps(cur: BoardState, sq: Pos)
    requires Consistent(cur)
    ensures var r := VisitRing(cur, sq);
      && Consistent(r) && Keeps(cur, r)
      && (forall p :: p in r.area <==> p in cur.area && p != sq)
      && r.shrinks == cur.shrinks && r.playingSize == cur.playingSize
      && (forall p :: p in cur.grid && p != sq ==> r.grid[p] == cur.grid[p])
  {
    if sq in cur.area {
      VisitRingDrops(cur, sq);
      SquareDroppedConsistent(cur, VisitRing(cur, sq), sq);
    }
  }

  /** Visiting the squares of `q` in order takes exactly those squares out of
    * play, kills what is keyed there, and keeps the board consistent. */
  lemma {:induction false} VisitsKeeps(cur: BoardState, q: seq<Pos>)
    requires Consistent(cur)
    ensures var r := Visits(cur, q);
      && Consistent(r) && Keeps(cur, r)
      && (forall p :: p in r.area <==> p in cur.area && p !in q)
      && r.shrinks == cur.shrinks && r.playingSize == cur.playingSize
  {
    if q != [] {
      var q0 := q[..|q| - 1];
      var sq := q[|q| - 1];
      VisitsKeeps(cur, q0);
      var r0 := Visits(cur, q0);
      VisitRingKeeps(r0, sq);
      var r := VisitRing(r0, sq);
      KeepsTrans(cur, r0, r);
      forall p ensures p in r.area <==> p in cur.area && p !in q {
        assert q == q0 + [sq];
        assert p in q <==> p in q0 || p == sq;
      }
    }
  }

  /** The squares the first `n` passes of the ring loop visit. */
  predicate VisitedBy(p: Pos, s: int, n: int)
  {
    || ((p.0 == s || p.0 == 7 - s) && s <= p.1 < s + n)
    || ((p.1 == s || p.1 == 7 - s) && s <= p.0 < s + n)
  }

  lemma {:induction false} RingOrderVisited(p: Pos, s: int, n: nat)
    ensures p in RingOrder(s, n) <==> VisitedBy(p, s, n)
  {
    if n > 0 {
      RingOrderVisited(p, s, n - 1);
      var q := s + n - 1;
      assert p in RingOrder(s, n) <==> p in RingOrder(s, n - 1) || p in RingQuad(s, q);
      assert p in RingQuad(s, q) <==> p == (s, q) || p == (q, s) || p == (7 - s, q) || p == (q, 7 - s);
    }
  }

  /** `r` has in play exactly the squares of `cur` the first `n` ring passes did not visit. */
  ghost predicate AreaAfter(r: BoardState, cur: BoardState, s: int, n: int)
  {
    forall p :: p in r.area <==> p in cur.area && !VisitedBy(p, s, n)
  }

  /** The first `n` passes of the ring loop take exactly the visited squares
    * out of play and keep the board consistent. */
  lemma RingUpToKeeps(cur: BoardState, s: int, n: nat)
    requires Consistent(cur)
    ensures var r := RingUpTo(cur, s, n);
      && Consistent(r) && Keeps(cur, r)
      && AreaAfter(r, cur, s, n)
      && r.shrinks == cur.shrinks && r.playingSize == cur.playingSize
  {
    VisitsKeeps(cur, RingOrder(s, n));
    var r := RingUpTo(cur, s, n);
    forall p ensures p in r.area <==> p in cur.area && !VisitedBy(p, s, n) {
      RingOrderVisited(p, s, n);
    }
  }

  // ------------------------------------------------------------ the corners

  /** Blanking the old corners, once they are out of play, keeps the board
    * consistent and changes no other cell. */
  lemma {:induction false} ClearCornersKeeps(cur: BoardState, s: int, n: nat)
    requires Consistent(cur) && n <= 4
    requires forall i :: 0 <= i < 4 ==> CornersOf(s)[i] !in cur.area
    ensures var r := ClearCorners(cur, s, n);
      && Consistent(r) && Keeps(cur, r)
      && r.area == cur.area && r.shrinks == cur.shrinks && r.playingSize == cur.playingSize
      && (forall i :: 0 <= i < n ==> CornersOf(s)[i] in r.grid && r.grid[CornersOf(s)[i]] == Empty)
      && (forall p :: p in cur.grid && p !in CornersOf(s)[..n] ==> r.grid[p] == cur.grid[p])
  {
    if n > 0 {
      ClearCornersKeeps(cur, s, n - 1);
      var r0 := ClearCorners(cur, s, n - 1);
      var c := CornersOf(s)[n - 1];
      BlankOutsideKeeps(r0, c);
      assert CornersOf(s)[..n] == CornersOf(s)[..n - 1] + [c];
    }
  }

  /** Blanking a square out of play keeps the board consistent. */
  lemma BlankOutsideKeeps(cur: BoardState, c: Pos)
    requires Consistent(cur) && c !in cur.area
    ensures Consistent(cur.(grid := cur.grid[c := Empty]))
    ensures Keeps(cur, cur.(grid := cur.grid[c := Empty]))
  {
    var r := cur.(grid := cur.grid[c := Empty]);
    forall s: Side, k | k in r.Team(s) && r.pieces[r.Team(s)[k]].alive
      ensures k in r.grid && r.grid[k] == Stone(s)
    {
      WfTeam(cur, s);
      assert TeamAgrees(cur, cur.Team(s), s) by {
        if s == White { assert cur.Team(s) == cur.white; } else { assert cur.Team(s) == cur.black; }
      }
    }
    assert TeamAgrees(r, r.white, White) by { assert r.white == r.Team(White); }
    assert TeamAgrees(r, r.black, Black) by { assert r.black == r.Team(Black); }
  }

  /** Killing a piece standing on the board keeps it consistent and blanks only
    * that piece's square, which showed its marker. */
  lemma KillStandingKeeps(cur: BoardState, e: Handle)
    requires Consistent(cur) && Standing(cur, e)
    ensures Consistent(Kill(cur, e)) && Keeps(cur, Kill(cur, e))
    ensures Kill(cur, e).area == cur.area && Kill(cur, e).shrinks == cur.shrinks
    ensures Kill(cur, e).playingSize == cur.playingSize
    ensures cur.grid[cur.pieces[e].pos].Stone?
    ensures forall p :: p in cur.grid && p != cur.pieces[e].pos ==> Kill(cur, e).grid[p] == cur.grid[p]
  {
    KilledFromNothing(cur);
    KillExtends(cur, cur, [], e);
    assert [] + [e] == [e];
    KillsKeepConsistent(cur, Kill(cur, e), [e]);
  }

  /** What one neighbour check around a new corner leaves: a consistent board
    * with the same bookkeeping, and every cell not showing a marker unchanged. */
  ghost predicate NeighbourKept(cur: BoardState, r: BoardState)
  {
    && Consistent(r) && Keeps(cur, r)
    && r.area == cur.area && r.shrinks == cur.shrinks && r.playingSize == cur.playingSize
    && (forall p :: p in cur.grid && !cur.grid[p].Stone? ==> r.grid[p] == cur.grid[p])
  }

  /** check_eliminated on a standing piece. */
  lemma CheckStandingKeeps(cur: BoardState, h: Handle)
    requires Consistent(cur) && Standing(cur, h)
    ensures NeighbourKept(cur, CheckEliminated(cur, h).0)
  {
    if CheckEliminated(cur, h).1 {
      KillStandingKeeps(cur, h);
    }
  }

  /** One direction of the check around a new corner. */
  lemma CornerNeighbourKeeps(cur: BoardState, c: Pos, d: Pos)
    requires Consistent(cur)
    ensures NeighbourKept(cur, CornerNeighbour(cur, c, d))
  {
    var adj := Step(c, d);
    if adj in cur.area {
      if adj in LiveKeys(cur, White) {
        StandingOfLive(cur, White, adj);
        CheckStandingKeeps(cur, cur.white[adj]);
      } else if adj in LiveKeys(cur, Black) {
        StandingOfLive(cur, Black, adj);
        CheckStandingKeeps(cur, cur.black[adj]);
      }
    }
  }

  /** A live dictionary entry of a consistent board is a standing piece. */
  lemma StandingOfLive(st: BoardState, s: Side, k: Pos)
    requires Consistent(st) && k in LiveKeys(st, s)
    ensures Standing(st, st.Team(s)[k]) && st.pieces[st.Team(s)[k]].pos == k
  {
    WfTeam(st, s);
    assert TeamAgrees(st, st.Team(s), s) by {
      if s == White { assert st.Team(s) == st.white; } else { assert st.Team(s) == st.black; }
    }
  }

  lemma {:induction false} CornerNeighboursKeeps(cur: BoardState, c: Pos, n: nat)
    requires Consistent(cur) && n <= 4
    ensures var r := CornerNeighbours(cur, c, n);
      && Consistent(r) && Keeps(cur, r)
      && r.area == cur.area && r.shrinks == cur.shrinks && r.playingSize == cur.playingSize
      && (forall p :: p in cur.grid && !cur.grid[p].Stone? ==> r.grid[p] == cur.grid[p])
  {
    if n > 0 {
      CornerNeighboursKeeps(cur, c, n - 1);
      var r0 := CornerNeighbours(cur, c, n - 1);
      CornerNeighbourKeeps(r0, c, Directions[n - 1]);
      KeepsTrans(cur, r0, CornerNeighbour(r0, c, Directions[n - 1]));
    }
  }

  /** The live piece standing on a new corner, if any, dies in place; the cell
    * then becomes a corner. */
  lemma CornerKillKeeps(cur: BoardState, c: Pos)
    requires Consistent(cur)
    ensures var r1 := match GetPiece(cur, c)
                        case Some(h) => cur.(pieces := cur.pieces[h := cur.pieces[h].(alive := false)])
                        case None => cur;
      var r2 := r1.(grid := r1.grid[c := Corner]);
      && Consistent(r2) && Keeps(cur, r2)
      && r2.area == cur.area && r2.shrinks == cur.shrinks && r2.playingSize == cur.playingSize
  {
    match GetPiece(cur, c)
    case Some(h) =>
      var s := cur.pieces[h].player;
      StandingOfLive(cur, s, c);
      assert c !in LiveKeys(cur, Opponent(s)) by {
        if c in LiveKeys(cur, Opponent(s)) { StandingOfLive(cur, Opponent(s), c); }
      }
      CornerOverStone(cur, c, h);
    case None =>
      CornerOverStone(cur, c, |cur.pieces|);
  }

  /** Piece `h` (or no piece, when `h` is not a handle) is the only live entry at
    * `c`; killing it and marking `c` a corner keeps the board consistent. */
  lemma CornerOverStone(cur: BoardState, c: Pos, h: Handle)
    requires Consistent(cur)
    requires forall s: Side :: c in LiveKeys(cur, s) ==> h < |cur.pieces| && cur.Team(s)[c] == h
    requires h < |cur.pieces| ==> cur.pieces[h].pos == c
    ensures var r1 := if h < |cur.pieces| then cur.(pieces := cur.pieces[h := cur.pieces[h].(alive := false)]) else cur;
      var r2 := r1.(grid := r1.grid[c := Corner]);
      Consistent(r2) && Keeps(cur, r2)
  {
    var r1 := if h < |cur.pieces| then cur.(pieces := cur.pieces[h := cur.pieces[h].(alive := false)]) else cur;
    var r2 := r1.(grid := r1.grid[c := Corner]);
    CornerOverTeam(cur, r2, c, h, White);
    CornerOverTeam(cur, r2, c, h, Black);
    assert r2.white == r2.Team(White) && r2.black == r2.Team(Black);
    CornerOverKeyed(cur, r2, c, h);
  }

  /** `r` is `cur` with piece `h` (when it is a handle) dead and `c` a corner. */
  ghost predicate MarkedOver(cur: BoardState, r: BoardState, c: Pos, h: Handle)
  {
    && r.white == cur.white && r.black == cur.black && r.area == cur.area
    && r.grid == cur.grid[c := Corner]
    && r.pieces == (if h < |cur.pieces| then cur.pieces[h := cur.pieces[h].(alive := false)] else cur.pieces)
  }

  lemma CornerOverTeam(cur: BoardState, r: BoardState, c: Pos, h: Handle, s: Side)
    requires Consistent(cur) && MarkedOver(cur, r, c, h)
    requires c in LiveKeys(cur, s) ==> h < |cur.pieces| && cur.Team(s)[c] == h
    requires h < |cur.pieces| ==> cur.pieces[h].pos == c
    ensures TeamOk(r.pieces, r.Team(s), s) && TeamAgrees(r, r.Team(s), s)
  {
    WfTeam(cur, s);
    assert TeamAgrees(cur, cur.Team(s), s) by {
      if s == White { assert cur.Team(s) == cur.white; } else { assert cur.Team(s) == cur.black; }
    }
    assert r.Team(s) == cur.Team(s);
  }

  lemma CornerOverKeyed(cur: BoardState, r: BoardState, c: Pos, h: Handle)
    requires Consistent(cur) && MarkedOver(cur, r, c, h) && Wf(r)
    requires forall s: Side :: c in LiveKeys(cur, s) ==> h < |cur.pieces| && cur.Team(s)[c] == h
    requires h < |cur.pieces| ==> cur.pieces[h].pos == c
    ensures StonesKeyed(r)
  {
    forall p | p in r.area && r.grid[p].Stone?
      ensures p in r.Team(r.grid[p].side) && r.pieces[r.Team(r.grid[p].side)[p]].alive
    {
      var s := r.grid[p].side;
      WfTeam(cur, s);
      assert TeamAgrees(cur, cur.Team(s), s) by {
        if s == White { assert cur.Team(s) == cur.white; } else { assert cur.Team(s) == cur.black; }
      }
      assert p != c && cur.grid[p] == r.grid[p];
      assert cur.pieces[cur.Team(s)[p]].pos == p;
    }
  }

  /** One new corner: set, and the neighbours checked. */
  lemma NewCornerKeeps(cur: BoardState, c: Pos)
    requires Consistent(cur)
    ensures var r := NewCorner(cur, c);
      && Consistent(r) && Keeps(cur, r)
      && r.area == cur.area && r.shrinks == cur.shrinks && r.playingSize == cur.playingSize
      && c in r.grid && r.grid[c] == Corner
      && (forall p :: p in cur.grid && p != c && !cur.grid[p].Stone? ==> r.grid[p] == cur.grid[p])
  {
    CornerKillKeeps(cur, c);
    var r1 := match GetPiece(cur, c)
                case Some(h) => cur.(pieces := cur.pieces[h := cur.pieces[h].(alive := false)])
                case None => cur;
    var r2 := r1.(grid := r1.grid[c := Corner]);
    CornerNeighboursKeeps(r2, c, 4);
    KeepsTrans(cur, r2, NewCorner(cur, c));
  }

  /** The first `n` new corners of the current level are set. */
  lemma {:induction false} NewCornersKeeps(cur: BoardState, n: nat)
    requires Consistent(cur) && n <= 4
    ensures var r := NewCorners(cur, n);
      && Consistent(r) && Keeps(cur, r)
      && r.area == cur.area && r.shrinks == cur.shrinks && r.playingSize == cur.playingSize
      && (forall i :: 0 <= i < n ==> CornersOf(cur.shrinks)[i] in r.grid && r.grid[CornersOf(cur.shrinks)[i]] == Corner)
      && (forall p :: p in cur.grid && p !in CornersOf(cur.shrinks) && !cur.grid[p].Stone? ==> r.grid[p] == cur.grid[p])
  {
    if n > 0 {
      NewCornersKeeps(cur, n - 1);
      var r0 := NewCorners(cur, n - 1);
      var c := CornersOf(cur.shrinks)[n - 1];
      NewCornerKeeps(r0, c);
      KeepsTrans(cur, r0, NewCorner(r0, c));
    }
  }

  // ------------------------------------------------------------------ shrink

  /** The ring loop over all of ring `s` removes exactly the ring from a square region. */
  lemma RingSquares(p: Pos, s: int)
    requires 0 <= s <= 1
    ensures InSquare(p, s) && !VisitedBy(p, s, 8 - 2 * s) <==> InSquare(p, s + 1)
    ensures InSquare(p, s + 1) ==> !OnRing(p, s)
  {
  }

  /** The squares in play are exactly the square region of level `s`. */
  ghost predicate AreaIsSquare(r: BoardState, s: int)
  {
    forall p :: p in r.area <==> InSquare(p, s)
  }

  /** What the ring loop leaves: a consistent board with the same bookkeeping,
    * and in play the squares the loop did not visit. */
  ghost predicate RingDone(st: BoardState, r1: BoardState)
  {
    && Consistent(r1) && Keeps(st, r1)
    && r1.shrinks == st.shrinks && r1.playingSize == st.playingSize
    && AreaAfter(r1, st, st.shrinks, 8 - 2 * st.shrinks)
  }

  lemma RingLoop(st: BoardState)
    requires Consistent(st) && 0 <= st.shrinks <= 1
    ensures RingDone(st, RingUpTo(st, st.shrinks, 8 - 2 * st.shrinks))
  {
    RingUpToKeeps(st, st.shrinks, 8 - 2 * st.shrinks);
  }

  /** Taking the visited squares out of a square region leaves the next level's region. */
  lemma AreaAfterRing(st: BoardState, r1: BoardState, s: int)
    requires 0 <= s <= 1
    requires AreaIsSquare(st, s)
    requires AreaAfter(r1, st, s, 8 - 2 * s)
    ensures AreaIsSquare(r1, s + 1)
  {
    forall p ensures p in r1.area <==> InSquare(p, s + 1) {
      RingSquares(p, s);
    }
  }

  /** What blanking the old corners leaves. */
  ghost predicate OldCornersBlank(r1: BoardState, r2: BoardState, s: int)
  {
    && Consistent(r2) && Keeps(r1, r2)
    && r2.area == r1.area && r2.shrinks == r1.shrinks && r2.playingSize == r1.playingSize
    && (forall i :: 0 <= i < 4 ==> CornersOf(s)[i] in r2.grid && r2.grid[CornersOf(s)[i]] == Empty)
  }

  /** Blanking the old corners once the ring is out of play. */
  lemma ClearOld(r1: BoardState, s: int)
    requires Consistent(r1) && 0 <= s <= 1 && AreaIsSquare(r1, s + 1)
    ensures OldCornersBlank(r1, ClearCorners(r1, s, 4), s)
  {
    forall i | 0 <= i < 4 ensures CornersOf(s)[i] !in r1.area {
      assert !InSquare(CornersOf(s)[i], s + 1);
    }
    ClearCornersKeeps(r1, s, 4);
  }

  /** What the first half of shrink leaves: the next level's region in play and
    * the old corners blank. */
  ghost predicate RingCleared(st: BoardState, r2: BoardState)
  {
    && Consistent(r2) && Keeps(st, r2)
    && r2.shrinks == st.shrinks && r2.playingSize == st.playingSize
    && AreaIsSquare(r2, st.shrinks + 1)
    && (forall i :: 0 <= i < 4 ==> CornersOf(st.shrinks)[i] in r2.grid && r2.grid[CornersOf(st.shrinks)[i]] == Empty)
  }

  /** The first half of shrink: the ring loop and the blanking of the old corners. */
  lemma ShrinkRing(st: BoardState)
    requires Consistent(st) && AreaShape(st) && 0 <= st.shrinks <= 1
    ensures RingCleared(st, RingOut(st))
  {
    RingLoop(st);
    ShrinkRingFrom(st, RingUpTo(st, st.shrinks, 8 - 2 * st.shrinks));
  }

  lemma ShrinkRingFrom(st: BoardState, r1: BoardState)
    requires AreaShape(st) && 0 <= st.shrinks <= 1 && RingDone(st, r1)
    ensures RingCleared(st, ClearCorners(r1, st.shrinks, 4))
  {
    var s := st.shrinks;
    AreaAfterRing(st, r1, s);
    ClearOld(r1, s);
    KeepsTrans(st, r1, ClearCorners(r1, s, 4));
  }

  /** What the second half of shrink leaves: the level bumped and the new corners set. */
  ghost predicate NewCornersSet(r2: BoardState, r4: BoardState)
  {
    && Consistent(r4) && Keeps(r2, r4)
    && r4.area == r2.area && r4.shrinks == r2.shrinks + 1 && r4.playingSize == r2.playingSize
    && (forall i :: 0 <= i < 4 ==> CornersOf(r4.shrinks)[i] in r4.grid && r4.grid[CornersOf(r4.shrinks)[i]] == Corner)
    && (forall i :: 0 <= i < 4 && CornersOf(r2.shrinks)[i] in r2.grid && r2.grid[CornersOf(r2.shrinks)[i]] == Empty
          ==> CornersOf(r2.shrinks)[i] in r4.grid && r4.grid[CornersOf(r2.shrinks)[i]] == Empty)
  }

  /** The second half of shrink: the new level and its corners. */
  lemma ShrinkCorners(r2: BoardState)
    requires Consistent(r2) && 0 <= r2.shrinks <= 1
    ensures NewCornersSet(r2, SetCorners(r2))
  {
    NewCornersKeeps(r2.(shrinks := r2.shrinks + 1), 4);
    CornersSetFrom(r2, NewCorners(r2.(shrinks := r2.shrinks + 1), 4));
  }

  lemma CornersSetFrom(r2: BoardState, r4: BoardState)
    requires 0 <= r2.shrinks <= 1
    requires Consistent(r4) && Keeps(r2.(shrinks := r2.shrinks + 1), r4)
    requires r4.area == r2.area && r4.shrinks == r2.shrinks + 1 && r4.playingSize == r2.playingSize
    requires forall i :: 0 <= i < 4 ==> CornersOf(r4.shrinks)[i] in r4.grid && r4.grid[CornersOf(r4.shrinks)[i]] == Corner
    requires forall p :: p in r2.grid && p !in CornersOf(r4.shrinks) && !r2.grid[p].Stone? ==> r4.grid[p] == r2.grid[p]
    ensures NewCornersSet(r2, r4)
  {
    forall i | 0 <= i < 4 ensures CornersOf(r2.shrinks)[i] !in CornersOf(r2.shrinks + 1) {
    }
  }

  /** What shrink does to `st`, giving `r`: ring `s` leaves play, the old
    * corners are blanked, the new corners are set, every piece keyed on the
    * ring or on a new corner is dead, no piece comes back, and the board stays
    * consistent. */
  ghost predicate ShrinkOutcome(st: BoardState, r: BoardState)
  {
    && Consistent(r) && AreaShape(r) && Keeps(st, r)
    && r.shrinks == st.shrinks + 1 && r.playingSize == st.playingSize - 2
    && (forall p :: p in r.area <==> p in st.area && !OnRing(p, st.shrinks))
    && (forall i :: 0 <= i < 4 ==> CornersOf(st.shrinks)[i] in r.grid && r.grid[CornersOf(st.shrinks)[i]] == Empty)
    && (forall i :: 0 <= i < 4 ==> CornersOf(r.shrinks)[i] in r.grid && r.grid[CornersOf(r.shrinks)[i]] == Corner)
    && (forall side: Side, k :: k in r.Team(side) && (OnRing(k, st.shrinks) || k in CornersOf(r.shrinks))
          ==> !r.pieces[r.Team(side)[k]].alive)
  }

  /** shrink on a consistent board whose play area is the square of its level. */
  lemma ShrinkEffect(st: BoardState)
    requires Consistent(st) && AreaShape(st) && 0 <= st.shrinks <= 1
    ensures ShrinkOutcome(st, Shrink(st))
  {
    ShrinkRing(st);
    var r2 := RingOut(st);
    ShrinkCorners(r2);
    var r4 := SetCorners(r2);
    ShrinkFinish(st, r2, r4);
    assert Shrink(st) == r4.(playingSize := st.playingSize - 2);
  }

  /** From the two halves of shrink, the state it returns. */
  lemma ShrinkFinish(st: BoardState, r2: BoardState, r4: BoardState)
    requires AreaShape(st) && 0 <= st.shrinks <= 1
    requires RingCleared(st, r2) && NewCornersSet(r2, r4)
    ensures ShrinkOutcome(st, r4.(playingSize := st.playingSize - 2))
  {
    var r := r4.(playingSize := st.playingSize - 2);
    KeepsTrans(st, r2, r4);
    FinishArea(st, r2, r4);
    FinishDead(st, r2, r4);
    ResizedBoard(r4, st.playingSize - 2);
  }

  /** playing_size is bookkeeping only: changing it keeps consistency. */
  lemma ResizedBoard(r: BoardState, n: int)
    requires Consistent(r)
    ensures Consistent(r.(playingSize := n))
  {
    var u := r.(playingSize := n);
    assert u.white == r.white && u.black == r.black && u.pieces == r.pieces;
    assert u.grid == r.grid && u.area == r.area;
  }

  lemma FinishArea(st: BoardState, r2: BoardState, r4: BoardState)
    requires 0 <= st.shrinks <= 1
    requires AreaIsSquare(r2, st.shrinks + 1) && r4.area == r2.area
    requires AreaShape(st) && r4.shrinks == st.shrinks + 1
    ensures AreaShape(r4)
    ensures forall p :: p in r4.area <==> p in st.area && !OnRing(p, st.shrinks)
  {
    forall p ensures p in r4.area <==> p in st.area && !OnRing(p, st.shrinks) {
      RingSquares(p, st.shrinks);
    }
  }

  lemma FinishDead(st: BoardState, r2: BoardState, r4: BoardState)
    requires 0 <= st.shrinks <= 1
    requires Consistent(r4) && AreaIsSquare(r4, st.shrinks + 1) && r4.shrinks == st.shrinks + 1
    requires forall i :: 0 <= i < 4 ==> CornersOf(r4.shrinks)[i] in r4.grid && r4.grid[CornersOf(r4.shrinks)[i]] == Corner
    ensures forall side: Side, k :: k in r4.Team(side) && (OnRing(k, st.shrinks) || k in CornersOf(r4.shrinks))
              ==> !r4.pieces[r4.Team(side)[k]].alive
  {
    var s := st.shrinks;
    forall side: Side, k | k in r4.Team(side) && r4.pieces[r4.Team(side)[k]].alive
      ensures !OnRing(k, s) && k !in CornersOf(r4.shrinks)
    {
      WfTeam(r4, side);
      assert TeamAgrees(r4, r4.Team(side), side) by {
        if side == White { assert r4.Team(side) == r4.white; } else { assert r4.Team(side) == r4.black; }
      }
      RingSquares(k, s);
    }
  }

  // ------------------------------------------------- count_outside

  /** On a consistent board, count_outside(s) counts exactly the pieces
    * get_border_pieces(s) returns: the grid scan and the dictionary scan agree. */
  lemma OutsideIsBorder(st: BoardState, side: Side)
    requires Consistent(st) && AreaShape(st)
    ensures OutsideCells(st, side) == BorderPieces(st, side).Keys
    ensures |OutsideCells(st, side)| == |BorderPieces(st, side)|
  {
    WfTeam(st, side);
    assert TeamAgrees(st, st.Team(side), side) by {
      if side == White { assert st.Team(side) == st.white; } else { assert st.Team(side) == st.black; }
    }
    forall p ensures p in OutsideCells(st, side) <==> p in BorderPieces(st, side) {
      if p in BorderPieces(st, side) {
        assert p in st.area;
        assert (p.0, p.1) in OutsideCells(st, side);
      }
      if p in OutsideCells(st, side) {
        assert p in st.area;
        assert st.grid[p] == Stone(side);
      }
    }
  }

  // ---------------------------------------------------- the initial board

  /** The board __init__ builds is consistent, its play area is the whole
    * 8x8 square without repeats, and only the four original corners are marked. */
  lemma InitialBoardShape()
    ensures Consistent(InitialBoard()) && AreaShape(InitialBoard()) && GridFull(InitialBoard())
    ensures forall p :: p in InitialBoard().area <==> InBoard(p)
    ensures forall p :: InBoard(p) ==> InitialBoard().grid[p] == (if p in OriginalCorners then Corner else Empty)
  {
    var a := InitialArea();
    forall p | InBoard(p) ensures p in a {
      assert a[p.0 + 8 * p.1] == p;
    }
    forall i, j | 0 <= i < j < |a| ensures a[i] != a[j] {
      assert a[i] == (i % 8, i / 8) && a[j] == (j % 8, j / 8);
    }
  }
}
