/**
 * Properties of the read-only queries of the engine: check_win, starting_zone,
 * listmoves and the capture test of check_eliminated.
 */
module QueryProps {
  import opened Rules
  import opened BoardModel

  // ------------------------------------------------------------ check_win

  /** check_win in terms of the two live counts, from the side asking. */
  lemma CheckWinMeaning(st: BoardState, c: Side)
    requires Wf(st)
    ensures var own := |LiveKeys(st, c)|;
      var foe := |LiveKeys(st, Opponent(c))|;
      && (CheckWin(st, c) == Win <==> own >= 2 && foe < 2)
      && (CheckWin(st, c) == Loss <==> own < 2 && foe >= 2)
      && (CheckWin(st, c) == Tie <==> own < 2 && foe < 2)
      && (CheckWin(st, c) == Continue <==> own >= 2 && foe >= 2)
  {
  }

  /** One side wins exactly when the other loses; ties and unfinished games
    * are seen alike by both. */
  lemma CheckWinSymmetric(st: BoardState, c: Side)
    requires Wf(st)
    ensures CheckWin(st, c) == Win <==> CheckWin(st, Opponent(c)) == Loss
    ensures CheckWin(st, c) == Tie <==> CheckWin(st, Opponent(c)) == Tie
    ensures CheckWin(st, c) == Continue <==> CheckWin(st, Opponent(c)) == Continue
  {
    CheckWinMeaning(st, c);
    CheckWinMeaning(st, Opponent(c));
  }

  // --------------------------------------------------------- starting_zone

  /** starting_zone holds exactly the squares in play that lie in the side's
    * rows and are not one of the four original corners. */
  lemma {:induction false} StartingZoneMembers(area: seq<Pos>, c: Side)
    ensures forall p :: p in StartingZone(area, c) <==> p in area && ZoneSquare(p, c)
    decreases |area|
  {
    if area != [] {
      var init := area[..|area| - 1];
      StartingZoneMembers(init, c);
      assert area == init + [area[|area| - 1]];
    }
  }

  /** starting_zone keeps the play-area order and never repeats a square. */
  lemma {:induction false} StartingZoneNoDup(area: seq<Pos>, c: Side)
    requires NoDup(area)
    ensures NoDup(StartingZone(area, c))
    decreases |area|
  {
    if area != [] {
      var init := area[..|area| - 1];
      var last := area[|area| - 1];
      assert NoDup(init);
      StartingZoneNoDup(init, c);
      StartingZoneMembers(init, c);
      assert last !in init;
      assert last !in StartingZone(init, c);
    }
  }

  /** No original corner is ever offered for placing, and every square offered
    * lies in rows 0-5 for White and 2-7 for Black. */
  lemma StartingZoneRows(area: seq<Pos>, c: Side, p: Pos)
    requires p in StartingZone(area, c)
    ensures p !in OriginalCorners
    ensures c == White ==> 0 <= p.1 <= 5
    ensures c == Black ==> 2 <= p.1 <= 7
  {
    StartingZoneMembers(area, c);
  }

  // -------------------------------------------------------- check_eliminated

  /** check_eliminated kills exactly when the piece is out of play or hemmed in
    * along one axis by hostile squares in play; a kill blanks its cell and
    * clears its flag and nothing else, and no kill changes nothing. */
  lemma CheckEliminatedEffect(st: BoardState, h: Handle)
    requires Wf(st) && h < |st.pieces|
    ensures var r := CheckEliminated(st, h);
      var p := st.pieces[h].pos;
      && (r.1 <==> (|| p !in st.area
                    || (Step(p, Up) in st.area && Step(p, Down) in st.area
                        && Hostile(st.pieces[h].player, st.grid[Step(p, Up)])
                        && Hostile(st.pieces[h].player, st.grid[Step(p, Down)]))
                    || (Step(p, Left) in st.area && Step(p, Right) in st.area
                        && Hostile(st.pieces[h].player, st.grid[Step(p, Left)])
                        && Hostile(st.pieces[h].player, st.grid[Step(p, Right)]))))
      && (!r.1 ==> r.0 == st)
      && (r.1 ==> && r.0.pieces == st.pieces[h := st.pieces[h].(alive := false)]
                  && (p in st.grid ==> r.0.grid == st.grid[p := Empty])
                  && (p !in st.grid ==> r.0.grid == st.grid)
                  && r.0.area == st.area && r.0.white == st.white && r.0.black == st.black)
  {
  }

  /** A capture needs both squares of one axis: a piece in play with a free
    * square on each axis is never captured. */
  lemma NotCapturedWhenOpen(st: BoardState, h: Handle, a: Pos, b: Pos)
    requires Wf(st) && h < |st.pieces| && st.pieces[h].pos in st.area
    requires a == Step(st.pieces[h].pos, Up) || a == Step(st.pieces[h].pos, Down)
    requires b == Step(st.pieces[h].pos, Left) || b == Step(st.pieces[h].pos, Right)
    requires Free(st, a) && Free(st, b)
    ensures !CheckEliminated(st, h).1
  {
  }

  // ------------------------------------------------------------- listmoves

  /** The squares listmoves may offer from `pos`: a free neighbour, or the
    * free square beyond a neighbour that is not free. */
  ghost predicate Reach(st: BoardState, pos: Pos, d: Pos, m: Pos)
    requires Wf(st)
  {
    Free(st, m) && (m == Step(pos, d) || (!Free(st, Step(pos, d)) && m == Step(Step(pos, d), d)))
  }

  ghost predicate Reachable(st: BoardState, pos: Pos, m: Pos)
    requires Wf(st)
  {
    Reach(st, pos, Up, m) || Reach(st, pos, Down, m) || Reach(st, pos, Left, m) || Reach(st, pos, Right, m)
  }

  /** `m` is offered along one of the first `n` directions. */
  ghost predicate ReachIn(st: BoardState, pos: Pos, n: nat, m: Pos)
    requires Wf(st) && n <= 4
  {
    exists j :: 0 <= j < n && Reach(st, pos, Directions[j], m)
  }

  /** A square the flag sets aside as a backup rather than a move. */
  predicate Held(st: BoardState, exclude: bool, m: Pos)
  {
    exclude && OnRing(m, st.shrinks)
  }

  /** What the first `n` passes of listmoves collect: every reachable square
    * along those directions, as a move unless the flag holds it back, in
    * which case the backup is set. */
  ghost predicate ScanOk(st: BoardState, pos: Pos, exclude: bool, n: nat, sc: Scan)
    requires Wf(st) && n <= 4
  {
    && |sc.moves| <= n
    && (forall m :: m in sc.moves ==> ReachIn(st, pos, n, m) && !Held(st, exclude, m))
    && (forall m :: ReachIn(st, pos, n, m) && !Held(st, exclude, m) ==> m in sc.moves)
    && (sc.backup.Some? ==> ReachIn(st, pos, n, sc.backup.value) && Held(st, exclude, sc.backup.value))
    && ((exists m :: ReachIn(st, pos, n, m) && Held(st, exclude, m)) ==> sc.backup.Some?)
  }

  /** The square one pass of listmoves reaches in direction `d`, if any. */
  function Target(st: BoardState, pos: Pos, d: Pos): (t: Option<Pos>)
    requires Wf(st)
  {
    var adj := Step(pos, d);
    if Free(st, adj) then Some(adj)
    else if Free(st, Step(adj, d)) then Some(Step(adj, d))
    else None
  }

  lemma TargetReach(st: BoardState, pos: Pos, d: Pos, m: Pos)
    requires Wf(st)
    ensures Reach(st, pos, d, m) <==> Target(st, pos, d) == Some(m)
  {
  }

  /** One pass of listmoves: the reached square becomes a move, or the backup
    * when the flag holds it back. */
  lemma ScanDirForm(st: BoardState, pos: Pos, exclude: bool, d: Pos, acc: Scan)
    requires Wf(st)
    ensures var t := Target(st, pos, d);
      ScanDir(st, pos, exclude, d, acc) ==
        if t.None? then acc
        else if Held(st, exclude, t.value) then acc.(backup := t)
        else acc.(moves := acc.moves + [t.value])
  {
  }

  /** One more pass of listmoves' loop keeps ScanOk. */
  lemma ScanDirStep(st: BoardState, pos: Pos, exclude: bool, n: nat, acc: Scan)
    requires Wf(st) && 0 < n <= 4 && ScanOk(st, pos, exclude, n - 1, acc)
    ensures ScanOk(st, pos, exclude, n, ScanDir(st, pos, exclude, Directions[n - 1], acc))
  {
    var d := Directions[n - 1];
    var t := Target(st, pos, d);
    ScanDirForm(st, pos, exclude, d, acc);
    forall m ensures ReachIn(st, pos, n, m) <==> ReachIn(st, pos, n - 1, m) || t == Some(m) {
      TargetReach(st, pos, d, m);
    }
  }

  lemma {:induction false} ScanDirsFacts(st: BoardState, pos: Pos, exclude: bool, n: nat)
    requires Wf(st) && n <= 4
    ensures ScanOk(st, pos, exclude, n, ScanDirs(st, pos, exclude, n))
  {
    if n > 0 {
      ScanDirsFacts(st, pos, exclude, n - 1);
      ScanDirStep(st, pos, exclude, n, ScanDirs(st, pos, exclude, n - 1));
    }
  }

  /** listmoves offers at most four squares, each free and reached by a step or
    * a jump over a square that is not free. */
  lemma ListMovesSound(st: BoardState, pos: Pos, exclude: bool)
    requires Wf(st)
    ensures |ListMoves(st, pos, exclude)| <= 4
    ensures forall m :: m in ListMoves(st, pos, exclude) ==> Reachable(st, pos, m)
  {
    ScanDirsFacts(st, pos, exclude, 4);
    forall m | ReachIn(st, pos, 4, m) ensures Reachable(st, pos, m) {
      var j :| 0 <= j < 4 && Reach(st, pos, Directions[j], m);
    }
  }

  /** Without the flag, listmoves offers every reachable square. */
  lemma ListMovesComplete(st: BoardState, pos: Pos)
    requires Wf(st)
    ensures forall m :: m in ListMoves(st, pos, false) <==> Reachable(st, pos, m)
  {
    ScanDirsFacts(st, pos, false, 4);
    ListMovesSound(st, pos, false);
    forall m | Reachable(st, pos, m) ensures ReachIn(st, pos, 4, m) {
      if Reach(st, pos, Up, m) { assert Reach(st, pos, Directions[0], m); }
      else if Reach(st, pos, Down, m) { assert Reach(st, pos, Directions[1], m); }
      else if Reach(st, pos, Left, m) { assert Reach(st, pos, Directions[2], m); }
      else { assert Reach(st, pos, Directions[3], m); }
    }
  }

  /** With the flag, a ring square is offered only when nothing else is, and
    * then alone; every reachable square off the ring is still offered, and the
    * result is empty only when nothing at all is reachable. */
  lemma ListMovesExclude(st: BoardState, pos: Pos)
    requires Wf(st)
    ensures var ms := ListMoves(st, pos, true);
      && (forall m :: m in ms && OnRing(m, st.shrinks) ==> ms == [m])
      && (forall m :: Reachable(st, pos, m) && !OnRing(m, st.shrinks) ==> m in ms)
      && (ms == [] ==> forall m :: !Reachable(st, pos, m))
  {
    ScanDirsFacts(st, pos, true, 4);
    forall m | Reachable(st, pos, m) ensures ReachIn(st, pos, 4, m) {
      if Reach(st, pos, Up, m) { assert Reach(st, pos, Directions[0], m); }
      else if Reach(st, pos, Down, m) { assert Reach(st, pos, Directions[1], m); }
      else if Reach(st, pos, Left, m) { assert Reach(st, pos, Directions[2], m); }
      else { assert Reach(st, pos, Directions[3], m); }
    }
  }
}
