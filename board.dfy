/**
 * Board and Piece of watchyourback.py as they run: a class whose fields are
 * the grid, the play area list, the shrink counter, the playing size and the
 * two team dictionaries, updated in place. A Python Piece only reaches the
 * board through its `board` field, so its methods (check_eliminated,
 * resurrect, eliminate_surrounding, make_move, undo_move, listmoves) are
 * methods of Board here that take the piece's handle into the arena.
 *
 * Every method is proved to leave exactly the state the matching function
 * of BoardModel computes from the old state; what those functions do is
 * proved in BoardProps, QueryProps and ShrinkProps.
 */
module Engine {
  import opened Rules
  import opened BoardModel

  class Board {
    var grid: map<Pos, Cell>
    var playingArea: seq<Pos>
    var playingSize: int
    var numOfShrinks: int
    var pieces: seq<Piece>
    var whitePieces: map<Pos, Handle>
    var blackPieces: map<Pos, Handle>

    /** The board as a value. */
    function Abs(): BoardState
      reads this
    {
      BoardState(grid, playingArea, playingSize, numOfShrinks, pieces, whitePieces, blackPieces)
    }

    /** Every square of the board has a cell, every dictionary entry names a
      * piece of its side, and the shrink counter is not negative. */
    ghost predicate Valid()
      reads this
    {
      Wf(Abs()) && GridFull(Abs()) && numOfShrinks >= 0
    }

    /** __init__(8): all 64 squares empty and in play, row by row, then the four corners. */
    constructor ()
      ensures Valid() && Abs() == InitialBoard()
    {
      var g: map<Pos, Cell> := map[];
      var area: seq<Pos> := [];
      var y := 0;
      while y < 8
        invariant 0 <= y <= 8
        invariant area == InitialArea()[..8 * y]
        invariant forall p :: p in g <==> p in area
        invariant forall p :: p in g ==> g[p] == Empty
      {
        var x := 0;
        while x < 8
          invariant 0 <= x <= 8
          invariant area == InitialArea()[..8 * y + x]
          invariant forall p :: p in g <==> p in area
          invariant forall p :: p in g ==> g[p] == Empty
        {
          assert InitialArea()[8 * y + x] == (x, y);
          assert InitialArea()[..8 * y + x + 1] == InitialArea()[..8 * y + x] + [(x, y)];
          g := g[(x, y) := Empty];
          area := area + [(x, y)];
          x := x + 1;
        }
        y := y + 1;
      }
      assert area == InitialArea();
      var corners := [(0, 0), (0, 7), (7, 0), (7, 7)];
      var i := 0;
      while i < 4
        invariant 0 <= i <= 4
        invariant forall p :: p in g <==> p in area
        invariant forall p :: p in g ==> g[p] == if p in corners[..i] then Corner else Empty
      {
        assert corners[..i + 1] == corners[..i] + [corners[i]];
        assert InitialArea()[corners[i].0 + 8 * corners[i].1] == corners[i];
        g := g[corners[i] := Corner];
        i := i + 1;
      }
      assert corners[..4] == corners;
      InitialGrid(g, corners);
      grid := g;
      playingArea := area;
      playingSize := 8;
      numOfShrinks := 0;
      pieces := [];
      whitePieces := map[];
      blackPieces := map[];
      new;
      forall p | InBoard(p) ensures p in grid {
        assert InitialArea()[p.0 + 8 * p.1] == p;
      }
    }

    // ------------------------------------------------------------ queries

    /** starting_zone(c): the squares of the play area, in order, that c may place on. */
    method StartingZone(c: Side) returns (zone: seq<Pos>)
      requires Valid()
      ensures zone == BoardModel.StartingZone(playingArea, c)
    {
      zone := [];
      var i := 0;
      while i < |playingArea|
        invariant 0 <= i <= |playingArea|
        invariant zone == BoardModel.StartingZone(playingArea[..i], c)
      {
        var p := playingArea[i];
        if p !in [(0, 0), (0, 7), (7, 0), (7, 7)] {
          if c == White {
            if 0 <= p.1 < 6 {
              zone := zone + [p];
            }
          } else {
            if 2 <= p.1 < 8 {
              zone := zone + [p];
            }
          }
        }
        assert playingArea[..i + 1][..i] == playingArea[..i];
        i := i + 1;
      }
      assert playingArea[..i] == playingArea;
    }

    /** The dictionary of side c. */
    function TeamOf(c: Side): (m: map<Pos, Handle>)
      reads this
      ensures m == Abs().Team(c)
    {
      if c == White then whitePieces else blackPieces
    }

    /** get_alive(c): the entries of c's dictionary whose piece is alive. */
    method GetAlive(c: Side) returns (d: map<Pos, Handle>)
      requires Valid()
      ensures d == AliveMap(Abs(), c)
    {
      var team := TeamOf(c);
      WfTeam(Abs(), c);
      var todo := team.Keys;
      d := map[];
      while todo != {}
        invariant todo <= team.Keys
        invariant d == map k | k in team.Keys - todo && pieces[team[k]].alive :: team[k]
        decreases todo
      {
        var k :| k in todo;
        if pieces[team[k]].alive {
          d := d[k := team[k]];
        }
        todo := todo - {k};
      }
    }

    /** get_border_pieces(c): the live entries of c on the outer ring or on a
      * corner of the next level. */
    method GetBorderPieces(c: Side) returns (d: map<Pos, Handle>)
      requires Valid()
      ensures d == BorderPieces(Abs(), c)
    {
      var s := numOfShrinks;
      var team := TeamOf(c);
      WfTeam(Abs(), c);
      var todo := team.Keys;
      d := map[];
      while todo != {}
        invariant todo <= team.Keys
        invariant forall k :: k in d <==> k in team && k !in todo && pieces[team[k]].alive && Doomed(k, s)
        invariant forall k :: k in d ==> d[k] == team[k]
        decreases todo
      {
        var k :| k in todo;
        DoomedSquare(k, s);
        if pieces[team[k]].alive {
          if k.0 == s || k.0 == 7 - s || k.1 == s || k.1 == 7 - s {
            d := d[k := team[k]];
          } else if (k.0 == s + 1 && k.1 == s + 1) || (k.0 == s + 1 && k.1 == 6 - s)
                 || (k.0 == 6 - s && k.1 == s + 1) || (k.0 == 6 - s && k.1 == 6 - s) {
            d := d[k := team[k]];
          }
        }
        todo := todo - {k};
      }
    }

    /** count_outside(c): the squares of the current region, doomed at the
      * next shrink, that show c's marker. */
    method CountOutside(c: Side) returns (count: nat)
      requires Valid()
      ensures count == |OutsideCells(Abs(), c)|
    {
      var s := numOfShrinks;
      ghost var st := Abs();
      count := 0;
      var i := s;
      while i < 8 - s
        invariant s <= i && (s <= 8 - s ==> i <= 8 - s)
        invariant count == |OutsideBefore(st, c, i, s)|
      {
        var j := s;
        while j < 8 - s
          invariant s <= j <= 8 - s
          invariant count == |OutsideBefore(st, c, i, j)|
        {
          assert InBoard((i, j));
          var hit := false;
          if (i == s || i == 7 - s || j == s || j == 7 - s) && grid[(i, j)] == Stone(c) {
            hit := true;
          } else if ((i == s + 1 && j == s + 1) || (i == s + 1 && j == 6 - s)
                     || (i == 6 - s && j == s + 1) || (i == 6 - s && j == 6 - s))
                    && grid[(i, j)] == Stone(c) {
            hit := true;
          }
          DoomedSquare((i, j), s);
          OutsideStep(st, c, i, j, hit);
          if hit {
            count := count + 1;
          }
          j := j + 1;
        }
        OutsideRow(st, c, i);
        i := i + 1;
      }
      OutsideAll(st, c, i);
    }

    // ------------------------------------------------------ single updates

    /** remove_piece: blank the cell, if the grid has one. */
    method RemovePiece(pos: Pos)
      requires Valid()
      modifies this
      ensures Valid() && Abs() == BoardModel.RemovePiece(old(Abs()), pos)
    {
      if pos in grid {
        grid := grid[pos := Empty];
      }
    }

    /** update_team: move c's entry from oldpos to newpos. */
    method UpdateTeam(c: Side, newpos: Pos, oldpos: Pos)
      requires Valid() && oldpos in Abs().Team(c)
      modifies this
      ensures Valid() && Abs() == BoardModel.UpdateTeam(old(Abs()), c, newpos, oldpos)
    {
      if c == White {
        whitePieces := whitePieces[newpos := whitePieces[oldpos]];
        whitePieces := whitePieces - {oldpos};
      } else {
        blackPieces := blackPieces[newpos := blackPieces[oldpos]];
        blackPieces := blackPieces - {oldpos};
      }
    }

    /** The removal check_eliminated performs: the cell is blanked and the piece dies. */
    method Kill(h: Handle)
      requires Valid() && h < |pieces|
      modifies this
      ensures Valid() && Abs() == BoardModel.Kill(old(Abs()), h)
    {
      RemovePiece(pieces[h].pos);
      pieces := pieces[h := pieces[h].(alive := false)];
    }

    /** Piece.check_eliminated: out of play, or sandwiched on one axis. */
    method CheckEliminated(h: Handle) returns (dead: bool)
      requires Valid() && h < |pieces|
      modifies this
      ensures Valid() && (Abs(), dead) == BoardModel.CheckEliminated(old(Abs()), h)
    {
      var me := pieces[h];
      if me.pos !in playingArea {
        Kill(h);
        return true;
      }
      var axes := [(Up, Down), (Left, Right)];
      var i := 0;
      while i < 2
        invariant 0 <= i <= 2
        invariant Abs() == old(Abs())
        invariant forall k :: 0 <= k < i ==> !Sandwiched(Abs(), h, axes[k].0, axes[k].1)
      {
        var front := Step(me.pos, axes[i].0);
        var back := Step(me.pos, axes[i].1);
        if front in playingArea && back in playingArea {
          if Hostile(me.player, grid[front]) && Hostile(me.player, grid[back]) {
            assert Sandwiched(Abs(), h, axes[i].0, axes[i].1);
            Kill(h);
            return true;
          }
        }
        i := i + 1;
      }
      assert axes[0] == (Up, Down) && axes[1] == (Left, Right);
      return false;
    }

    /** Piece.resurrect: the marker goes back on the piece's square and it lives. */
    method Resurrect(h: Handle)
      requires Valid() && h < |pieces|
      modifies this
      ensures Valid() && Abs() == BoardModel.Resurrect(old(Abs()), h)
    {
      var p := pieces[h];
      grid := grid[p.pos := Stone(p.player)];
      pieces := pieces[h := p.(alive := true)];
    }

    /** Piece.eliminate_surrounding: the enemy neighbours, then the piece itself. */
    method EliminateSurrounding(h: Handle) returns (eliminated: seq<Handle>)
      requires Valid() && h < |pieces|
      modifies this
      ensures Valid() && (Abs(), eliminated) == BoardModel.EliminateSurrounding(old(Abs()), h)
    {
      var me := pieces[h];
      var foe := Opponent(me.player);
      eliminated := [];
      var i := 0;
      while i < 4
        invariant 0 <= i <= 4 && Valid() && |pieces| == |old(pieces)|
        invariant (Abs(), eliminated) == ElimNeighbours(old(Abs()), h, i)
        invariant pieces[h].pos == me.pos && pieces[h].player == me.player
      {
        var enemyPieces := TeamOf(foe);
        var adj := Step(me.pos, Directions[i]);
        if adj in playingArea && grid[adj] == Stone(foe) && adj in enemyPieces {
          WfTeam(Abs(), foe);
          var e := enemyPieces[adj];
          var dead := CheckEliminated(e);
          if dead {
            eliminated := eliminated + [e];
          }
        }
        i := i + 1;
      }
      var selfDead := CheckEliminated(h);
      if selfDead {
        eliminated := eliminated + [h];
      }
    }

    // ----------------------------------------------------------- placing

    /** place_piece: on a square in play that is empty, a new live piece of c
      * is keyed there and its captures are made; None otherwise. */
    method PlacePiece(c: Side, pos: Pos) returns (r: Option<seq<Handle>>)
      requires Valid()
      modifies this
      ensures Valid() && (Abs(), r) == BoardModel.PlacePiece(old(Abs()), c, pos)
    {
      if pos in playingArea {
        if grid[pos] == Empty {
          var h := |pieces|;
          pieces := pieces + [Piece(c, pos, true)];
          if c == White {
            whitePieces := whitePieces[pos := h];
          } else {
            blackPieces := blackPieces[pos := h];
          }
          grid := grid[pos := Stone(c)];
          assert Abs() == AddPiece(old(Abs()), c, pos);
          var e := EliminateSurrounding(h);
          return Some(e);
        }
      }
      return None;
    }

    /** `for piece in eliminated: piece.resurrect()`. */
    method ResurrectAll(eliminated: seq<Handle>)
      requires Valid() && Handles(Abs(), eliminated)
      modifies this
      ensures Valid() && Abs() == BoardModel.ResurrectAll(old(Abs()), eliminated)
    {
      var i := 0;
      while i < |eliminated|
        invariant 0 <= i <= |eliminated| && Valid() && |pieces| == |old(pieces)|
        invariant Handles(old(Abs()), eliminated[..i])
        invariant Abs() == BoardModel.ResurrectAll(old(Abs()), eliminated[..i])
      {
        assert eliminated[..i + 1][..i] == eliminated[..i];
        Resurrect(eliminated[i]);
        i := i + 1;
      }
      assert eliminated[..i] == eliminated;
    }

    /** undo_place: resurrect what the placement eliminated, blank the square
      * and drop its entry from c's dictionary. */
    method UndoPlace(c: Side, pos: Pos, eliminated: seq<Handle>)
      requires Valid() && Handles(Abs(), eliminated)
      modifies this
      ensures Valid() && Abs() == BoardModel.UndoPlace(old(Abs()), c, pos, eliminated)
    {
      ResurrectAll(eliminated);
      RemovePiece(pos);
      ghost var s2 := Abs();
      // `if pos in pieces: del pieces[pos]` is removal of the key when present
      if c == White {
        whitePieces := whitePieces - {pos};
      } else {
        blackPieces := blackPieces - {pos};
      }
      assert Abs() == s2.WithTeam(c, s2.Team(c) - {pos});
    }

    // ------------------------------------------------------------ moving

    /** Piece.listmoves(exclude): per direction a step, else a jump, onto an
      * empty square in play; with `exclude`, ring squares only as a fallback. */
    method ListMoves(h: Handle, exclude: bool) returns (moves: seq<Pos>)
      requires Valid() && h < |pieces|
      ensures moves == BoardModel.ListMoves(Abs(), pieces[h].pos, exclude)
    {
      var pos := pieces[h].pos;
      var s := numOfShrinks;
      var backup: Option<Pos> := None;
      moves := [];
      var i := 0;
      while i < 4
        invariant 0 <= i <= 4
        invariant Scan(moves, backup) == ScanDirs(Abs(), pos, exclude, i)
      {
        var d := Directions[i];
        ghost var before := Scan(moves, backup);
        var adj := Step(pos, d);
        if adj in playingArea && grid[adj] == Empty {
          if exclude && (adj.0 == s || adj.0 == 7 - s || adj.1 == s || adj.1 == 7 - s) {
            backup := Some(adj);
          } else {
            moves := moves + [adj];
          }
        } else {
          var jump := Step(adj, d);
          if jump in playingArea && grid[jump] == Empty {
            if exclude && (jump.0 == s || jump.0 == 7 - s || jump.1 == s || jump.1 == 7 - s) {
              backup := Some(jump);
            } else {
              moves := moves + [jump];
            }
          }
        }
        assert Scan(moves, backup) == ScanDir(Abs(), pos, exclude, d, before);
        i := i + 1;
      }
      if |moves| == 0 && backup.Some? {
        moves := moves + [backup.value];
      }
    }

    /** Piece.make_move: relocate, re-key, then eliminate_surrounding. */
    method MakeMove(h: Handle, newpos: Pos) returns (eliminated: seq<Handle>)
      requires Valid() && h < |pieces| && pieces[h].pos in Abs().Team(pieces[h].player)
      modifies this
      ensures Valid() && (Abs(), eliminated) == BoardModel.MakeMove(old(Abs()), h, newpos)
    {
      var me := pieces[h];
      var oldpos := me.pos;
      pieces := pieces[h := me.(pos := newpos)];
      grid := grid[oldpos := Empty];
      grid := grid[newpos := Stone(me.player)];
      UpdateTeam(me.player, newpos, oldpos);
      assert Abs() == Relocate(old(Abs()), h, newpos);
      eliminated := EliminateSurrounding(h);
    }

    /** Piece.undo_move, with the entry moved back from the square the piece
      * stood on (see UndoMoveAsWritten for the code as written). */
    method UndoMove(h: Handle, oldpos: Pos, eliminated: seq<Handle>)
      requires Valid() && h < |pieces| && Handles(Abs(), eliminated)
      modifies this
      ensures Valid() && Abs() == BoardModel.UndoMove(old(Abs()), h, oldpos, eliminated)
    {
      var newpos := pieces[h].pos;
      var c := pieces[h].player;
      MoveBack(h, oldpos, eliminated);
      var team := TeamOf(c);
      if newpos in team && team[newpos] == h {
        UpdateTeam(c, oldpos, newpos);
      } else {
        InsertEntry(c, oldpos, h);
      }
    }

    /** The first half of undo_move: resurrect the eliminated pieces, blank the
      * square the piece stands on, and put it back on `oldpos`. */
    method MoveBack(h: Handle, oldpos: Pos, eliminated: seq<Handle>)
      requires Valid() && h < |pieces| && Handles(Abs(), eliminated)
      modifies this
      ensures Valid() && Abs() == BoardModel.MoveBack(old(Abs()), h, oldpos, eliminated)
    {
      ResurrectAll(eliminated);
      var me := pieces[h];
      var newpos := me.pos;
      pieces := pieces[h := me.(pos := oldpos)];
      grid := grid[newpos := Empty];
      grid := grid[oldpos := Stone(me.player)];
    }

    /** `dictionary[oldpos] = self`: key piece `h` of side `c` at `pos`. */
    method InsertEntry(c: Side, pos: Pos, h: Handle)
      requires Valid() && h < |pieces| && pieces[h].player == c
      modifies this
      ensures Valid() && Abs() == old(Abs()).WithTeam(c, old(Abs()).Team(c)[pos := h])
    {
      if c == White {
        whitePieces := whitePieces[pos := h];
      } else {
        blackPieces := blackPieces[pos := h];
      }
    }

    // ------------------------------------------------------------ shrink

    /** get_piece: the live piece keyed at `pos`, black taking precedence. */
    method GetPiece(pos: Pos) returns (r: Option<Handle>)
      requires Valid()
      ensures r == BoardModel.GetPiece(Abs(), pos)
    {
      r := None;
      if pos in whitePieces && pieces[whitePieces[pos]].alive {
        r := Some(whitePieces[pos]);
      }
      if pos in blackPieces && pieces[blackPieces[pos]].alive {
        r := Some(blackPieces[pos]);
      }
    }

    /** One square of shrink's ring loop: if still in play, take it out of play
      * and check the white, then the black piece keyed there. */
    method VisitRing(sq: Pos)
      requires Valid()
      modifies this
      ensures Valid() && Abs() == BoardModel.VisitRing(old(Abs()), sq)
      ensures playingSize == old(playingSize)
    {
      if sq in playingArea {
        playingArea := RemoveFirst(playingArea, sq);
        ghost var s1 := Abs();
        if sq in whitePieces {
          var _ := CheckEliminated(whitePieces[sq]);
        }
        assert Abs() == (if sq in s1.white then BoardModel.CheckEliminated(s1, s1.white[sq]).0 else s1);
        if sq in blackPieces {
          var _ := CheckEliminated(blackPieces[sq]);
        }
      }
    }

    /** One direction around a new corner: a live neighbour in play is checked. */
    method CheckCornerNeighbour(c: Pos, d: Pos)
      requires Valid()
      modifies this
      ensures Valid() && Abs() == CornerNeighbour(old(Abs()), c, d)
      ensures playingSize == old(playingSize)
    {
      var adj := Step(c, d);
      if adj in playingArea {
        var w := GetAlive(White);
        if adj in w {
          var _ := CheckEliminated(whitePieces[adj]);
        } else {
          var b := GetAlive(Black);
          if adj in b {
            var _ := CheckEliminated(blackPieces[adj]);
          }
        }
      }
    }

    /** One new corner: a live piece on it dies, the cell becomes CORNER, and a
      * live neighbour in play is checked, the white one first. */
    method NewCorner(c: Pos)
      requires Valid()
      modifies this
      ensures Valid() && Abs() == BoardModel.NewCorner(old(Abs()), c)
      ensures playingSize == old(playingSize)
    {
      var aliveWhite := GetAlive(White);
      var aliveBlack := GetAlive(Black);
      var p := GetPiece(c);
      if c in aliveWhite.Keys + aliveBlack.Keys {
        var h := p.value;
        pieces := pieces[h := pieces[h].(alive := false)];
      }
      grid := grid[c := Corner];
      ghost var r2 := Abs();
      var i := 0;
      while i < 4
        invariant 0 <= i <= 4 && Valid()
        invariant Abs() == CornerNeighbours(r2, c, i) && playingSize == old(playingSize)
      {
        CheckCornerNeighbour(c, Directions[i]);
        i := i + 1;
      }
    }

    /** One pass of shrink's ring loop at `square`: (border, square) then
      * (square, border), for the near border and then the far one. The ghost
      * `visited` is the squares visited so far from board `st`. */
    method RingPass(square: int, s: int, ghost st: BoardState, ghost visited: seq<Pos>)
      requires Valid() && Wf(st) && Abs() == Visits(st, visited)
      modifies this
      ensures Valid() && Abs() == Visits(st, visited + RingQuad(s, square))
      ensures playingSize == old(playingSize)
    {
      ghost var done := visited;
      var borders := [s, 7 - s];
      var k := 0;
      while k < 2
        invariant 0 <= k <= 2
        invariant done == visited + RingQuad(s, square)[..2 * k]
        invariant Valid() && Abs() == Visits(st, done) && playingSize == old(playingSize)
      {
        var border := borders[k];
        VisitRing((border, square));
        VisitsSnoc(st, done, (border, square));
        done := done + [(border, square)];
        VisitRing((square, border));
        VisitsSnoc(st, done, (square, border));
        QuadStep(visited, s, square, k, border);
        done := done + [(square, border)];
        k := k + 1;
      }
      QuadStep(visited, s, square, 2, s);
    }

    /** The ring loop of shrink over ring `s`, square by square. */
    method RingLoop(s: int)
      requires Valid() && 0 <= s <= 1
      modifies this
      ensures Valid() && Abs() == RingUpTo(old(Abs()), s, 8 - 2 * s)
      ensures playingSize == old(playingSize)
    {
      ghost var st := Abs();
      ghost var done: seq<Pos> := [];
      var square := s;
      while square < 8 - s
        invariant s <= square <= 8 - s
        invariant done == RingOrder(s, square - s)
        invariant Valid() && Abs() == Visits(st, done) && playingSize == old(playingSize)
      {
        RingPass(square, s, st, done);
        done := done + RingQuad(s, square);
        square := square + 1;
      }
      assert done == RingOrder(s, 8 - 2 * s);
    }

    /** The old corners of ring `s` set to EMPTY. */
    method ClearOldCorners(s: int)
      requires Valid()
      modifies this
      ensures Valid() && Abs() == ClearCorners(old(Abs()), s, 4)
      ensures playingSize == old(playingSize)
    {
      ghost var r1 := Abs();
      var corners := CornersOf(s);
      var i := 0;
      while i < 4
        invariant 0 <= i <= 4 && Valid()
        invariant Abs() == ClearCorners(r1, s, i) && playingSize == old(playingSize)
      {
        grid := grid[corners[i] := Empty];
        i := i + 1;
      }
    }

    /** The first half of shrink: the ring loop, then the old corners blanked. */
    method TakeRing()
      requires Valid() && numOfShrinks <= 1
      modifies this
      ensures Valid() && Abs() == RingOut(old(Abs()))
      ensures playingSize == old(playingSize)
    {
      var s := numOfShrinks;
      RingLoop(s);
      ClearOldCorners(s);
    }

    /** The second half of shrink: the level bumped, then the new corners set
      * counterclockwise from the top left. */
    method PlaceCorners()
      requires Valid()
      modifies this
      ensures Valid() && Abs() == SetCorners(old(Abs()))
      ensures playingSize == old(playingSize)
    {
      numOfShrinks := numOfShrinks + 1;
      ghost var r3 := Abs();
      var corners := CornersOf(numOfShrinks);
      var i := 0;
      while i < 4
        invariant 0 <= i <= 4 && Valid() && corners == CornersOf(r3.shrinks)
        invariant Abs() == NewCorners(r3, i) && playingSize == old(playingSize)
      {
        NewCorner(corners[i]);
        i := i + 1;
      }
      SetCornersFrom(old(Abs()), r3);
    }

    /** shrink: take the ring out of play, blank the old corners, set the new
      * ones, and bring the playing size down by 2. Allowed twice. */
    method Shrink()
      requires Valid() && numOfShrinks <= 1
      modifies this
      ensures Valid() && Abs() == BoardModel.Shrink(old(Abs()))
    {
      TakeRing();
      PlaceCorners();
      playingSize := playingSize - 2;
    }
  }


  // ------------------------------------------- shrink's ring loop, square by square

  lemma SetCornersFrom(st: BoardState, r3: BoardState)
    requires Wf(st) && r3 == st.(shrinks := st.shrinks + 1)
    ensures NewCorners(r3, 4) == SetCorners(st)
  {
  }

  lemma VisitsSnoc(st: BoardState, q: seq<Pos>, sq: Pos)
    requires Wf(st)
    ensures Visits(st, q + [sq]) == VisitRing(Visits(st, q), sq)
  {
    assert (q + [sq])[..|q|] == q;
  }

  // ------------------------------------------- __init__ and the ring loop

  /** The grid __init__ builds, square by square, is the initial one. */
  lemma InitialGrid(g: map<Pos, Cell>, corners: seq<Pos>)
    requires corners == [(0, 0), (0, 7), (7, 0), (7, 7)]
    requires forall p :: p in g <==> p in InitialArea()
    requires forall p :: p in g ==> g[p] == if p in corners then Corner else Empty
    ensures g == InitialBoard().grid
  {
    assert forall p :: p in corners <==> p in OriginalCorners;
  }

  /** The squares one pass of the ring loop has visited after `k` borders. */
  lemma QuadStep(visited: seq<Pos>, s: int, square: int, k: int, border: int)
    requires 0 <= k <= 2 && (k < 2 ==> border == if k == 0 then s else 7 - s)
    ensures k < 2 ==> visited + RingQuad(s, square)[..2 * k] + [(border, square)] + [(square, border)]
                      == visited + RingQuad(s, square)[..2 * k + 2]
    ensures k == 2 ==> visited + RingQuad(s, square)[..4] == visited + RingQuad(s, square)
  {
    var q := RingQuad(s, square);
    if k == 0 {
      assert q[..2] == [(border, square), (square, border)];
    } else if k == 1 {
      assert q[..4] == q[..2] + [(border, square), (square, border)];
    } else {
      assert q[..4] == q;
    }
  }

  // ------------------------------------------- count_outside's loop order

  /** The squares count_outside has counted before square (i, j) of its scan. */
  ghost function OutsideBefore(st: BoardState, c: Side, i: int, j: int): set<Pos>
  {
    set p | p in OutsideCells(st, c) && (p.0 < i || (p.0 == i && p.1 < j))
  }

  lemma OutsideStep(st: BoardState, c: Side, i: int, j: int, hit: bool)
    requires 0 <= st.shrinks <= i < 8 - st.shrinks && st.shrinks <= j < 8 - st.shrinks && (i, j) in st.grid
    requires hit == (Doomed((i, j), st.shrinks) && st.grid[(i, j)] == Stone(c))
    ensures |OutsideBefore(st, c, i, j + 1)| == |OutsideBefore(st, c, i, j)| + (if hit then 1 else 0)
  {
    var a := OutsideBefore(st, c, i, j);
    var b := OutsideBefore(st, c, i, j + 1);
    assert (i, j) !in a;
    assert hit <==> (i, j) in OutsideCells(st, c);
    forall p ensures p in b <==> p in a || (hit && p == (i, j)) {
      assert p in b <==> p in OutsideCells(st, c) && (p.0 < i || (p.0 == i && p.1 < j + 1));
    }
    if hit {
      assert b == a + {(i, j)};
    } else {
      assert b == a;
    }
  }

  /** The doomed squares, as count_outside and get_border_pieces test them. */
  lemma DoomedSquare(p: Pos, s: int)
    ensures Doomed(p, s) <==>
      (p.0 == s || p.0 == 7 - s || p.1 == s || p.1 == 7 - s)
      || (p.0 == s + 1 && p.1 == s + 1) || (p.0 == s + 1 && p.1 == 6 - s)
      || (p.0 == 6 - s && p.1 == s + 1) || (p.0 == 6 - s && p.1 == 6 - s)
  {
  }

  lemma OutsideRow(st: BoardState, c: Side, i: int)
    ensures OutsideBefore(st, c, i, 8 - st.shrinks) == OutsideBefore(st, c, i + 1, st.shrinks)
  {
  }

  lemma OutsideAll(st: BoardState, c: Side, i: int)
    requires i >= 8 - st.shrinks
    ensures OutsideBefore(st, c, i, st.shrinks) == OutsideCells(st, c)
  {
  }
}
