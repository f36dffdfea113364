/**
 * The board of watchyourback.py as a value, and every operation of Board and
 * Piece as a function from the old value to the new one (and what the
 * operation returns). The class Engine.Board runs the same operations in
 * place and is proved to agree with these functions.
 *
 * Pieces live in an arena (`pieces`); a handle is an index into it, so the
 * identity of a piece survives moves, captures and resurrection exactly as
 * the Python object does. `white` and `black` are the two team dictionaries,
 * from a square to a handle.
 */
module BoardModel {
  import opened Rules

  type Handle = nat

  datatype Piece = Piece(player: Side, pos: Pos, alive: bool)

  datatype BoardState = BoardState(
    grid: map<Pos, Cell>,
    area: seq<Pos>,
    playingSize: int,
    shrinks: int,
    pieces: seq<Piece>,
    white: map<Pos, Handle>,
    black: map<Pos, Handle>)
  {
    /** The team dictionary of side `s` (white_pieces or black_pieces). */
    function Team(s: Side): map<Pos, Handle>
    {
      if s == White then white else black
    }

    function WithTeam(s: Side, m: map<Pos, Handle>): (r: BoardState)
      ensures r.Team(s) == m && r.Team(Opponent(s)) == Team(Opponent(s))
      ensures r.grid == grid && r.area == area && r.pieces == pieces
      ensures r.shrinks == shrinks && r.playingSize == playingSize
    {
      if s == White then this.(white := m) else this.(black := m)
    }
  }

  /** What every operation needs in order to read the grid and the arena:
    * every square in play has a grid entry, and every dictionary entry is a
    * handle of a piece of that dictionary's side. */
  ghost predicate Wf(st: BoardState)
  {
    && (forall p :: p in st.area ==> p in st.grid)
    && TeamOk(st.pieces, st.white, White)
    && TeamOk(st.pieces, st.black, Black)
  }

  ghost predicate TeamOk(pieces: seq<Piece>, m: map<Pos, Handle>, s: Side)
  {
    forall k :: k in m ==> m[k] < |pieces| && pieces[m[k]].player == s
  }

  lemma WfTeam(st: BoardState, s: Side)
    requires Wf(st)
    ensures TeamOk(st.pieces, st.Team(s), s)
  {
  }

  ghost predicate Handles(st: BoardState, hs: seq<Handle>)
  {
    forall i :: 0 <= i < |hs| ==> hs[i] < |st.pieces|
  }

  /** `r` differs from `st` at most in grid cells (none removed) and alive flags. */
  ghost predicate Frame(st: BoardState, r: BoardState)
  {
    && r.area == st.area && r.shrinks == st.shrinks && r.playingSize == st.playingSize
    && r.white == st.white && r.black == st.black
    && |r.pieces| == |st.pieces|
    && (forall h :: 0 <= h < |st.pieces| ==>
          r.pieces[h].player == st.pieces[h].player && r.pieces[h].pos == st.pieces[h].pos)
    && st.grid.Keys <= r.grid.Keys
  }

  lemma FrameKeepsWf(st: BoardState, r: BoardState)
    requires Wf(st) && Frame(st, r)
    ensures Wf(r)
  {
  }

  ghost predicate NoDup(s: seq<Pos>)
  {
    forall i, j :: 0 <= i < j < |s| ==> s[i] != s[j]
  }

  /** The entries of dictionary `m` (of side `s`) agree with the board: every
    * entry sits under its piece's own square, and a live piece's square is in
    * play and shows its marker. */
  ghost predicate TeamAgrees(st: BoardState, m: map<Pos, Handle>, s: Side)
    requires TeamOk(st.pieces, m, s)
  {
    forall k :: k in m ==>
      && st.pieces[m[k]].pos == k
      && (st.pieces[m[k]].alive ==> k in st.area && k in st.grid && st.grid[k] == Stone(s))
  }

  /** A square in play showing a side's marker holds a live piece of that side's dictionary. */
  ghost predicate StonesKeyed(st: BoardState)
    requires Wf(st)
  {
    forall p :: p in st.area && st.grid[p].Stone? ==>
      p in st.Team(st.grid[p].side) && st.pieces[st.Team(st.grid[p].side)[p]].alive
  }

  /** The state the engine keeps between operations when only place_piece,
    * make_move and shrink have been applied, and every undo paired with its apply. */
  ghost predicate Consistent(st: BoardState)
  {
    && Wf(st)
    && NoDup(st.area)
    && TeamAgrees(st, st.white, White)
    && TeamAgrees(st, st.black, Black)
    && StonesKeyed(st)
  }

  /** Every square of the 8x8 board has a grid entry, as __init__ leaves it. */
  ghost predicate GridFull(st: BoardState)
  {
    forall p :: InBoard(p) ==> p in st.grid
  }

  /** The squares in the order __init__ appends them: row by row, left to right. */
  function InitialArea(): (a: seq<Pos>)
    ensures |a| == 64
  {
    seq(64, i => (i % 8, i / 8))
  }

  /** The board __init__ builds: every square empty and in play, the four
    * original corners marked, no pieces, no shrink yet. */
  function InitialBoard(): BoardState
  {
    BoardState(map p | p in InitialArea() :: if p in OriginalCorners then Corner else Empty,
               InitialArea(), 8, 0, [], map[], map[])
  }

  // ---------------------------------------------------------------- queries

  /** get_piece: the live piece keyed at `pos`; a live black piece wins over a white one. */
  function GetPiece(st: BoardState, pos: Pos): (r: Option<Handle>)
    requires Wf(st)
    ensures r.Some? ==> r.value < |st.pieces| && st.pieces[r.value].alive
    ensures r.None? <==> pos !in LiveKeys(st, White) && pos !in LiveKeys(st, Black)
    ensures r.Some? ==> (pos in LiveKeys(st, Black) && r.value == st.black[pos])
                        || (pos !in LiveKeys(st, Black) && r.value == st.white[pos])
  {
    if pos in st.black && st.pieces[st.black[pos]].alive then Some(st.black[pos])
    else if pos in st.white && st.pieces[st.white[pos]].alive then Some(st.white[pos])
    else None
  }

  /** The keys of get_alive(s): dictionary entries whose piece is alive. */
  function LiveKeys(st: BoardState, s: Side): set<Pos>
    requires Wf(st)
  {
    set k | k in st.Team(s) && st.pieces[st.Team(s)[k]].alive
  }

  /** get_alive(s). */
  function AliveMap(st: BoardState, s: Side): (m: map<Pos, Handle>)
    requires Wf(st)
    ensures m.Keys == LiveKeys(st, s)
    ensures forall k :: k in m ==> k in st.Team(s) && m[k] == st.Team(s)[k] && st.pieces[m[k]].alive
  {
    map k | k in st.Team(s) && st.pieces[st.Team(s)[k]].alive :: st.Team(s)[k]
  }

  /** A square that get_border_pieces and count_outside treat as lost at the next
    * shrink: on ring `s`, or one of the corners of level s + 1. */
  predicate Doomed(p: Pos, s: int)
  {
    OnRing(p, s) || p in CornersOf(s + 1)
  }

  /** get_border_pieces(s). */
  function BorderPieces(st: BoardState, s: Side): (m: map<Pos, Handle>)
    requires Wf(st)
    ensures forall k :: k in m <==> k in LiveKeys(st, s) && Doomed(k, st.shrinks)
    ensures forall k :: k in m ==> m[k] == st.Team(s)[k]
  {
    map k | k in st.Team(s) && st.pieces[st.Team(s)[k]].alive && Doomed(k, st.shrinks) :: st.Team(s)[k]
  }

  /** The squares count_outside(s) counts: squares of the region still in play
    * that are doomed and show side `s`. */
  function OutsideCells(st: BoardState, s: Side): set<Pos>
  {
    set p | p in st.grid && st.shrinks <= p.0 < 8 - st.shrinks && st.shrinks <= p.1 < 8 - st.shrinks
              && Doomed(p, st.shrinks) && st.grid[p] == Stone(s)
  }

  /** check_win(c): a live recount of both dictionaries. */
  function CheckWin(st: BoardState, c: Side): GameResult
    requires Wf(st)
  {
    var w := |LiveKeys(st, White)|;
    var b := |LiveKeys(st, Black)|;
    if w >= 2 && b < 2 then (if c == White then Win else Loss)
    else if w < 2 && b < 2 then Tie
    else if b >= 2 && w < 2 then (if c == Black then Win else Loss)
    else Continue
  }

  /** A square of the placing zone of `c`, as starting_zone filters it. */
  predicate ZoneSquare(p: Pos, c: Side)
  {
    p !in OriginalCorners && InZoneRow(c, p.1)
  }

  /** starting_zone(c): the squares in play, in play-area order, that are not an
    * original corner and lie in the rows of `c`. */
  function StartingZone(area: seq<Pos>, c: Side): seq<Pos>
  {
    if area == [] then []
    else StartingZone(area[..|area| - 1], c)
         + (if ZoneSquare(area[|area| - 1], c) then [area[|area| - 1]] else [])
  }

  // ------------------------------------------------------- capture rule

  /** remove_piece: blank the grid cell, if the grid has one. */
  function RemovePiece(st: BoardState, pos: Pos): (r: BoardState)
    ensures r.grid.Keys == st.grid.Keys
    ensures pos in st.grid ==> r.grid[pos] == Empty
    ensures forall p :: p in st.grid && p != pos ==> r.grid[p] == st.grid[p]
  {
    if pos in st.grid then st.(grid := st.grid[pos := Empty]) else st
  }

  /** The effect of an elimination: the cell is blanked and the piece is dead. */
  function Kill(st: BoardState, h: Handle): (r: BoardState)
    requires h < |st.pieces|
    ensures Frame(st, r)
  {
    RemovePiece(st, st.pieces[h].pos).(pieces := st.pieces[h := st.pieces[h].(alive := false)])
  }

  /** Both neighbours of piece `h` along one axis are in play and hostile to it. */
  predicate Sandwiched(st: BoardState, h: Handle, fwd: Pos, back: Pos)
    requires Wf(st) && h < |st.pieces|
  {
    var me := st.pieces[h];
    var f := Step(me.pos, fwd);
    var b := Step(me.pos, back);
    f in st.area && b in st.area && Hostile(me.player, st.grid[f]) && Hostile(me.player, st.grid[b])
  }

  /** When check_eliminated kills: outside the play area, or sandwiched
    * vertically (UP, DOWN) or horizontally (LEFT, RIGHT). */
  predicate Captured(st: BoardState, h: Handle)
    requires Wf(st) && h < |st.pieces|
  {
    st.pieces[h].pos !in st.area || Sandwiched(st, h, Up, Down) || Sandwiched(st, h, Left, Right)
  }

  /** check_eliminated: the new board and whether the piece was eliminated. */
  function CheckEliminated(st: BoardState, h: Handle): (r: (BoardState, bool))
    requires Wf(st) && h < |st.pieces|
    ensures Frame(st, r.0)
  {
    if Captured(st, h) then (Kill(st, h), true) else (st, false)
  }

  /** resurrect: put the piece's marker back at its position and revive it. */
  function Resurrect(st: BoardState, h: Handle): (r: BoardState)
    requires h < |st.pieces|
    ensures Frame(st, r)
  {
    var p := st.pieces[h];
    st.(grid := st.grid[p.pos := Stone(p.player)], pieces := st.pieces[h := p.(alive := true)])
  }

  /** `for piece in eliminated: piece.resurrect()`. */
  function ResurrectAll(st: BoardState, hs: seq<Handle>): (r: BoardState)
    requires Handles(st, hs)
    ensures Frame(st, r)
    decreases |hs|
  {
    if hs == [] then st
    else Resurrect(ResurrectAll(st, hs[..|hs| - 1]), hs[|hs| - 1])
  }

  /** One pass of the loop of eliminate_surrounding: the neighbour of `h` in
    * direction `d`, if it shows the enemy's marker, is checked for elimination
    * (a neighbour without a dictionary entry is skipped). */
  function ElimStep(st: BoardState, h: Handle, d: Pos, acc: seq<Handle>): (r: (BoardState, seq<Handle>))
    requires Wf(st) && h < |st.pieces|
    ensures Frame(st, r.0)
  {
    var me := st.pieces[h];
    var foe := Opponent(me.player);
    var adj := Step(me.pos, d);
    if adj in st.area && st.grid[adj] == Stone(foe) && adj in st.Team(foe) then
      var e := st.Team(foe)[adj];
      var c := CheckEliminated(st, e);
      (c.0, if c.1 then acc + [e] else acc)
    else (st, acc)
  }

  /** The first `n` passes of that loop. */
  function ElimNeighbours(st: BoardState, h: Handle, n: nat): (r: (BoardState, seq<Handle>))
    requires Wf(st) && h < |st.pieces| && n <= 4
    ensures Frame(st, r.0)
  {
    if n == 0 then (st, [])
    else
      var p := ElimNeighbours(st, h, n - 1);
      FrameKeepsWf(st, p.0);
      ElimStep(p.0, h, Directions[n - 1], p.1)
  }

  /** eliminate_surrounding: capture the enemy neighbours first, then check the
    * acting piece itself and append it last if it died. */
  function EliminateSurrounding(st: BoardState, h: Handle): (r: (BoardState, seq<Handle>))
    requires Wf(st) && h < |st.pieces|
    ensures Frame(st, r.0)
  {
    var p := ElimNeighbours(st, h, 4);
    FrameKeepsWf(st, p.0);
    var c := CheckEliminated(p.0, h);
    (c.0, if c.1 then p.1 + [h] else p.1)
  }

  // --------------------------------------------------------- placement

  /** The first half of place_piece: a new live piece of `c` at `pos`. */
  function AddPiece(st: BoardState, c: Side, pos: Pos): (r: BoardState)
    requires Wf(st)
    ensures Wf(r)
    ensures st.grid.Keys <= r.grid.Keys && r.shrinks == st.shrinks
  {
    var s1 := st.(pieces := st.pieces + [Piece(c, pos, true)], grid := st.grid[pos := Stone(c)]);
    s1.WithTeam(c, st.Team(c)[pos := |st.pieces|])
  }

  /** place_piece: None (and no change) unless `pos` is in play and empty;
    * otherwise the pieces the placement eliminated. */
  function PlacePiece(st: BoardState, c: Side, pos: Pos): (r: (BoardState, Option<seq<Handle>>))
    requires Wf(st)
    ensures Wf(r.0)
    ensures st.grid.Keys <= r.0.grid.Keys && r.0.shrinks == st.shrinks
  {
    if pos in st.area && st.grid[pos] == Empty then
      var s1 := AddPiece(st, c, pos);
      var e := EliminateSurrounding(s1, |st.pieces|);
      FrameKeepsWf(s1, e.0);
      (e.0, Some(e.1))
    else (st, None)
  }

  /** undo_place: resurrect the eliminated pieces, blank `pos` and drop its key. */
  function UndoPlace(st: BoardState, c: Side, pos: Pos, eliminated: seq<Handle>): (r: BoardState)
    requires Wf(st) && Handles(st, eliminated)
    ensures Wf(r)
    ensures st.grid.Keys <= r.grid.Keys && r.shrinks == st.shrinks
  {
    var s1 := ResurrectAll(st, eliminated);
    FrameKeepsWf(st, s1);
    var s2 := RemovePiece(s1, pos);
    s2.WithTeam(c, s2.Team(c) - {pos})
  }

  // ------------------------------------------------------------ moving

  /** update_team: move the entry of `oldpos` to `newpos`. */
  function UpdateTeam(st: BoardState, c: Side, newpos: Pos, oldpos: Pos): (r: BoardState)
    requires Wf(st) && oldpos in st.Team(c)
    ensures Wf(r)
    ensures st.grid.Keys <= r.grid.Keys && r.shrinks == st.shrinks
  {
    st.WithTeam(c, st.Team(c)[newpos := st.Team(c)[oldpos]] - {oldpos})
  }

  /** The part of make_move before the captures. */
  function Relocate(st: BoardState, h: Handle, newpos: Pos): (r: BoardState)
    requires Wf(st) && h < |st.pieces| && st.pieces[h].pos in st.Team(st.pieces[h].player)
    ensures Wf(r)
    ensures st.grid.Keys <= r.grid.Keys && r.shrinks == st.shrinks
  {
    var me := st.pieces[h];
    var s1 := st.(pieces := st.pieces[h := me.(pos := newpos)],
                  grid := st.grid[me.pos := Empty][newpos := Stone(me.player)]);
    UpdateTeam(s1, me.player, newpos, me.pos)
  }

  /** make_move: relocate, re-key, then eliminate_surrounding. The dictionary
    * of the mover must have an entry at its square (update_team reads it). */
  function MakeMove(st: BoardState, h: Handle, newpos: Pos): (r: (BoardState, seq<Handle>))
    requires Wf(st) && h < |st.pieces| && st.pieces[h].pos in st.Team(st.pieces[h].player)
    ensures Wf(r.0)
    ensures st.grid.Keys <= r.0.grid.Keys && r.0.shrinks == st.shrinks
  {
    var s1 := Relocate(st, h, newpos);
    var e := EliminateSurrounding(s1, h);
    FrameKeepsWf(s1, e.0);
    e
  }

  /** The part of undo_move shared by the code as written and the corrected
    * version: resurrect, blank the current square, put the mover back. */
  function MoveBack(st: BoardState, h: Handle, oldpos: Pos, eliminated: seq<Handle>): (r: BoardState)
    requires Wf(st) && h < |st.pieces| && Handles(st, eliminated)
    ensures Wf(r)
    ensures st.grid.Keys <= r.grid.Keys && r.shrinks == st.shrinks
  {
    var s1 := ResurrectAll(st, eliminated);
    FrameKeepsWf(st, s1);
    var me := s1.pieces[h];
    s1.(pieces := s1.pieces[h := me.(pos := oldpos)],
        grid := s1.grid[me.pos := Empty][oldpos := Stone(me.player)])
  }

  /** undo_move exactly as written: the entry is moved back only when `oldpos`
    * is already a key; otherwise `oldpos` is added and the entry under the
    * square the piece stood on stays behind. */
  function UndoMoveAsWritten(st: BoardState, h: Handle, oldpos: Pos, eliminated: seq<Handle>): (r: BoardState)
    requires Wf(st) && h < |st.pieces| && Handles(st, eliminated)
    requires oldpos in st.Team(st.pieces[h].player) ==> st.pieces[h].pos in st.Team(st.pieces[h].player)
    ensures Wf(r)
    ensures st.grid.Keys <= r.grid.Keys && r.shrinks == st.shrinks
  {
    var c := st.pieces[h].player;
    var s2 := MoveBack(st, h, oldpos, eliminated);
    if oldpos in s2.Team(c) then UpdateTeam(s2, c, oldpos, st.pieces[h].pos)
    else s2.WithTeam(c, s2.Team(c)[oldpos := h])
  }

  /** undo_move as its comment intends: move the entry back from the square the
    * piece stood on when that entry is still this piece, otherwise insert it. */
  function UndoMove(st: BoardState, h: Handle, oldpos: Pos, eliminated: seq<Handle>): (r: BoardState)
    requires Wf(st) && h < |st.pieces| && Handles(st, eliminated)
    ensures Wf(r)
    ensures st.grid.Keys <= r.grid.Keys && r.shrinks == st.shrinks
  {
    var c := st.pieces[h].player;
    var newpos := st.pieces[h].pos;
    var s2 := MoveBack(st, h, oldpos, eliminated);
    if newpos in s2.Team(c) && s2.Team(c)[newpos] == h then UpdateTeam(s2, c, oldpos, newpos)
    else s2.WithTeam(c, s2.Team(c)[oldpos := h])
  }

  // ------------------------------------------------------ move generation

  /** A square a piece may land on: in play and empty. */
  predicate Free(st: BoardState, p: Pos)
    requires Wf(st)
  {
    p in st.area && st.grid[p] == Empty
  }

  /** The moves found so far by listmoves, and its backup square. */
  datatype Scan = Scan(moves: seq<Pos>, backup: Option<Pos>)

  /** One pass of the loop of listmoves, for direction `d`. */
  function ScanDir(st: BoardState, pos: Pos, exclude: bool, d: Pos, acc: Scan): Scan
    requires Wf(st)
  {
    var adj := Step(pos, d);
    if Free(st, adj) then
      if exclude && OnRing(adj, st.shrinks) then acc.(backup := Some(adj))
      else acc.(moves := acc.moves + [adj])
    else
      var jump := Step(adj, d);
      if Free(st, jump) then
        if exclude && OnRing(jump, st.shrinks) then acc.(backup := Some(jump))
        else acc.(moves := acc.moves + [jump])
      else acc
  }

  function ScanDirs(st: BoardState, pos: Pos, exclude: bool, n: nat): Scan
    requires Wf(st) && n <= 4
  {
    if n == 0 then Scan([], None)
    else ScanDir(st, pos, exclude, Directions[n - 1], ScanDirs(st, pos, exclude, n - 1))
  }

  /** listmoves(exclude): the scanned moves, or the backup square when there are none. */
  function ListMoves(st: BoardState, pos: Pos, exclude: bool): seq<Pos>
    requires Wf(st)
  {
    var sc := ScanDirs(st, pos, exclude, 4);
    if |sc.moves| == 0 && sc.backup.Some? then [sc.backup.value] else sc.moves
  }

  // ------------------------------------------------------------- shrink

  /** list.remove: drop the first occurrence of `x`. */
  function RemoveFirst(s: seq<Pos>, x: Pos): (r: seq<Pos>)
    ensures forall p :: p in r ==> p in s
    ensures forall p :: p in s && p != x ==> p in r
    ensures x in s ==> |r| == |s| - 1
    ensures x !in s ==> r == s
  {
    if s == [] then []
    else if s[0] == x then s[1..]
    else [s[0]] + RemoveFirst(s[1..], x)
  }

  /** One square of the shrink loop: if still in play, take it out of play and
    * check the white, then the black piece keyed there. */
  function VisitRing(st: BoardState, sq: Pos): (r: BoardState)
    requires Wf(st)
    ensures Wf(r)
    ensures st.grid.Keys <= r.grid.Keys && r.shrinks == st.shrinks
  {
    if sq in st.area then
      var s1 := st.(area := RemoveFirst(st.area, sq));
      var s2 := if sq in s1.white then CheckEliminated(s1, s1.white[sq]).0 else s1;
      FrameKeepsWf(s1, s2);
      if sq in s2.black then
        var s3 := CheckEliminated(s2, s2.black[sq]).0;
        FrameKeepsWf(s2, s3);
        s3
      else s2
    else st
  }

  /** The four squares one pass of the ring loop visits at `square`, in order:
    * (border, square) then (square, border), for border `s` and then `7 - s`. */
  function RingQuad(s: int, square: int): (q: seq<Pos>)
    ensures |q| == 4
  {
    [(s, square), (square, s), (7 - s, square), (square, 7 - s)]
  }

  /** The squares the first `n` passes of `for square in range(s, 8 - s)` visit, in order. */
  function RingOrder(s: int, n: nat): (q: seq<Pos>)
    ensures |q| == 4 * n
  {
    if n == 0 then [] else RingOrder(s, n - 1) + RingQuad(s, s + n - 1)
  }

  /** The board after visiting the squares of `q` in order. */
  function Visits(st: BoardState, q: seq<Pos>): (r: BoardState)
    requires Wf(st)
    ensures Wf(r)
    ensures st.grid.Keys <= r.grid.Keys && r.shrinks == st.shrinks
  {
    if q == [] then st else VisitRing(Visits(st, q[..|q| - 1]), q[|q| - 1])
  }

  /** The first `n` passes of the ring loop over ring `s`. */
  function RingUpTo(st: BoardState, s: int, n: nat): (r: BoardState)
    requires Wf(st)
    ensures Wf(r)
    ensures st.grid.Keys <= r.grid.Keys && r.shrinks == st.shrinks
  {
    Visits(st, RingOrder(s, n))
  }

  /** The first `n` old corners set to EMPTY. */
  function ClearCorners(st: BoardState, s: int, n: nat): (r: BoardState)
    requires Wf(st) && n <= 4
    ensures Wf(r)
    ensures st.grid.Keys <= r.grid.Keys && r.shrinks == st.shrinks
  {
    if n == 0 then st
    else
      var r1 := ClearCorners(st, s, n - 1);
      r1.(grid := r1.grid[CornersOf(s)[n - 1] := Empty])
  }

  /** One direction of the check around a new corner: a live neighbour in play is
    * checked for elimination, the white one first. */
  function CornerNeighbour(st: BoardState, c: Pos, d: Pos): (r: BoardState)
    requires Wf(st)
    ensures Wf(r)
    ensures st.grid.Keys <= r.grid.Keys && r.shrinks == st.shrinks
  {
    var adj := Step(c, d);
    if adj in st.area then
      if adj in LiveKeys(st, White) then
        var r1 := CheckEliminated(st, st.white[adj]).0; FrameKeepsWf(st, r1); r1
      else if adj in LiveKeys(st, Black) then
        var r1 := CheckEliminated(st, st.black[adj]).0; FrameKeepsWf(st, r1); r1
      else st
    else st
  }

  function CornerNeighbours(st: BoardState, c: Pos, n: nat): (r: BoardState)
    requires Wf(st) && n <= 4
    ensures Wf(r)
    ensures st.grid.Keys <= r.grid.Keys && r.shrinks == st.shrinks
  {
    if n == 0 then st
    else CornerNeighbour(CornerNeighbours(st, c, n - 1), c, Directions[n - 1])
  }

  /** One new corner: a live piece on it dies, the cell becomes CORNER, and its
    * neighbours are checked. */
  function NewCorner(st: BoardState, c: Pos): (r: BoardState)
    requires Wf(st)
    ensures Wf(r)
    ensures st.grid.Keys <= r.grid.Keys && r.shrinks == st.shrinks
  {
    var r1 := match GetPiece(st, c)
      case Some(h) => st.(pieces := st.pieces[h := st.pieces[h].(alive := false)])
      case None => st;
    var r2 := r1.(grid := r1.grid[c := Corner]);
    CornerNeighbours(r2, c, 4)
  }

  /** The first `n` new corners of level `st.shrinks`. */
  function NewCorners(st: BoardState, n: nat): (r: BoardState)
    requires Wf(st) && n <= 4
    ensures Wf(r)
    ensures st.grid.Keys <= r.grid.Keys && r.shrinks == st.shrinks
  {
    if n == 0 then st
    else NewCorner(NewCorners(st, n - 1), CornersOf(st.shrinks)[n - 1])
  }

  /** The first half of shrink: the ring loop over ring `s`, then the old corners blanked. */
  function RingOut(st: BoardState): (r: BoardState)
    requires Wf(st) && 0 <= st.shrinks <= 1
    ensures Wf(r)
    ensures st.grid.Keys <= r.grid.Keys && r.shrinks == st.shrinks
  {
    ClearCorners(RingUpTo(st, st.shrinks, 8 - 2 * st.shrinks), st.shrinks, 4)
  }

  /** The second half: the level bumped and the new corners set. */
  function SetCorners(st: BoardState): (r: BoardState)
    requires Wf(st)
    ensures Wf(r)
    ensures st.grid.Keys <= r.grid.Keys && r.shrinks == st.shrinks + 1
  {
    NewCorners(st.(shrinks := st.shrinks + 1), 4)
  }

  /** shrink: take ring `s` out of play, blank the old corners, bump the level,
    * set the new corners, and shrink the playing size by 2. Allowed twice. */
  function Shrink(st: BoardState): (r: BoardState)
    requires Wf(st) && 0 <= st.shrinks <= 1
    ensures Wf(r)
    ensures st.grid.Keys <= r.grid.Keys && r.shrinks == st.shrinks + 1
  {
    SetCorners(RingOut(st)).(playingSize := st.playingSize - 2)
  }
}
