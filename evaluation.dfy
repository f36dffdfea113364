/**
 * The evaluation function of minimax_module.py: manhattan_distance, the
 * distance of a piece from the four middle squares, and evaluate_board as a
 * function of the board, the side it scores for and the phase.
 */
module Evaluation {
  import opened Rules
  import opened BoardModel
  import opened Values
  import opened BoardProps
  import opened ShrinkProps

  /** The phase of the game the player is in. */
  datatype Phase = Placing | Moving

  /** The turn at which the moving phase starts. */
  const MovingPhase: int := 24

  /** The turns at which the board shrinks. */
  const ShrinkTurns: seq<int> := [128, 192]

  const MiddleSquares: seq<Pos> := [(3, 3), (4, 3), (3, 4), (4, 4)]

  /** The search depths of the placing and the moving phase. */
  const PlaceDepth: nat := 1
  const MoveDepth: nat := 0

  function Magnitude(x: int): nat
  {
    if x < 0 then -x else x
  }

  /** manhattan_distance(a, b): zero exactly between equal squares. */
  function ManhattanDistance(a: Pos, b: Pos): (d: nat)
    ensures d == 0 <==> a == b
  {
    Magnitude(a.1 - b.1) + Magnitude(a.0 - b.0)
  }

  lemma ManhattanSymmetric(a: Pos, b: Pos)
    ensures ManhattanDistance(a, b) == ManhattanDistance(b, a)
  {
  }

  lemma ManhattanTriangle(a: Pos, b: Pos, c: Pos)
    ensures ManhattanDistance(a, c) <= ManhattanDistance(a, b) + ManhattanDistance(b, c)
  {
  }

  /** min(s): the smallest element, which is one of the elements. */
  function MinOf(s: seq<int>): (m: int)
    requires |s| > 0
    ensures m in s && forall i :: 0 <= i < |s| ==> m <= s[i]
    decreases |s|
  {
    if |s| == 1 then s[0]
    else
      var rest := MinOf(s[1..]);
      if s[0] <= rest then s[0] else rest
  }

  /** The distances from `p` to each square of `squares`, in order. */
  function DistancesTo(p: Pos, squares: seq<Pos>): (ds: seq<int>)
    ensures |ds| == |squares| && forall j :: 0 <= j < |squares| ==> ds[j] == ManhattanDistance(p, squares[j])
    decreases |squares|
  {
    if squares == [] then []
    else DistancesTo(p, squares[..|squares| - 1]) + [ManhattanDistance(p, squares[|squares| - 1])]
  }

  /** The list `dfm` evaluate_board builds for a piece at `p`. */
  function MiddleDistances(p: Pos): seq<int>
  {
    DistancesTo(p, MiddleSquares)
  }

  /** min(dfm): how far `p` is from the nearest middle square. */
  function MiddleDistance(p: Pos): int
  {
    MinOf(MiddleDistances(p))
  }

  /** A piece is at distance 0 exactly on a middle square, and no square of
    * the board is further than 6 from the middle. */
  lemma MiddleDistanceRange(p: Pos)
    ensures MiddleDistance(p) >= 0
    ensures MiddleDistance(p) == 0 <==> p in MiddleSquares
    ensures InBoard(p) ==> MiddleDistance(p) <= 6
  {
    var ds := MiddleDistances(p);
    var j := if p.0 <= 3 then (if p.1 <= 3 then 0 else 2) else (if p.1 <= 3 then 1 else 3);
    assert ds[j] == ManhattanDistance(p, MiddleSquares[j]);
    if MiddleDistance(p) == 0 {
      var i :| 0 <= i < |ds| && ds[i] == 0;
      assert p == MiddleSquares[i];
    }
    if p in MiddleSquares {
      var i :| 0 <= i < |MiddleSquares| && MiddleSquares[i] == p;
      assert ds[i] == 0;
    }
  }

  /** The keys `ks` are dictionary entries of `m` naming pieces of the arena. */
  ghost predicate Named(pieces: seq<Piece>, m: map<Pos, Handle>, ks: set<Pos>)
  {
    forall k :: k in ks ==> k in m && m[k] < |pieces|
  }

  /** The sum of the middle distances of the pieces `m` names at the keys `ks`. */
  ghost function CentreDistance(pieces: seq<Piece>, m: map<Pos, Handle>, ks: set<Pos>): int
    requires Named(pieces, m, ks)
    decreases ks
  {
    if ks == {} then 0
    else
      var k :| k in ks;
      MiddleDistance(pieces[m[k]].pos) + CentreDistance(pieces, m, ks - {k})
  }

  /** The sum does not depend on the order the keys are taken in. */
  lemma {:induction false} CentreDistanceAny(pieces: seq<Piece>, m: map<Pos, Handle>, ks: set<Pos>, k: Pos)
    requires Named(pieces, m, ks) && k in ks
    ensures CentreDistance(pieces, m, ks) == MiddleDistance(pieces[m[k]].pos) + CentreDistance(pieces, m, ks - {k})
    decreases ks
  {
    var x :| x in ks && CentreDistance(pieces, m, ks) ==
      MiddleDistance(pieces[m[x]].pos) + CentreDistance(pieces, m, ks - {x});
    if x != k {
      CentreDistanceAny(pieces, m, ks - {x}, k);
      CentreDistanceAny(pieces, m, ks - {k}, x);
      assert ks - {x} - {k} == ks - {k} - {x};
    }
  }

  /** Each piece adds between 0 and 6 when every piece is on the board. */
  lemma {:induction false} CentreDistanceBounds(pieces: seq<Piece>, m: map<Pos, Handle>, ks: set<Pos>)
    requires Named(pieces, m, ks)
    requires forall k :: k in ks ==> InBoard(pieces[m[k]].pos)
    ensures 0 <= CentreDistance(pieces, m, ks) <= 6 * |ks|
    decreases ks
  {
    if ks != {} {
      var k :| k in ks;
      CentreDistanceAny(pieces, m, ks, k);
      MiddleDistanceRange(pieces[m[k]].pos);
      CentreDistanceBounds(pieces, m, ks - {k});
    }
  }

  /** The sum reads only the squares of the pieces it names. */
  lemma {:induction false} CentreDistanceSame(p1: seq<Piece>, m1: map<Pos, Handle>, p2: seq<Piece>, m2: map<Pos, Handle>, ks: set<Pos>)
    requires Named(p1, m1, ks) && Named(p2, m2, ks)
    requires forall k :: k in ks ==> p1[m1[k]].pos == p2[m2[k]].pos
    ensures CentreDistance(p1, m1, ks) == CentreDistance(p2, m2, ks)
    decreases ks
  {
    if ks != {} {
      var k :| k in ks;
      CentreDistanceAny(p1, m1, ks, k);
      CentreDistanceAny(p2, m2, ks, k);
      CentreDistanceSame(p1, m1, p2, m2, ks - {k});
    }
  }

  /** The live pieces of side `c` in get_alive(c). */
  lemma AliveNamed(st: BoardState, c: Side)
    requires Wf(st)
    ensures Named(st.pieces, AliveMap(st, c), LiveKeys(st, c))
  {
    WfTeam(st, c);
  }

  /** What evaluate_board scores before the positional term: 20 for each
    * live piece of `c`, -15 for each live enemy piece. */
  function Material(st: BoardState, c: Side): int
    requires Wf(st)
  {
    20 * |LiveKeys(st, c)| - 15 * |LiveKeys(st, Opponent(c))|
  }

  /** evaluate_board for side `c`: in the moving phase a won board is worth
    * +inf, a lost one -inf and a tie -100; otherwise the material minus the
    * middle distances of c's live pieces. */
  ghost function Evaluate(st: BoardState, c: Side, phase: Phase): (v: Utility)
    requires Wf(st)
    ensures phase == Moving ==> (v == PosInf <==> CheckWin(st, c) == Win)
    ensures phase == Moving ==> (v == NegInf <==> CheckWin(st, c) == Loss)
    ensures phase == Moving && CheckWin(st, c) == Tie ==> v == Fin(-100)
    ensures phase == Placing ==> v.Fin?
  {
    var result := CheckWin(st, c);
    if phase == Moving && result == Win then PosInf
    else if phase == Moving && result == Loss then NegInf
    else if phase == Moving && result == Tie then Fin(-100)
    else
      AliveNamed(st, c);
      Fin(Material(st, c) - CentreDistance(st.pieces, AliveMap(st, c), LiveKeys(st, c)))
  }

  /** Outside the end of the game, the value is the material less at most 6
    * per live piece of `c`, on a board whose pieces stand in play. */
  lemma EvaluateBounds(st: BoardState, c: Side, phase: Phase)
    requires Consistent(st) && AreaShape(st) && st.shrinks >= 0
    ensures var v := Evaluate(st, c, phase);
      phase == Placing || CheckWin(st, c) == Continue ==>
        v.Fin? && Material(st, c) - 6 * |LiveKeys(st, c)| <= v.n <= Material(st, c)
  {
    AliveNamed(st, c);
    var m := AliveMap(st, c);
    forall k | k in LiveKeys(st, c) ensures InBoard(st.pieces[m[k]].pos) {
      StandingOfLive(st, c, k);
    }
    CentreDistanceBounds(st.pieces, m, LiveKeys(st, c));
  }

  /** A board restored after a search step is worth what it was worth. */
  lemma EvaluateRestored(st: BoardState, u: BoardState, c: Side, phase: Phase)
    requires Wf(st) && Restored(st, u)
    ensures Wf(u) && Evaluate(u, c, phase) == Evaluate(st, c, phase)
  {
    RestoredSide(st, u, c);
    RestoredDistance(st, u, c);
    // name the sum on `u`, so that its equation above is used
    var x := CentreDistance(u.pieces, AliveMap(u, c), LiveKeys(u, c));
    assert Evaluate(u, c, phase) == Evaluate(st, c, phase);
  }

  /** What evaluate_board reads of each side is kept by a restore. */
  lemma RestoredSide(st: BoardState, u: BoardState, c: Side)
    requires Wf(st) && Restored(st, u)
    ensures Wf(u) && CheckWin(u, c) == CheckWin(st, c) && Material(u, c) == Material(st, c)
    ensures LiveKeys(u, c) == LiveKeys(st, c) && AliveMap(u, c) == AliveMap(st, c)
  {
    RestoredQueries(st, u);
  }

  /** ... and so is the sum of the middle distances of the live pieces. */
  lemma RestoredDistance(st: BoardState, u: BoardState, c: Side)
    requires Wf(st) && Restored(st, u)
    ensures Wf(u) && Named(st.pieces, AliveMap(st, c), LiveKeys(st, c)) && Named(u.pieces, AliveMap(u, c), LiveKeys(u, c))
    ensures CentreDistance(u.pieces, AliveMap(u, c), LiveKeys(u, c)) == CentreDistance(st.pieces, AliveMap(st, c), LiveKeys(st, c))
  {
    RestoredSide(st, u, c);
    AliveNamed(st, c);
    AliveNamed(u, c);
    var m := AliveMap(st, c);
    forall k | k in LiveKeys(st, c) ensures st.pieces[m[k]].pos == u.pieces[m[k]].pos {
      assert u.pieces[..|st.pieces|][m[k]] == st.pieces[m[k]];
    }
    CentreDistanceSame(st.pieces, m, u.pieces, m, LiveKeys(st, c));
  }
}
