/**
 * The fixed rules of Watch Your Back!: the two sides, the cell markers of
 * the 8x8 grid, the four orthogonal directions, the placing zones, the
 * corners of each shrink level and the game results.
 */
module Rules {

  /** A square (x, y): x is the column, y the row; (0, 0) is the top left. */
  type Pos = (int, int)

  datatype Option<T> = None | Some(value: T)

  datatype Side = White | Black

  /** The markers of the grid: '-', 'X', 'O' and '@'. */
  datatype Cell = Empty | Corner | Stone(side: Side)

  /** The result of a board for one side, as check_win reports it. */
  datatype GameResult = Continue | Loss | Tie | Win

  function Opponent(s: Side): (o: Side)
    ensures o != s
  {
    if s == White then Black else White
  }

  const Up: Pos := (0, -1)
  const Down: Pos := (0, 1)
  const Left: Pos := (-1, 0)
  const Right: Pos := (1, 0)

  /** The directions in the order every loop of the engine visits them. */
  const Directions: seq<Pos> := [Up, Down, Left, Right]

  function Step(p: Pos, d: Pos): Pos
  {
    (p.0 + d.0, p.1 + d.1)
  }

  /** `q` is one of the four orthogonal neighbours of `p`. */
  predicate Adjacent(p: Pos, q: Pos)
  {
    q == Step(p, Up) || q == Step(p, Down) || q == Step(p, Left) || q == Step(p, Right)
  }

  /** The markers a piece of side `s` counts as hostile: the enemy's and a corner. */
  predicate Hostile(s: Side, c: Cell)
  {
    c == Corner || c == Stone(Opponent(s))
  }

  predicate InBoard(p: Pos)
  {
    0 <= p.0 < 8 && 0 <= p.1 < 8
  }

  /** The square region still in play after `s` shrinks. */
  predicate InSquare(p: Pos, s: int)
  {
    s <= p.0 <= 7 - s && s <= p.1 <= 7 - s
  }

  /** On the outer ring of the region of shrink level `s` (row or column s or 7 - s). */
  predicate OnRing(p: Pos, s: int)
  {
    p.0 == s || p.0 == 7 - s || p.1 == s || p.1 == 7 - s
  }

  /** The corners of shrink level `s`, counter-clockwise from the top left. */
  function CornersOf(s: int): seq<Pos>
  {
    [(s, s), (s, 7 - s), (7 - s, 7 - s), (7 - s, s)]
  }

  const OriginalCorners: seq<Pos> := CornersOf(0)

  /** The rows a side may place on: 0-5 for White, 2-7 for Black. */
  predicate InZoneRow(s: Side, y: int)
  {
    if s == White then 0 <= y < 6 else 2 <= y < 8
  }
}
