/**
 * The board grid as a value: a height x width matrix of cells, each holding a
 * tile type and a start-position flag, and the pure descriptions of how the
 * board's in-place operations rewrite it (neighbour clearing, spawning,
 * respawning and the bomb blast).
 */
module Grid {

  /** A square: its tile type (0 empty, 1 breakable wall, 2 unbreakable wall,
      3 bomb) and whether it is a start position. */
  datatype Cell = Cell(kind: int, isStart: bool)

  const Empty: int := 0
  const Breakable: int := 1
  const Unbreakable: int := 2
  const Bomb: int := 3

  type Tiles = seq<seq<Cell>>

  /** g has h rows of w cells each. */
  predicate IsGrid(g: Tiles, h: int, w: int)
  {
    |g| == h && forall r :: 0 <= r < |g| ==> |g[r]| == w
  }

  predicate Within(r: int, c: int, h: int, w: int)
  {
    0 <= r < h && 0 <= c < w
  }

  /** The freshly constructed board: every cell empty and not a start position. */
  function EmptyGrid(h: nat, w: nat): (g: Tiles)
    ensures IsGrid(g, h, w)
    ensures forall r, c :: Within(r, c, h, w) ==> g[r][c] == Cell(Empty, false)
  {
    seq(h, _ => seq(w, _ => Cell(Empty, false)))
  }

  /** g with the tile type of one cell replaced, its start flag kept. */
  function SetKind(g: Tiles, r: int, c: int, k: int): Tiles
    requires 0 <= r < |g| && 0 <= c < |g[r]|
  {
    g[r := g[r][c := g[r][c].(kind := k)]]
  }

  /** (r, c) is one of the eight squares around (i, j). */
  predicate IsNeighbour(r: int, c: int, i: int, j: int)
  {
    -1 <= r - i <= 1 && -1 <= c - j <= 1 && !(r == i && c == j)
  }

  /** The offsets ClearSurroundings walks through, in its order. */
  const NeighbourOffsets: seq<(int, int)> :=
    [(-1, -1), (-1, 0), (-1, 1), (0, -1), (0, 1), (1, -1), (1, 0), (1, 1)]

  lemma NeighbourOffsetsAreNeighbours(r: int, c: int, i: int, j: int)
    ensures (r - i, c - j) in NeighbourOffsets <==> IsNeighbour(r, c, i, j)
  {
  }

  /** g after ClearSurroundings(i, j): the in-bounds neighbours of (i, j) become
      empty; the centre, the start flags and every other cell stay. */
  function Cleared(g: Tiles, i: int, j: int): (r: Tiles)
    ensures |r| == |g| && forall a :: 0 <= a < |g| ==> |r[a]| == |g[a]|
  {
    seq(|g|, a requires 0 <= a < |g| =>
      seq(|g[a]|, b requires 0 <= b < |g[a]| =>
        if IsNeighbour(a, b, i, j) then g[a][b].(kind := Empty) else g[a][b]))
  }

  /** g after Respawn(x, y, _): the square itself and its neighbours become empty. */
  function Respawned(g: Tiles, x: int, y: int): Tiles
    requires 0 <= x < |g| && 0 <= y < |g[x]|
  {
    Cleared(SetKind(g, x, y, Empty), x, y)
  }

  /** g after a player is inserted at (x, y): the square becomes an empty start
      position and its neighbours become empty. */
  function Started(g: Tiles, x: int, y: int): Tiles
    requires 0 <= x < |g| && 0 <= y < |g[x]|
  {
    Cleared(g[x := g[x][y := Cell(Empty, true)]], x, y)
  }

  /** The four spawn squares, one step in from each corner, in join order:
      top-left, top-right, bottom-left, bottom-right. */
  function Corner(n: int, h: int, w: int): (int, int)
  {
    if n == 0 then (1, 1)
    else if n == 1 then (1, w - 2)
    else if n == 2 then (h - 2, 1)
    else (h - 2, w - 2)
  }

  /** The spawn squares are pairwise distinct once the board is at least 4 x 4,
      and all lie on the board once it is at least 2 x 2. */
  lemma CornersOnBoard(n: int, h: int, w: int)
    requires 0 <= n < 4 && h >= 2 && w >= 2
    ensures Within(Corner(n, h, w).0, Corner(n, h, w).1, h, w)
  {
  }

  lemma CornersDistinct(m: int, n: int, h: int, w: int)
    requires 0 <= m < n < 4 && h >= 4 && w >= 4
    ensures Corner(m, h, w) != Corner(n, h, w)
  {
  }

  /** The blast radius of TriggerBomb. */
  const BlastRadius: int := 10

  function Abs(n: int): nat
  {
    if n < 0 then -n else n
  }

  /** (i, j) lies within Manhattan distance 10 of the centre (x, y). */
  predicate InBlast(x: int, y: int, i: int, j: int)
  {
    Abs(x - i) + Abs(y - j) <= BlastRadius
  }

  /** A cell after the blast: a hit breakable wall becomes empty; anything
      else stays as it was. */
  function BreakIf(c: Cell, hit: bool): Cell
  {
    if hit && c.kind == Breakable then c.(kind := Empty) else c
  }

  /** g after TriggerBomb(x, y): breakable walls inside the disk become empty;
      every other cell, empty, unbreakable and bomb ones included, stays. */
  function Blasted(g: Tiles, x: int, y: int): (r: Tiles)
    ensures |r| == |g| && forall a :: 0 <= a < |g| ==> |r[a]| == |g[a]|
  {
    seq(|g|, a requires 0 <= a < |g| =>
      seq(|g[a]|, b requires 0 <= b < |g[a]| => BreakIf(g[a][b], InBlast(x, y, a, b))))
  }

  /** Two h x w grids with the same cells are the same grid. */
  lemma SameCells(g1: Tiles, g2: Tiles, h: int, w: int)
    requires IsGrid(g1, h, w) && IsGrid(g2, h, w)
    requires forall a, b :: Within(a, b, h, w) ==> g1[a][b] == g2[a][b]
    ensures g1 == g2
  {
    forall a | 0 <= a < h ensures g1[a] == g2[a] {
      assert forall b :: 0 <= b < w ==> g1[a][b] == g2[a][b];
    }
  }

  /** Clearing never touches a start flag, and a second clearing of the same
      square changes nothing. */
  lemma {:induction false} ClearedIdempotent(g: Tiles, i: int, j: int)
    ensures Cleared(Cleared(g, i, j), i, j) == Cleared(g, i, j)
    ensures forall a, b :: 0 <= a < |g| && 0 <= b < |g[a]| ==> Cleared(g, i, j)[a][b].isStart == g[a][b].isStart
  {
    var once := Cleared(g, i, j);
    var twice := Cleared(once, i, j);
    assert |twice| == |once|;
    forall a | 0 <= a < |once| ensures twice[a] == once[a] {
      assert |twice[a]| == |once[a]|;
    }
  }

  /** A blast only ever empties breakable walls: the tile types 0, 2 and 3
      survive, and applying it again changes nothing. */
  lemma {:induction false} BlastedIdempotent(g: Tiles, x: int, y: int)
    ensures Blasted(Blasted(g, x, y), x, y) == Blasted(g, x, y)
  {
    var once := Blasted(g, x, y);
    var twice := Blasted(once, x, y);
    forall a | 0 <= a < |once| ensures twice[a] == once[a] {
      assert |twice[a]| == |once[a]|;
    }
  }
}
