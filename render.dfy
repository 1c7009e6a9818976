/**
 * GetBoardState's character matrix as values. Each board row is written
 * column by column; at each column the roster is walked once in slot order,
 * and every tank standing at the current column emits a 'P' and moves the
 * column one step right, after which the tile at the column reached is
 * written. So a run of tanks side by side shows as a run of 'P's when the
 * roster lists them left to right, while a tank whose left neighbour comes
 * later in the roster is hidden behind its tile.
 */
module Render {
  import opened Grid

  /** The character of a tile type: breakable '+', unbreakable '#', empty,
      bomb and any other value ' '. */
  function TileChar(kind: int): (ch: char)
    ensures ch != 'P'
  {
    if kind == Breakable then '+'
    else if kind == Unbreakable then '#'
    else ' '
  }

  /** The number of 'P's the roster walk emits when it starts at column j of
      row i: each tank at the current column is matched and moves it one step. */
  function Marks(ps: seq<(int, int)>, i: int, j: int): nat
    decreases |ps|
  {
    if ps == [] then 0
    else if ps[0] == (i, j) then 1 + Marks(ps[1..], i, j + 1)
    else Marks(ps[1..], i, j)
  }

  /** Scanning row i from column j on, the tile read after every roster walk
      lies inside the row: the exact condition under which the scan stays
      within the row. */
  predicate RowSafe(ps: seq<(int, int)>, i: int, j: int, w: int)
    decreases w - j
  {
    j >= w || (j + Marks(ps, i, j) < w && RowSafe(ps, i, j + Marks(ps, i, j) + 1, w))
  }

  /** The characters written for columns j.. of a row, one per column. */
  function RowFrom(row: seq<Cell>, i: int, ps: seq<(int, int)>, j: int): (s: seq<char>)
    requires 0 <= j <= |row| && RowSafe(ps, i, j, |row|)
    ensures |s| == |row| - j
    decreases |row| - j
  {
    if j == |row| then []
    else
      var m := Marks(ps, i, j);
      seq(m, _ => 'P') + [TileChar(row[j + m].kind)] + RowFrom(row, i, ps, j + m + 1)
  }

  /** A full line of '#' for a board w squares wide, borders included. */
  function Border(w: int): (s: seq<char>)
    requires 0 <= w
    ensures |s| == w + 2 && forall c :: 0 <= c < |s| ==> s[c] == '#'
  {
    seq(w + 2, _ => '#')
  }

  /** Every row of the board can be scanned. */
  predicate BoardSafe(g: Tiles, w: int, ps: seq<(int, int)>)
  {
    forall i :: 0 <= i < |g| ==> RowSafe(ps, i, 0, w)
  }

  /** The board rows with their left and right borders. */
  function RenderRows(g: Tiles, w: int, ps: seq<(int, int)>): (rows: seq<seq<char>>)
    requires 0 <= w && IsGrid(g, |g|, w) && BoardSafe(g, w, ps)
    ensures |rows| == |g|
  {
    seq(|g|, i requires 0 <= i < |g| => ['#'] + RowFrom(g[i], i, ps, 0) + ['#'])
  }

  /** The whole matrix: top border, the board rows, bottom border. */
  function RenderBoard(g: Tiles, w: int, ps: seq<(int, int)>): seq<seq<char>>
    requires 0 <= w && IsGrid(g, |g|, w) && BoardSafe(g, w, ps)
  {
    [Border(w)] + RenderRows(g, w, ps) + [Border(w)]
  }

  // ------------------------------------------------------------ the walk

  /** A tank at the starting column is always matched. */
  lemma {:induction false} MarksPositive(ps: seq<(int, int)>, i: int, j: int)
    requires (i, j) in ps
    ensures Marks(ps, i, j) >= 1
    decreases |ps|
  {
    if ps[0] != (i, j) {
      MarksPositive(ps[1..], i, j);
    }
  }

  /** Every column the walk steps over holds a tank. */
  lemma {:induction false} MarksCovered(ps: seq<(int, int)>, i: int, j: int)
    ensures forall c :: j <= c < j + Marks(ps, i, j) ==> (i, c) in ps
    decreases |ps|
  {
    if ps != [] {
      MarksCovered(ps[1..], i, j + 1);
      MarksCovered(ps[1..], i, j);
      forall c | j <= c < j + Marks(ps, i, j) ensures (i, c) in ps {
        if ps[0] == (i, j) {
          if c > j {
            assert (i, c) in ps[1..];
          }
        } else {
          assert (i, c) in ps[1..];
        }
      }
    }
  }

  /** With no tank in the last column of row i, the scan of that row stays in
      the row from any column on. */
  lemma {:induction false} LastColumnFreeIsSafe(ps: seq<(int, int)>, i: int, j: int, w: int)
    requires 0 <= j && (i, w - 1) !in ps
    ensures RowSafe(ps, i, j, w)
    decreases w - j
  {
    if j < w {
      var m := Marks(ps, i, j);
      MarksCovered(ps, i, j);
      LastColumnFreeIsSafe(ps, i, j + m + 1, w);
    }
  }

  // -------------------------------------------------------------- shape

  /** The matrix has height + 2 rows of width + 2 characters; the first and
      last rows are all '#', and every board row starts and ends with '#'. */
  lemma RenderShape(g: Tiles, w: int, ps: seq<(int, int)>)
    requires 0 <= w && IsGrid(g, |g|, w) && BoardSafe(g, w, ps)
    ensures var r := RenderBoard(g, w, ps);
      && |r| == |g| + 2
      && (forall i :: 0 <= i < |r| ==> |r[i]| == w + 2)
      && (forall c :: 0 <= c < w + 2 ==> r[0][c] == '#' && r[|g| + 1][c] == '#')
      && (forall i :: 1 <= i <= |g| ==> r[i][0] == '#' && r[i][w + 1] == '#')
  {
    var r := RenderBoard(g, w, ps);
    forall i | 1 <= i <= |g| ensures |r[i]| == w + 2 && r[i][0] == '#' && r[i][w + 1] == '#' {
      assert r[i] == ['#'] + RowFrom(g[i - 1], i - 1, ps, 0) + ['#'];
    }
  }

  /** Column c of row i (c >= j) as RowFrom shows it: a 'P' only where a tank
      stands, and otherwise the tile's own character. */
  lemma {:induction false} RowFromSound(row: seq<Cell>, i: int, ps: seq<(int, int)>, j: int)
    requires 0 <= j <= |row| && RowSafe(ps, i, j, |row|)
    ensures var s := RowFrom(row, i, ps, j);
      forall c :: j <= c < |row| ==>
        (s[c - j] == 'P' && (i, c) in ps) || s[c - j] == TileChar(row[c].kind)
    decreases |row| - j
  {
    if j < |row| {
      var m := Marks(ps, i, j);
      var s := RowFrom(row, i, ps, j);
      var rest := RowFrom(row, i, ps, j + m + 1);
      MarksCovered(ps, i, j);
      RowFromSound(row, i, ps, j + m + 1);
      assert s == seq(m, _ => 'P') + [TileChar(row[j + m].kind)] + rest;
      forall c | j <= c < |row|
        ensures (s[c - j] == 'P' && (i, c) in ps) || s[c - j] == TileChar(row[c].kind)
      {
        if c > j + m {
          assert s[c - j] == rest[c - (j + m + 1)];
        }
      }
    }
  }

  /** A tank is shown as 'P' when it stands in the first column or has no
      tank immediately to its left. */
  lemma {:induction false} RowFromShowsTank(row: seq<Cell>, i: int, ps: seq<(int, int)>, j: int, c: int)
    requires 0 <= j <= c < |row| && RowSafe(ps, i, j, |row|)
    requires (i, c) in ps && (c == j || (i, c - 1) !in ps)
    ensures RowFrom(row, i, ps, j)[c - j] == 'P'
    decreases |row| - j
  {
    var m := Marks(ps, i, j);
    var s := RowFrom(row, i, ps, j);
    var rest := RowFrom(row, i, ps, j + m + 1);
    assert s == seq(m, _ => 'P') + [TileChar(row[j + m].kind)] + rest;
    MarksCovered(ps, i, j);
    if c == j {
      MarksPositive(ps, i, j);
    } else if c == j + m {
      assert false;
    } else if c > j + m {
      RowFromShowsTank(row, i, ps, j + m + 1, c);
      assert s[c - j] == rest[c - (j + m + 1)];
    }
  }

  /** Every board square shows 'P' only where a tank stands and otherwise its
      tile's character, and a tank in the first column or with no tank to its
      left always shows as 'P'. */
  lemma BoardCells(g: Tiles, w: int, ps: seq<(int, int)>, i: int, c: int)
    requires 0 <= w && IsGrid(g, |g|, w) && BoardSafe(g, w, ps)
    requires 0 <= i < |g| && 0 <= c < w
    ensures var ch := RenderBoard(g, w, ps)[i + 1][c + 1];
      && ((ch == 'P' && (i, c) in ps) || ch == TileChar(g[i][c].kind))
      && ((i, c) in ps && (c == 0 || (i, c - 1) !in ps) ==> ch == 'P')
  {
    var line := RowFrom(g[i], i, ps, 0);
    assert RenderBoard(g, w, ps)[i + 1] == ['#'] + line + ['#'];
    RowFromSound(g[i], i, ps, 0);
    if (i, c) in ps && (c == 0 || (i, c - 1) !in ps) {
      RowFromShowsTank(g[i], i, ps, 0, c);
    }
  }

  // ----------------------------------------- the roster-order discrepancy

  /** Two tanks side by side in a row of four empty squares, listed right one
      first: the scan matches only the left one, moves past the right one's
      column and writes that square's tile, so the right tank is not shown. */
  lemma RosterOrderHidesTank()
    ensures var row := seq(4, _ => Cell(Empty, false));
      var ps: seq<(int, int)> := [(0, 2), (0, 1)];
      && (0, 2) in ps
      && RowSafe(ps, 0, 0, 4)
      && RowFrom(row, 0, ps, 0) == [' ', 'P', ' ', ' ']
  {
    var row := seq(4, _ => Cell(Empty, false));
    var ps: seq<(int, int)> := [(0, 2), (0, 1)];
    assert ps[1..] == [(0, 1)] && |ps[1..][1..]| == 0;
    assert Marks(ps, 0, 0) == 0;
    assert Marks(ps, 0, 1) == 1;
    assert Marks(ps, 0, 3) == 0;
    assert RowSafe(ps, 0, 4, 4);
    assert RowSafe(ps, 0, 3, 4);
    assert RowSafe(ps, 0, 1, 4);
    assert RowFrom(row, 0, ps, 4) == [];
    assert RowFrom(row, 0, ps, 3) == [' '];
    assert RowFrom(row, 0, ps, 1) == ['P', ' ', ' '];
  }

  /** The evidently intended scan: at each column the roster is searched for
      a tank at that square, and the column shows 'P' if one is found and the
      tile's character otherwise; the column never moves. */
  function IntendedRowFrom(row: seq<Cell>, i: int, ps: seq<(int, int)>, j: int): (s: seq<char>)
    requires 0 <= j <= |row|
    ensures |s| == |row| - j
    decreases |row| - j
  {
    if j == |row| then []
    else [if (i, j) in ps then 'P' else TileChar(row[j].kind)] + IntendedRowFrom(row, i, ps, j + 1)
  }

  /** The intended matrix, which needs no condition on where tanks stand. */
  function IntendedBoard(g: Tiles, w: int, ps: seq<(int, int)>): (r: seq<seq<char>>)
    requires 0 <= w && IsGrid(g, |g|, w)
    ensures |r| == |g| + 2
  {
    [Border(w)] + seq(|g|, i requires 0 <= i < |g| => ['#'] + IntendedRowFrom(g[i], i, ps, 0) + ['#']) + [Border(w)]
  }

  /** In the intended scan a square shows 'P' exactly when a tank stands on
      it, and its tile's character otherwise. */
  lemma {:induction false} IntendedRowExact(row: seq<Cell>, i: int, ps: seq<(int, int)>, j: int)
    requires 0 <= j <= |row|
    ensures forall c :: j <= c < |row| ==>
      IntendedRowFrom(row, i, ps, j)[c - j] == if (i, c) in ps then 'P' else TileChar(row[c].kind)
    decreases |row| - j
  {
    if j < |row| {
      IntendedRowExact(row, i, ps, j + 1);
      var s := IntendedRowFrom(row, i, ps, j);
      var rest := IntendedRowFrom(row, i, ps, j + 1);
      assert s == [s[0]] + rest;
      forall d | 1 <= d < |s| ensures s[d] == rest[d - 1] {
      }
    }
  }

  /** Every square of the intended matrix shows 'P' exactly when a tank stands
      on it. */
  lemma IntendedBoardShowsTanks(g: Tiles, w: int, ps: seq<(int, int)>, i: int, c: int)
    requires 0 <= w && IsGrid(g, |g|, w) && 0 <= i < |g| && 0 <= c < w
    ensures IntendedBoard(g, w, ps)[i + 1][c + 1] == if (i, c) in ps then 'P' else TileChar(g[i][c].kind)
  {
    IntendedRowExact(g[i], i, ps, 0);
    assert IntendedBoard(g, w, ps)[i + 1] == ['#'] + IntendedRowFrom(g[i], i, ps, 0) + ['#'];
  }

  /** No two tanks of row i stand side by side. */
  predicate NoAdjacentTanks(ps: seq<(int, int)>, i: int)
  {
    forall k, l :: 0 <= k < |ps| && 0 <= l < |ps| && ps[k].0 == i ==> ps[l] != (i, ps[k].1 + 1)
  }

  /** Under NoAdjacentTanks the square right of a tank holds none. */
  lemma NoTankToTheRight(ps: seq<(int, int)>, i: int, c: int)
    requires NoAdjacentTanks(ps, i) && (i, c) in ps
    ensures (i, c + 1) !in ps
  {
    var k :| 0 <= k < |ps| && ps[k] == (i, c);
    assert ps[k].0 == i && ps[k].1 + 1 == c + 1;
  }

  /** At a column holding a tank, with no tank to its right, the walk emits
      one 'P' and then the tile of the next column. */
  lemma RowFromAtTank(row: seq<Cell>, i: int, ps: seq<(int, int)>, j: int)
    requires 0 <= j < |row| && NoAdjacentTanks(ps, i) && (i, j) in ps && RowSafe(ps, i, j, |row|)
    ensures j + 2 <= |row| && RowSafe(ps, i, j + 2, |row|)
    ensures RowFrom(row, i, ps, j) == ['P', TileChar(row[j + 1].kind)] + RowFrom(row, i, ps, j + 2)
  {
    var m := Marks(ps, i, j);
    MarksCovered(ps, i, j);
    MarksPositive(ps, i, j);
    NoTankToTheRight(ps, i, j);
    assert m == 1;
    assert seq(m, _ => 'P') == ['P'];
  }

  /** At a column holding no tank, the walk writes that column's tile. */
  lemma RowFromAtTile(row: seq<Cell>, i: int, ps: seq<(int, int)>, j: int)
    requires 0 <= j < |row| && (i, j) !in ps && RowSafe(ps, i, j, |row|)
    ensures RowSafe(ps, i, j + 1, |row|)
    ensures RowFrom(row, i, ps, j) == [TileChar(row[j].kind)] + RowFrom(row, i, ps, j + 1)
  {
    var m := Marks(ps, i, j);
    MarksCovered(ps, i, j);
    assert m == 0;
    assert seq(m, _ => 'P') == [];
  }

  /** When no two tanks of a row stand side by side, the source's scan and the
      intended one write the same row. */
  lemma {:induction false} ScansAgree(row: seq<Cell>, i: int, ps: seq<(int, int)>, j: int)
    requires 0 <= j <= |row| && NoAdjacentTanks(ps, i) && RowSafe(ps, i, j, |row|)
    ensures RowFrom(row, i, ps, j) == IntendedRowFrom(row, i, ps, j)
    decreases |row| - j
  {
    if j < |row| {
      if (i, j) in ps {
        RowFromAtTank(row, i, ps, j);
        NoTankToTheRight(ps, i, j);
        ScansAgree(row, i, ps, j + 2);
        var tile := TileChar(row[j + 1].kind);
        var tail := IntendedRowFrom(row, i, ps, j + 2);
        assert IntendedRowFrom(row, i, ps, j + 1) == [tile] + tail;
        assert IntendedRowFrom(row, i, ps, j) == ['P'] + ([tile] + tail);
        assert ['P'] + ([tile] + tail) == ['P', tile] + tail;
      } else {
        RowFromAtTile(row, i, ps, j);
        ScansAgree(row, i, ps, j + 1);
        assert IntendedRowFrom(row, i, ps, j) == [TileChar(row[j].kind)] + IntendedRowFrom(row, i, ps, j + 1);
      }
    }
  }
}
