/**
 * Board generation as values: the difficulty percentage table, the threshold
 * fill driven by one roll in [0, 100) per square (row-major), the wall list it
 * records, the square repair (FixSquaring) and the row/column repair
 * (FixRowsAndColumns).
 */
module Generation {
  import opened Wrappers
  import opened Grid

  // ---------------------------------------------------------------- table

  /** The weights of empty, breakable, unbreakable and bomb squares. */
  datatype Percentages = Percentages(zero: int, one: int, two: int, bomb: int)

  /** SetPercentages: the fixed table for difficulties 1 to 4; any other
      difficulty is an error (the source throws). */
  function PercentageTable(difficulty: int): (p: Option<Percentages>)
    ensures p.Some? <==> 1 <= difficulty <= 4
    ensures p.Some? ==>
      && 0 <= p.value.zero && 0 <= p.value.one && 0 <= p.value.two && 0 <= p.value.bomb
      && p.value.zero + p.value.one + p.value.two + p.value.bomb >= 100
  {
    if difficulty == 1 then Some(Percentages(60, 20, 15, 5))
    else if difficulty == 2 then Some(Percentages(55, 20, 25, 10))
    else if difficulty == 3 then Some(Percentages(50, 25, 15, 10))
    else if difficulty == 4 then Some(Percentages(40, 30, 20, 10))
    else None
  }

  /** For difficulties 1, 3 and 4 the weights add up to 100; for difficulty 2
      they add up to 110 and the first three already cover every roll. */
  lemma TableDomain(difficulty: int)
    ensures difficulty in {1, 3, 4} ==>
      var p := PercentageTable(difficulty).value; p.zero + p.one + p.two + p.bomb == 100
    ensures difficulty == 2 ==>
      var p := PercentageTable(difficulty).value;
      p.zero + p.one + p.two == 100 && p.zero + p.one + p.two + p.bomb == 110
  {
  }

  /** The bomb cap of a generation run. */
  function MaxBombs(difficulty: int): int
  {
    3 + difficulty
  }

  // ----------------------------------------------------------------- fill

  /** The tile one roll yields, by cumulative thresholds; a bomb only while
      fewer than maxBombs bombs have been placed, otherwise an empty square. */
  function Classify(roll: int, p: Percentages, maxBombs: int, bombs: int): int
  {
    if roll < p.zero then Empty
    else if roll < p.zero + p.one then Breakable
    else if roll < p.zero + p.one + p.two then Unbreakable
    else if bombs < maxBombs then Bomb
    else Empty
  }

  /** How many entries of s equal v. */
  function Count(s: seq<int>, v: int): nat
  {
    if s == [] then 0 else Count(s[..|s| - 1], v) + (if s[|s| - 1] == v then 1 else 0)
  }

  /** All rolls lie in [0, 100), as rand() % 100 does. */
  predicate ValidRolls(rolls: seq<int>)
  {
    forall c :: 0 <= c < |rolls| ==> 0 <= rolls[c] < 100
  }

  /** A wall list entry: (column, row, type), as m_walls stores it. */
  type WallEntry = (int, int, int)

  /** The result of filling one row: its tile types, the walls it records and
      the bomb count after it. */
  datatype RowFill = RowFill(kinds: seq<int>, walls: seq<WallEntry>, bombs: int)

  /** Fills row `row` from its rolls, left to right, starting with bombs0
      bombs already on the board. */
  function FillRow(rolls: seq<int>, row: int, p: Percentages, maxBombs: int, bombs0: int): (f: RowFill)
    ensures |f.kinds| == |rolls|
    decreases |rolls|
  {
    if rolls == [] then RowFill([], [], bombs0)
    else
      var c := |rolls| - 1;
      var prev := FillRow(rolls[..c], row, p, maxBombs, bombs0);
      var k := Classify(rolls[c], p, maxBombs, prev.bombs);
      RowFill(prev.kinds + [k],
              prev.walls + (if k == Empty then [] else [(c, row, k)]),
              prev.bombs + (if k == Bomb then 1 else 0))
  }

  /** Filling one more roll classifies it against the bombs placed so far
      and appends its tile, and its wall unless it is empty. */
  lemma FillRowStep(rolls: seq<int>, row: int, p: Percentages, maxBombs: int, bombs0: int, j: int)
    requires 0 <= j < |rolls|
    ensures var prev := FillRow(rolls[..j], row, p, maxBombs, bombs0);
      var k := Classify(rolls[j], p, maxBombs, prev.bombs);
      FillRow(rolls[..j + 1], row, p, maxBombs, bombs0)
        == RowFill(prev.kinds + [k], prev.walls + (if k == Empty then [] else [(j, row, k)]), prev.bombs + (if k == Bomb then 1 else 0))
  {
    assert rolls[..j + 1][..j] == rolls[..j];
  }

  /** Filling a prefix of the rolls gives the prefix of the filled row. */
  lemma {:induction false} FillRowPrefix(rolls: seq<int>, row: int, p: Percentages, maxBombs: int, bombs0: int, m: int)
    requires 0 <= m <= |rolls|
    ensures FillRow(rolls[..m], row, p, maxBombs, bombs0).kinds == FillRow(rolls, row, p, maxBombs, bombs0).kinds[..m]
    decreases |rolls|
  {
    if m < |rolls| {
      var n := |rolls| - 1;
      assert rolls[..n][..m] == rolls[..m];
      FillRowPrefix(rolls[..n], row, p, maxBombs, bombs0, m);
    } else {
      assert rolls[..m] == rolls;
    }
  }

  /** The bomb count after a row is the count before it plus the bombs the
      row places. */
  lemma {:induction false} FillRowCountsBombs(rolls: seq<int>, row: int, p: Percentages, maxBombs: int, bombs0: int)
    ensures var f := FillRow(rolls, row, p, maxBombs, bombs0); f.bombs == bombs0 + Count(f.kinds, Bomb)
    decreases |rolls|
  {
    if rolls != [] {
      var n := |rolls| - 1;
      FillRowCountsBombs(rolls[..n], row, p, maxBombs, bombs0);
      var prev := FillRow(rolls[..n], row, p, maxBombs, bombs0);
      var f := FillRow(rolls, row, p, maxBombs, bombs0);
      assert f.kinds[..n] == prev.kinds;
    }
  }

  /** Square c of the row is the tile its roll yields given the bombs placed
      before it (those of earlier rows and of squares [0, c) of this row), and
      is one of the four tile types. */
  lemma {:induction false} FillRowAt(rolls: seq<int>, row: int, p: Percentages, maxBombs: int, bombs0: int, c: int)
    requires 0 <= c < |rolls|
    ensures var f := FillRow(rolls, row, p, maxBombs, bombs0);
      && f.kinds[c] == Classify(rolls[c], p, maxBombs, bombs0 + Count(f.kinds[..c], Bomb))
      && Empty <= f.kinds[c] <= Bomb
  {
    var f := FillRow(rolls, row, p, maxBombs, bombs0);
    var upTo := FillRow(rolls[..c + 1], row, p, maxBombs, bombs0);
    var before := FillRow(rolls[..c], row, p, maxBombs, bombs0);
    FillRowPrefix(rolls, row, p, maxBombs, bombs0, c + 1);
    FillRowPrefix(rolls, row, p, maxBombs, bombs0, c);
    FillRowCountsBombs(rolls[..c], row, p, maxBombs, bombs0);
    assert rolls[..c + 1][..c] == rolls[..c];
    assert upTo.kinds == before.kinds + [Classify(rolls[c], p, maxBombs, before.bombs)];
    assert f.kinds[c] == upTo.kinds[c];
  }

  /** Every square of the row gets one of the four tile types. */
  lemma {:induction false} FillRowKinds(rolls: seq<int>, row: int, p: Percentages, maxBombs: int, bombs0: int)
    ensures forall c :: 0 <= c < |rolls| ==> Empty <= FillRow(rolls, row, p, maxBombs, bombs0).kinds[c] <= Bomb
    decreases |rolls|
  {
    if rolls != [] {
      var n := |rolls| - 1;
      FillRowKinds(rolls[..n], row, p, maxBombs, bombs0);
      var prev := FillRow(rolls[..n], row, p, maxBombs, bombs0);
      var f := FillRow(rolls, row, p, maxBombs, bombs0);
      assert f.kinds == prev.kinds + [Classify(rolls[n], p, maxBombs, prev.bombs)];
      forall c | 0 <= c < |rolls| ensures Empty <= f.kinds[c] <= Bomb {
        if c < n {
          assert f.kinds[c] == prev.kinds[c];
        }
      }
    }
  }

  /** Starting at or under the cap, the row never takes the bomb count over it. */
  lemma {:induction false} FillRowBombCap(rolls: seq<int>, row: int, p: Percentages, maxBombs: int, bombs0: int)
    requires bombs0 <= maxBombs
    ensures bombs0 <= FillRow(rolls, row, p, maxBombs, bombs0).bombs <= maxBombs
    decreases |rolls|
  {
    if rolls != [] {
      FillRowBombCap(rolls[..|rolls| - 1], row, p, maxBombs, bombs0);
    }
  }

  /** The row records exactly its non-empty squares as (column, row, type), by
      increasing column. */
  lemma {:induction false} FillRowWalls(rolls: seq<int>, row: int, p: Percentages, maxBombs: int, bombs0: int)
    ensures var f := FillRow(rolls, row, p, maxBombs, bombs0);
      && (forall e :: e in f.walls <==> 0 <= e.0 < |rolls| && e.1 == row && e.2 == f.kinds[e.0] && e.2 != Empty)
      && (forall a, b :: 0 <= a < b < |f.walls| ==> f.walls[a].0 < f.walls[b].0)
      && (forall a :: 0 <= a < |f.walls| ==> 0 <= f.walls[a].0 < |rolls|)
    decreases |rolls|
  {
    if rolls != [] {
      var n := |rolls| - 1;
      FillRowWalls(rolls[..n], row, p, maxBombs, bombs0);
      var prev := FillRow(rolls[..n], row, p, maxBombs, bombs0);
      var f := FillRow(rolls, row, p, maxBombs, bombs0);
      var k := Classify(rolls[n], p, maxBombs, prev.bombs);
      var extra: seq<WallEntry> := if k == Empty then [] else [(n, row, k)];
      assert f.kinds == prev.kinds + [k];
      assert f.walls == prev.walls + extra;
      forall c | 0 <= c < n ensures f.kinds[c] == prev.kinds[c] {
      }
      forall e ensures e in f.walls <==> 0 <= e.0 < |rolls| && e.1 == row && e.2 == f.kinds[e.0] && e.2 != Empty {
        assert e in f.walls <==> e in prev.walls || e in extra;
      }
      forall a, b | 0 <= a < b < |f.walls| ensures f.walls[a].0 < f.walls[b].0 {
        if b < |prev.walls| {
          assert f.walls[a] == prev.walls[a] && f.walls[b] == prev.walls[b];
        } else {
          assert f.walls[a] == prev.walls[a] && f.walls[b] == (n, row, k);
        }
      }
    }
  }

  /** The result of filling the whole grid. */
  datatype GridFill = GridFill(kinds: seq<seq<int>>, walls: seq<WallEntry>, bombs: int)

  /** (c1, r1) comes before (c2, r2) in row-major order. */
  predicate RowMajorBefore(e1: WallEntry, e2: WallEntry)
  {
    e1.1 < e2.1 || (e1.1 == e2.1 && e1.0 < e2.0)
  }

  /** Fills the rows top to bottom, carrying the bomb count across rows. */
  function FillGrid(rolls: seq<seq<int>>, p: Percentages, maxBombs: int): (f: GridFill)
    ensures |f.kinds| == |rolls| && forall r :: 0 <= r < |rolls| ==> |f.kinds[r]| == |rolls[r]|
    decreases |rolls|
  {
    if rolls == [] then GridFill([], [], 0)
    else
      var r := |rolls| - 1;
      var prev := FillGrid(rolls[..r], p, maxBombs);
      var row := FillRow(rolls[r], r, p, maxBombs, prev.bombs);
      GridFill(prev.kinds + [row.kinds], prev.walls + row.walls, row.bombs)
  }

  /** How many bomb squares a filled grid holds, row by row. */
  function TotalBombs(kinds: seq<seq<int>>): nat
  {
    if kinds == [] then 0 else TotalBombs(kinds[..|kinds| - 1]) + Count(kinds[|kinds| - 1], Bomb)
  }

  /** The counter the fill carries (numberOfBombs) is the number of bomb
      squares it has placed. */
  lemma {:induction false} FillGridCountsBombs(rolls: seq<seq<int>>, p: Percentages, maxBombs: int)
    ensures var f := FillGrid(rolls, p, maxBombs); f.bombs == TotalBombs(f.kinds)
    decreases |rolls|
  {
    if rolls != [] {
      var n := |rolls| - 1;
      FillGridCountsBombs(rolls[..n], p, maxBombs);
      var prev := FillGrid(rolls[..n], p, maxBombs);
      FillRowCountsBombs(rolls[n], n, p, maxBombs, prev.bombs);
      var f := FillGrid(rolls, p, maxBombs);
      assert f.kinds[..n] == prev.kinds;
    }
  }

  /** Every square gets one of the four tile types, and with a non-negative cap
      the board never holds more than maxBombs bomb squares. */
  lemma FillGridBounds(rolls: seq<seq<int>>, p: Percentages, maxBombs: int)
    requires 0 <= maxBombs
    ensures var f := FillGrid(rolls, p, maxBombs);
      && 0 <= f.bombs <= maxBombs
      && TotalBombs(f.kinds) <= maxBombs
      && forall r, c :: 0 <= r < |rolls| && 0 <= c < |rolls[r]| ==> Empty <= f.kinds[r][c] <= Bomb
  {
    FillGridCountsBombs(rolls, p, maxBombs);
    FillGridKinds(rolls, p, maxBombs);
  }

  lemma {:induction false} FillGridKinds(rolls: seq<seq<int>>, p: Percentages, maxBombs: int)
    requires 0 <= maxBombs
    ensures var f := FillGrid(rolls, p, maxBombs);
      && 0 <= f.bombs <= maxBombs
      && forall r, c :: 0 <= r < |rolls| && 0 <= c < |rolls[r]| ==> Empty <= f.kinds[r][c] <= Bomb
    decreases |rolls|
  {
    if rolls != [] {
      var n := |rolls| - 1;
      FillGridKinds(rolls[..n], p, maxBombs);
      var prev := FillGrid(rolls[..n], p, maxBombs);
      FillRowBombCap(rolls[n], n, p, maxBombs, prev.bombs);
      FillRowKinds(rolls[n], n, p, maxBombs, prev.bombs);
      var f := FillGrid(rolls, p, maxBombs);
      forall r | 0 <= r < n ensures f.kinds[r] == prev.kinds[r] && rolls[r] == rolls[..n][r] {
      }
    }
  }

  /** m_walls lists exactly the non-empty squares as (column, row, type), in
      row-major order. */
  lemma FillGridWalls(rolls: seq<seq<int>>, p: Percentages, maxBombs: int)
    ensures var f := FillGrid(rolls, p, maxBombs);
      && (forall e :: e in f.walls <==>
            0 <= e.1 < |rolls| && 0 <= e.0 < |rolls[e.1]| && e.2 == f.kinds[e.1][e.0] && e.2 != Empty)
      && (forall a, b :: 0 <= a < b < |f.walls| ==> RowMajorBefore(f.walls[a], f.walls[b]))
      && (forall a :: 0 <= a < |f.walls| ==> 0 <= f.walls[a].1 < |rolls|)
  {
    FillGridWallSet(rolls, p, maxBombs);
    FillGridWallOrder(rolls, p, maxBombs);
  }

  lemma {:induction false} FillGridWallSet(rolls: seq<seq<int>>, p: Percentages, maxBombs: int)
    ensures var f := FillGrid(rolls, p, maxBombs);
      forall e :: e in f.walls <==>
        0 <= e.1 < |rolls| && 0 <= e.0 < |rolls[e.1]| && e.2 == f.kinds[e.1][e.0] && e.2 != Empty
    decreases |rolls|
  {
    if rolls != [] {
      var n := |rolls| - 1;
      FillGridWallSet(rolls[..n], p, maxBombs);
      var prev := FillGrid(rolls[..n], p, maxBombs);
      FillRowWalls(rolls[n], n, p, maxBombs, prev.bombs);
      var row := FillRow(rolls[n], n, p, maxBombs, prev.bombs);
      var f := FillGrid(rolls, p, maxBombs);
      assert f.walls == prev.walls + row.walls;
      forall r | 0 <= r < n ensures f.kinds[r] == prev.kinds[r] && rolls[r] == rolls[..n][r] {
      }
      assert f.kinds[n] == row.kinds;
    }
  }

  /** The entries are in strictly increasing row-major order. */
  predicate RowMajorSorted(walls: seq<WallEntry>)
  {
    forall a, b :: 0 <= a < b < |walls| ==> RowMajorBefore(walls[a], walls[b])
  }

  /** Every entry lies in a row in [0, n). */
  predicate RowsBelow(walls: seq<WallEntry>, n: int)
  {
    forall a :: 0 <= a < |walls| ==> 0 <= walls[a].1 < n
  }

  lemma {:induction false} FillGridWallOrder(rolls: seq<seq<int>>, p: Percentages, maxBombs: int)
    ensures RowMajorSorted(FillGrid(rolls, p, maxBombs).walls)
    ensures RowsBelow(FillGrid(rolls, p, maxBombs).walls, |rolls|)
    decreases |rolls|
  {
    if rolls != [] {
      var n := |rolls| - 1;
      FillGridWallOrder(rolls[..n], p, maxBombs);
      var prev := FillGrid(rolls[..n], p, maxBombs);
      FillRowWalls(rolls[n], n, p, maxBombs, prev.bombs);
      var row := FillRow(rolls[n], n, p, maxBombs, prev.bombs);
      assert FillGrid(rolls, p, maxBombs).walls == prev.walls + row.walls;
      forall a | 0 <= a < |row.walls| ensures row.walls[a].1 == n {
        assert row.walls[a] in row.walls;
      }
      RowMajorAppend(prev.walls, row.walls, n);
    }
  }

  /** Appending a row's walls, in column order, after the walls of the rows
      above keeps the list in row-major order. */
  lemma RowMajorAppend(above: seq<WallEntry>, walls: seq<WallEntry>, n: int)
    requires 0 <= n && RowMajorSorted(above) && RowsBelow(above, n)
    requires forall a :: 0 <= a < |walls| ==> walls[a].1 == n
    requires forall a, b :: 0 <= a < b < |walls| ==> walls[a].0 < walls[b].0
    ensures RowMajorSorted(above + walls) && RowsBelow(above + walls, n + 1)
  {
    var all := above + walls;
    forall a, b | 0 <= a < b < |all| ensures RowMajorBefore(all[a], all[b]) {
      if b < |above| {
        assert all[a] == above[a] && all[b] == above[b];
      } else if a >= |above| {
        assert all[a] == walls[a - |above|] && all[b] == walls[b - |above|];
      } else {
        assert all[a] == above[a] && all[b] == walls[b - |above|];
      }
    }
    forall a | 0 <= a < |all| ensures 0 <= all[a].1 < n + 1 {
      if a >= |above| {
        assert all[a] == walls[a - |above|];
      }
    }
  }

  /** When every roll falls below the first three thresholds, the row holds
      no bomb. */
  lemma {:induction false} NoBombsInRow(rolls: seq<int>, row: int, p: Percentages, maxBombs: int, bombs0: int)
    requires ValidRolls(rolls) && p.zero + p.one + p.two >= 100
    ensures forall c :: 0 <= c < |rolls| ==> FillRow(rolls, row, p, maxBombs, bombs0).kinds[c] != Bomb
    decreases |rolls|
  {
    if rolls != [] {
      var n := |rolls| - 1;
      NoBombsInRow(rolls[..n], row, p, maxBombs, bombs0);
      var prev := FillRow(rolls[..n], row, p, maxBombs, bombs0);
      var f := FillRow(rolls, row, p, maxBombs, bombs0);
      assert rolls[n] < p.zero + p.one + p.two;
      forall c | 0 <= c < n ensures f.kinds[c] == prev.kinds[c] {
      }
    }
  }

  /** At difficulty 2 the first three weights cover 0..99, so no bomb is placed. */
  lemma {:induction false} NormalDifficultyHasNoBombs(rolls: seq<seq<int>>)
    requires forall r :: 0 <= r < |rolls| ==> ValidRolls(rolls[r])
    ensures forall r, c :: 0 <= r < |rolls| && 0 <= c < |rolls[r]| ==>
      FillGrid(rolls, PercentageTable(2).value, MaxBombs(2)).kinds[r][c] != Bomb
    decreases |rolls|
  {
    var p := PercentageTable(2).value;
    if rolls != [] {
      var r := |rolls| - 1;
      assert rolls[..r] + [rolls[r]] == rolls;
      NormalDifficultyHasNoBombs(rolls[..r]);
      var prev := FillGrid(rolls[..r], p, MaxBombs(2));
      NoBombsInRow(rolls[r], r, p, MaxBombs(2), prev.bombs);
      var f := FillGrid(rolls, p, MaxBombs(2));
      assert f.kinds[r] == FillRow(rolls[r], r, p, MaxBombs(2), prev.bombs).kinds;
      forall a, c | 0 <= a < |rolls| && 0 <= c < |rolls[a]| ensures f.kinds[a][c] != Bomb {
        if a < r {
          assert f.kinds[a] == prev.kinds[a] && rolls[..r][a] == rolls[a];
        }
      }
    }
  }

  /** A filled row: the filled tile types, no start positions. */
  function FilledRow(kinds: seq<int>): (row: seq<Cell>)
    ensures |row| == |kinds|
  {
    seq(|kinds|, c requires 0 <= c < |kinds| => Cell(kinds[c], false))
  }

  /** The board the fill produces. */
  function FilledGrid(kinds: seq<seq<int>>): (g: Tiles)
    ensures |g| == |kinds| && forall r :: 0 <= r < |kinds| ==> |g[r]| == |kinds[r]|
  {
    seq(|kinds|, r requires 0 <= r < |kinds| => FilledRow(kinds[r]))
  }

  /** How many squares of a row are bombs. */
  function RowBombs(row: seq<Cell>): nat
  {
    if row == [] then 0 else RowBombs(row[..|row| - 1]) + (if row[|row| - 1].kind == Bomb then 1 else 0)
  }

  /** How many squares of a board are bombs. */
  function GridBombs(g: Tiles): nat
  {
    if g == [] then 0 else GridBombs(g[..|g| - 1]) + RowBombs(g[|g| - 1])
  }

  /** Building the board from the fill keeps every bomb. */
  lemma {:induction false} FilledRowBombs(kinds: seq<int>)
    ensures RowBombs(FilledRow(kinds)) == Count(kinds, Bomb)
    decreases |kinds|
  {
    if kinds != [] {
      var n := |kinds| - 1;
      FilledRowBombs(kinds[..n]);
      assert FilledRow(kinds)[..n] == FilledRow(kinds[..n]);
    }
  }

  lemma {:induction false} FilledGridBombs(kinds: seq<seq<int>>)
    ensures GridBombs(FilledGrid(kinds)) == TotalBombs(kinds)
    decreases |kinds|
  {
    if kinds != [] {
      var n := |kinds| - 1;
      FilledGridBombs(kinds[..n]);
      FilledRowBombs(kinds[n]);
      assert FilledGrid(kinds)[..n] == FilledGrid(kinds[..n]);
    }
  }

  /** A row in which every square kept its type or became empty holds no more
      bombs than before. */
  lemma {:induction false} RowBombsShrink(before: seq<Cell>, after: seq<Cell>)
    requires |after| == |before|
    requires forall c :: 0 <= c < |before| ==> after[c].kind == before[c].kind || after[c].kind == Empty
    ensures RowBombs(after) <= RowBombs(before)
    decreases |before|
  {
    if before != [] {
      var n := |before| - 1;
      RowBombsShrink(before[..n], after[..n]);
    }
  }

  /** The same for a whole board. */
  lemma {:induction false} GridBombsShrink(before: Tiles, after: Tiles)
    requires |after| == |before|
    requires forall a :: 0 <= a < |before| ==> |after[a]| == |before[a]|
    requires forall a, b :: 0 <= a < |before| && 0 <= b < |before[a]| ==>
      after[a][b].kind == before[a][b].kind || after[a][b].kind == Empty
    ensures GridBombs(after) <= GridBombs(before)
    decreases |before|
  {
    if before != [] {
      var n := |before| - 1;
      GridBombsShrink(before[..n], after[..n]);
      RowBombsShrink(before[n], after[n]);
    }
  }

  // ------------------------------------------------------------ squaring

  /** Rows [0, k) x columns [j, k) are all unbreakable walls (vacuously so when
      j >= k). */
  predicate SquareAt(g: Tiles, k: int, j: int)
    requires k <= |g| && forall r :: 0 <= r < |g| ==> k <= |g[r]|
  {
    forall a, b :: 0 <= a < k && 0 <= j <= b < k ==> g[a][b].kind == Unbreakable
  }

  /** The first column from j on at which SquareAt holds; column k always does. */
  function FirstSquareColumn(g: Tiles, k: int, j: int): (c: int)
    requires 0 <= j <= k < |g| && forall r :: 0 <= r < |g| ==> k < |g[r]|
    ensures j <= c <= k && SquareAt(g, k, c)
    ensures forall c' :: j <= c' < c ==> !SquareAt(g, k, c')
    decreases k - j
  {
    if SquareAt(g, k, j) then j else FirstSquareColumn(g, k, j + 1)
  }

  /** g after one FixSquaring(k): the square at row 0 of the first matching
      column becomes empty. */
  function FixSquare(g: Tiles, k: int): (r: Tiles)
    requires 0 <= k < |g| && forall a :: 0 <= a < |g| ==> k < |g[a]|
    ensures |r| == |g| && forall a :: 0 <= a < |g| ==> |r[a]| == |g[a]|
  {
    SetKind(g, 0, FirstSquareColumn(g, k, 0), Empty)
  }

  /** FixSquaring(k) repeated n times. */
  function FixSquareRounds(g: Tiles, k: int, n: nat): (r: Tiles)
    requires 0 <= k < |g| && forall a :: 0 <= a < |g| ==> k < |g[a]|
    ensures |r| == |g| && forall a :: 0 <= a < |g| ==> |r[a]| == |g[a]|
    decreases n
  {
    if n == 0 then g else FixSquare(FixSquareRounds(g, k, n - 1), k)
  }

  /** One FixSquaring writes exactly one cell, (0, j) for the least j in 0..k
      with SquareAt, turning it empty; everything else, and every start flag,
      stays. */
  lemma {:induction false} FixSquareChangesOneCell(g: Tiles, k: int)
    requires 0 <= k < |g| && forall a :: 0 <= a < |g| ==> k < |g[a]|
    ensures var j := FirstSquareColumn(g, k, 0);
      && SquareAt(g, k, j) && (forall c :: 0 <= c < j ==> !SquareAt(g, k, c))
      && FixSquare(g, k)[0][j] == g[0][j].(kind := Empty)
      && forall a, b :: 0 <= a < |g| && 0 <= b < |g[a]| && (a, b) != (0, j) ==> FixSquare(g, k)[a][b] == g[a][b]
  {
  }

  /** The repair never changes a start flag and only ever writes empty squares. */
  lemma {:induction false} FixSquareRoundsOnlyEmpties(g: Tiles, k: int, n: nat)
    requires 0 <= k < |g| && forall a :: 0 <= a < |g| ==> k < |g[a]|
    ensures forall a, b :: 0 <= a < |g| && 0 <= b < |g[a]| ==>
      FixSquareRounds(g, k, n)[a][b].isStart == g[a][b].isStart &&
      (FixSquareRounds(g, k, n)[a][b].kind == g[a][b].kind || FixSquareRounds(g, k, n)[a][b].kind == Empty)
    decreases n
  {
    if n > 0 {
      var g1 := FixSquareRounds(g, k, n - 1);
      FixSquareRoundsOnlyEmpties(g, k, n - 1);
      FixSquareChangesOneCell(g1, k);
    }
  }

  function Min(a: int, b: int): int
  {
    if a < b then a else b
  }

  /** The number of FixSquaring calls GenerateBoard makes: one per value of
      its loop counter from 3 to the smaller dimension. */
  function SquaringCalls(h: int, w: int): nat
  {
    if Min(h, w) >= 3 then Min(h, w) - 2 else 0
  }

  /** GenerateBoard's squaring loop: SquaringCalls(h, w) calls of
      FixSquaring(min(h, w) - 1). */
  function SquaringPass(g: Tiles, h: int, w: int): (r: Tiles)
    requires IsGrid(g, h, w)
    ensures IsGrid(r, h, w)
  {
    if SquaringCalls(h, w) == 0 then g else FixSquareRounds(g, Min(h, w) - 1, SquaringCalls(h, w))
  }

  // --------------------------------------------------- rows and columns

  predicate RowAllTwos(row: seq<Cell>)
  {
    forall c :: 0 <= c < |row| ==> row[c].kind == Unbreakable
  }

  predicate ColumnAllTwos(g: Tiles, w: int, c: int)
    requires IsGrid(g, |g|, w) && 0 <= c < w
  {
    forall r :: 0 <= r < |g| ==> g[r][c].kind == Unbreakable
  }

  /** The first |row| / 2 squares of a row made empty. */
  function ClearFirstHalf(row: seq<Cell>): (r: seq<Cell>)
    ensures |r| == |row|
  {
    seq(|row|, c requires 0 <= c < |row| => if c < |row| / 2 then row[c].(kind := Empty) else row[c])
  }

  /** The row pass: every all-unbreakable row loses its first half. */
  function FixRows(g: Tiles): (r: Tiles)
    ensures |r| == |g| && forall a :: 0 <= a < |g| ==> |r[a]| == |g[a]|
  {
    seq(|g|, a requires 0 <= a < |g| => if RowAllTwos(g[a]) then ClearFirstHalf(g[a]) else g[a])
  }

  /** The column pass: every all-unbreakable column loses its top half rows.
      Each column's check reads only that column, and each fix writes only it,
      so the columns are independent of one another. */
  function FixColumns(g: Tiles, w: int): (r: Tiles)
    requires 0 <= w && IsGrid(g, |g|, w)
    ensures IsGrid(r, |g|, w)
  {
    seq(|g|, a requires 0 <= a < |g| =>
      seq(w, b requires 0 <= b < w =>
        if ColumnAllTwos(g, w, b) && a < |g| / 2 then g[a][b].(kind := Empty) else g[a][b]))
  }

  /** g after FixRowsAndColumns: first the rows, then the columns. */
  function FixRowsAndColumns(g: Tiles, w: int): (r: Tiles)
    requires 0 <= w && IsGrid(g, |g|, w)
    ensures IsGrid(r, |g|, w)
  {
    FixColumns(FixRows(g), w)
  }

  /** After the repair no row is all unbreakable (when rows have two or more
      squares) and no column is (when there are two or more rows). */
  lemma {:induction false} RepairLeavesNoSolidLine(g: Tiles, w: int)
    requires 0 <= w && IsGrid(g, |g|, w)
    ensures w >= 2 ==> forall a :: 0 <= a < |g| ==> !RowAllTwos(FixRowsAndColumns(g, w)[a])
    ensures |g| >= 2 ==> forall b :: 0 <= b < w ==> !ColumnAllTwos(FixRowsAndColumns(g, w), w, b)
  {
    var rows: Tiles := FixRows(g);
    var res: Tiles := FixRowsAndColumns(g, w);
    if w >= 2 {
      forall a | 0 <= a < |g| ensures !RowAllTwos(res[a]) {
        if RowAllTwos(g[a]) {
          assert rows[a][0].kind == Empty;
          assert res[a][0].kind == Empty;
        } else {
          var c :| 0 <= c < w && g[a][c].kind != Unbreakable;
          assert rows[a][c].kind != Unbreakable;
          assert res[a][c].kind != Unbreakable;
        }
      }
    }
    if |g| >= 2 {
      forall b | 0 <= b < w ensures !ColumnAllTwos(res, w, b) {
        if ColumnAllTwos(rows, w, b) {
          assert res[0][b].kind == Empty;
        } else {
          var a :| 0 <= a < |g| && rows[a][b].kind != Unbreakable;
          assert res[a][b].kind != Unbreakable;
        }
      }
    }
  }

  /** The repair only writes empty squares, keeps every start flag, and writes
      only in a row that was all unbreakable or in a column that was all
      unbreakable after the row pass. */
  lemma {:induction false} RepairOnlyEmptiesSolidLines(g: Tiles, w: int)
    requires 0 <= w && IsGrid(g, |g|, w)
    ensures forall a, b :: 0 <= a < |g| && 0 <= b < w ==>
      var r := FixRowsAndColumns(g, w)[a][b];
      && r.isStart == g[a][b].isStart
      && (r.kind == g[a][b].kind || r.kind == Empty)
      && (r != g[a][b] ==> RowAllTwos(g[a]) || ColumnAllTwos(FixRows(g), w, b))
  {
    var rows: Tiles := FixRows(g);
    var res: Tiles := FixRowsAndColumns(g, w);
    forall a, b | 0 <= a < |g| && 0 <= b < w
      ensures res[a][b].isStart == g[a][b].isStart
      ensures res[a][b].kind == g[a][b].kind || res[a][b].kind == Empty
      ensures res[a][b] != g[a][b] ==> RowAllTwos(g[a]) || ColumnAllTwos(rows, w, b)
    {
      assert rows[a][b].isStart == g[a][b].isStart;
      assert rows[a][b] != g[a][b] ==> RowAllTwos(g[a]);
    }
  }

  // ------------------------------------------------------------ the whole

  /** The rolls give one value per square of an h x w board. */
  predicate RollsFit(rolls: seq<seq<int>>, h: int, w: int)
  {
    |rolls| == h && forall r :: 0 <= r < |rolls| ==> |rolls[r]| == w && ValidRolls(rolls[r])
  }

  /** The board GenerateBoard leaves: the fill, then the squaring loop, then
      the row and column repair. */
  function GeneratedGrid(rolls: seq<seq<int>>, p: Percentages, maxBombs: int, h: nat, w: nat): (g: Tiles)
    requires RollsFit(rolls, h, w)
    ensures IsGrid(g, h, w)
  {
    var filled := FilledGrid(FillGrid(rolls, p, maxBombs).kinds);
    FixRowsAndColumns(SquaringPass(filled, h, w), w)
  }

  /** No square is a start position and every square holds one of the four
      tile types. */
  predicate PlainTiles(g: Tiles, h: int, w: int)
    requires IsGrid(g, h, w)
  {
    forall a, b :: 0 <= a < h && 0 <= b < w ==> !g[a][b].isStart && Empty <= g[a][b].kind <= Bomb
  }

  lemma FilledIsPlain(rolls: seq<seq<int>>, p: Percentages, maxBombs: int, h: nat, w: nat)
    requires RollsFit(rolls, h, w) && 0 <= maxBombs
    ensures IsGrid(FilledGrid(FillGrid(rolls, p, maxBombs).kinds), h, w)
    ensures PlainTiles(FilledGrid(FillGrid(rolls, p, maxBombs).kinds), h, w)
  {
    FillGridBounds(rolls, p, maxBombs);
  }

  lemma SquaringKeepsPlain(g: Tiles, h: int, w: int)
    requires IsGrid(g, h, w) && PlainTiles(g, h, w)
    ensures PlainTiles(SquaringPass(g, h, w), h, w)
  {
    if SquaringCalls(h, w) != 0 {
      FixSquareRoundsOnlyEmpties(g, Min(h, w) - 1, SquaringCalls(h, w));
    }
  }

  lemma RepairKeepsPlain(g: Tiles, h: nat, w: nat)
    requires IsGrid(g, h, w) && PlainTiles(g, h, w)
    ensures PlainTiles(FixRowsAndColumns(g, w), h, w)
  {
    RepairOnlyEmptiesSolidLines(g, w);
  }

  /** A generated board has no start position, only the four tile types, no
      row of unbreakable walls when it is two or more wide and no column of
      them when it is two or more high. */
  lemma GeneratedGridShape(rolls: seq<seq<int>>, p: Percentages, maxBombs: int, h: nat, w: nat)
    requires RollsFit(rolls, h, w) && 0 <= maxBombs
    ensures var g := GeneratedGrid(rolls, p, maxBombs, h, w);
      && PlainTiles(g, h, w)
      && (w >= 2 ==> forall a :: 0 <= a < h ==> !RowAllTwos(g[a]))
      && (h >= 2 ==> forall b :: 0 <= b < w ==> !ColumnAllTwos(g, w, b))
  {
    var filled: Tiles := FilledGrid(FillGrid(rolls, p, maxBombs).kinds);
    FilledIsPlain(rolls, p, maxBombs, h, w);
    var squared: Tiles := SquaringPass(filled, h, w);
    SquaringKeepsPlain(filled, h, w);
    RepairKeepsPlain(squared, h, w);
    RepairLeavesNoSolidLine(squared, w);
  }

  lemma SquaringKeepsBombCap(g: Tiles, h: int, w: int)
    requires IsGrid(g, h, w)
    ensures GridBombs(SquaringPass(g, h, w)) <= GridBombs(g)
  {
    if SquaringCalls(h, w) != 0 {
      FixSquareRoundsOnlyEmpties(g, Min(h, w) - 1, SquaringCalls(h, w));
      GridBombsShrink(g, SquaringPass(g, h, w));
    }
  }

  lemma RepairKeepsBombCap(g: Tiles, w: nat)
    requires IsGrid(g, |g|, w)
    ensures GridBombs(FixRowsAndColumns(g, w)) <= GridBombs(g)
  {
    RepairOnlyEmptiesSolidLines(g, w);
    GridBombsShrink(g, FixRowsAndColumns(g, w));
  }

  /** The repairs only ever clear squares, so a generated board holds at most
      maxBombs bombs. */
  lemma GeneratedBombCap(rolls: seq<seq<int>>, p: Percentages, maxBombs: int, h: nat, w: nat)
    requires RollsFit(rolls, h, w) && 0 <= maxBombs
    ensures GridBombs(GeneratedGrid(rolls, p, maxBombs, h, w)) <= maxBombs
  {
    var kinds := FillGrid(rolls, p, maxBombs).kinds;
    FillGridBounds(rolls, p, maxBombs);
    var filled: Tiles := FilledGrid(kinds);
    FilledGridBombs(kinds);
    var squared: Tiles := SquaringPass(filled, h, w);
    SquaringKeepsBombCap(filled, h, w);
    RepairKeepsBombCap(squared, w);
  }
}
