/**
 * The game board (Board.cpp): a height x width grid of (tile type, start
 * flag) squares, the tank roster, the wall list recorded by generation, the
 * count of joined players and the list of live bullets. Tank positions are
 * (row, column); wall entries are (column, row); bullets use a (column + 1,
 * row + 1) frame.
 */
module Boards {
  import opened Wrappers
  import opened Directions
  import opened Grid
  import opened Generation
  import opened Roster
  import opened Render
  import opened Tanks
  import opened Walls
  import opened Bullets

  /** The (column, row, type) entries a list of Wall objects stands for. */
  function Entry(w: Wall): WallEntry
    reads w
  {
    (w.x, w.y, w.kind)
  }

  function WallEntries(ws: seq<Wall>): (es: seq<WallEntry>)
    reads ws
    ensures |es| == |ws|
    ensures forall k :: 0 <= k < |ws| ==> es[k] == (ws[k].x, ws[k].y, ws[k].kind)
  {
    if ws == [] then []
    else WallEntries(ws[..|ws| - 1]) + [(ws[|ws| - 1].x, ws[|ws| - 1].y, ws[|ws| - 1].kind)]
  }

  // ------------------------------------------------------------- movement

  /** The facing a key selects: w, s, a, d in either case turn the tank up,
      down, left or right; any other key keeps the current facing. */
  function KeyDirection(key: char, current: Direction): (d: Direction)
    ensures key in "Ww" ==> d == Up
    ensures key in "Ss" ==> d == Down
    ensures key in "Aa" ==> d == Left
    ensures key in "Dd" ==> d == Right
    ensures key !in "WwSsAaDd" ==> d == current
  {
    if key == 'W' || key == 'w' then Up
    else if key == 'S' || key == 's' then Down
    else if key == 'A' || key == 'a' then Left
    else if key == 'D' || key == 'd' then Right
    else current
  }

  /** The square one step from (x, y) in direction d (x is the row). */
  function Target(d: Direction, x: int, y: int): (int, int)
  {
    match d
    case Up => (x - 1, y)
    case Down => (x + 1, y)
    case Left => (x, y - 1)
    case Right => (x, y + 1)
  }

  /** The one-sided bounds test Move makes before it reads the target square. */
  predicate GuardPasses(d: Direction, x: int, y: int, h: int, w: int)
  {
    match d
    case Up => x - 1 >= 0
    case Down => x + 1 < h
    case Left => y - 1 >= 0
    case Right => y + 1 < w
  }

  /** Whenever Move's test passes, the square it then reads is on the board. */
  predicate StepInRange(d: Direction, x: int, y: int, h: int, w: int)
  {
    GuardPasses(d, x, y, h, w) ==> Within(Target(d, x, y).0, Target(d, x, y).1, h, w)
  }

  /** Where a tank at (x, y) facing d ends up: on the target square if that is
      on the board and empty, otherwise where it was. */
  function Stepped(g: Tiles, h: int, w: int, d: Direction, x: int, y: int): (int, int)
    requires IsGrid(g, h, w)
  {
    var t := Target(d, x, y);
    if Within(t.0, t.1, h, w) && g[t.0][t.1].kind == Empty then t else (x, y)
  }

  /** A step moves the tank by exactly one square in its facing, onto an empty
      square of the board, or leaves it in place; it moves exactly when the
      target is on the board and empty. */
  lemma SteppedOneSquare(g: Tiles, h: int, w: int, d: Direction, x: int, y: int)
    requires IsGrid(g, h, w)
    ensures var p := Stepped(g, h, w, d, x, y);
      && (p != (x, y) <==> Within(Target(d, x, y).0, Target(d, x, y).1, h, w)
                           && g[Target(d, x, y).0][Target(d, x, y).1].kind == Empty)
      && (p != (x, y) ==> Abs(p.0 - x) + Abs(p.1 - y) == 1 && Within(p.0, p.1, h, w) && g[p.0][p.1].kind == Empty)
  {
  }

  // ---------------------------------------------------------------- blast

  /** (a, b) has been handled by the blast loop once it has reached row i,
      column j: it lies in the disk and comes before (i, j) in row-major order. */
  predicate Done(x: int, y: int, i: int, j: int, a: int, b: int)
  {
    InBlast(x, y, a, b) && (a < i || (a == i && b < j))
  }

  /** The on-board squares the blast loop has handled on reaching (i, j). */
  ghost function Handled(h: int, w: int, x: int, y: int, i: int, j: int): iset<(int, int)>
  {
    iset p: (int, int) | Within(p.0, p.1, h, w) && Done(x, y, i, j, p.0, p.1)
  }

  /** The squares a bomb at (x, y) reaches on an h x w board. */
  ghost function BlastZone(h: int, w: int, x: int, y: int): iset<(int, int)>
  {
    iset p: (int, int) | Within(p.0, p.1, h, w) && InBlast(x, y, p.0, p.1)
  }

  /** g is g0 with the blast applied to the squares handled on reaching (i, j). */
  ghost predicate BlastedUpTo(g: Tiles, g0: Tiles, h: int, w: int, x: int, y: int, i: int, j: int)
    requires IsGrid(g, h, w) && IsGrid(g0, h, w)
  {
    forall a, b :: Within(a, b, h, w) ==> g[a][b] == BreakIf(g0[a][b], Done(x, y, i, j, a, b))
  }

  /** The handled region grows by square (i, j) exactly when it is an
      on-board square of the disk. */
  lemma HandledStep(h: int, w: int, x: int, y: int, i: int, j: int)
    ensures Within(i, j, h, w) && InBlast(x, y, i, j) ==>
      Handled(h, w, x, y, i, j + 1) == Handled(h, w, x, y, i, j) + iset{(i, j)}
    ensures !(Within(i, j, h, w) && InBlast(x, y, i, j)) ==>
      Handled(h, w, x, y, i, j + 1) == Handled(h, w, x, y, i, j)
  {
    if Within(i, j, h, w) && InBlast(x, y, i, j) {
      assert Handled(h, w, x, y, i, j + 1) == Handled(h, w, x, y, i, j) + iset{(i, j)};
    } else {
      assert Handled(h, w, x, y, i, j + 1) == Handled(h, w, x, y, i, j);
    }
  }

  /** The blast loop starts with nothing handled, moves from the end of one
      row to the start of the next without handling anything, and ends
      having handled the whole zone. */
  lemma HandledBounds(h: int, w: int, x: int, y: int, i: int)
    ensures Handled(h, w, x, y, x - BlastRadius, y - BlastRadius) == iset{}
    ensures Handled(h, w, x, y, i, y + BlastRadius + 1) == Handled(h, w, x, y, i + 1, y - BlastRadius)
    ensures Handled(h, w, x, y, x + BlastRadius + 1, y - BlastRadius) == BlastZone(h, w, x, y)
  {
    assert Handled(h, w, x, y, x - BlastRadius, y - BlastRadius) == iset{};
    assert Handled(h, w, x, y, i, y + BlastRadius + 1) == Handled(h, w, x, y, i + 1, y - BlastRadius);
    assert Handled(h, w, x, y, x + BlastRadius + 1, y - BlastRadius) == BlastZone(h, w, x, y);
  }

  /** Blasting an on-board square (i, j) of the disk extends the blasted
      region by that square. */
  lemma BlastedStepHit(g: Tiles, g0: Tiles, h: int, w: int, x: int, y: int, i: int, j: int)
    requires IsGrid(g, h, w) && IsGrid(g0, h, w) && BlastedUpTo(g, g0, h, w, x, y, i, j)
    requires Within(i, j, h, w) && InBlast(x, y, i, j)
    ensures IsGrid(g[i := g[i][j := BreakIf(g[i][j], true)]], h, w)
    ensures BlastedUpTo(g[i := g[i][j := BreakIf(g[i][j], true)]], g0, h, w, x, y, i, j + 1)
  {
    var g1 := g[i := g[i][j := BreakIf(g[i][j], true)]];
    forall a, b | Within(a, b, h, w) ensures g1[a][b] == BreakIf(g0[a][b], Done(x, y, i, j + 1, a, b)) {
      if a == i && b == j {
        assert g[a][b] == g0[a][b];
      }
    }
  }

  /** A square off the board or outside the disk leaves the blasted region
      as it is. */
  lemma BlastedStepMiss(g: Tiles, g0: Tiles, h: int, w: int, x: int, y: int, i: int, j: int)
    requires IsGrid(g, h, w) && IsGrid(g0, h, w) && BlastedUpTo(g, g0, h, w, x, y, i, j)
    requires !(Within(i, j, h, w) && InBlast(x, y, i, j))
    ensures BlastedUpTo(g, g0, h, w, x, y, i, j + 1)
  {
    forall a, b | Within(a, b, h, w) ensures g[a][b] == BreakIf(g0[a][b], Done(x, y, i, j + 1, a, b)) {
      assert Done(x, y, i, j + 1, a, b) == Done(x, y, i, j, a, b);
    }
  }

  class Board {
    const height: nat
    const width: nat
    var difficulty: int
    var grid: Tiles
    var players: seq<Tank>
    var walls: seq<Wall>
    var numberOfPlayers: int
    var bullets: seq<Bullet>

    /** The grid has the board's shape, no tank object sits in two slots, and
        the join counter is at least the roster size (the bomb erases tanks
        without lowering it). */
    ghost predicate Valid()
      reads this
    {
      IsGrid(grid, height, width) && Distinct(players) && |players| <= numberOfPlayers
    }

    /** An empty board: every square empty and not a start position. */
    constructor (h: nat, w: nat, d: int)
      ensures Valid()
      ensures height == h && width == w && difficulty == d
      ensures grid == EmptyGrid(h, w)
      ensures players == [] && walls == [] && numberOfPlayers == 0 && bullets == []
    {
      height, width, difficulty := h, w, d;
      grid := EmptyGrid(h, w);
      players, walls, numberOfPlayers, bullets := [], [], 0, [];
    }

    /** Stores a difficulty in 1..4 and 0 for anything else, so that a later
        generation fails exactly when the value was out of range. */
    method SetDifficultyAsValue(x: int)
      modifies this`difficulty
      ensures difficulty == if 1 <= x <= 4 then x else 0
      ensures PercentageTable(difficulty).Some? <==> 1 <= x <= 4
    {
      if x < 1 || x > 4 {
        difficulty := 0;
      } else {
        difficulty := x;
      }
      TableDomain(difficulty);
    }

    // ---------------------------------------------------------- squares

    /** The tile type at (x, y), or -1 off the board. */
    function GetSpaceType(x: int, y: int): (r: int)
      requires Valid()
      reads this
      ensures Within(x, y, height, width) ==> r == grid[x][y].kind
      ensures !Within(x, y, height, width) ==> r == -1
    {
      if x >= 0 && x < height && y >= 0 && y < width then grid[x][y].kind else -1
    }

    /** Sets the tile type at (x, y) when it is on the board; off the board it
        does nothing. */
    method SetSpaceType(x: int, y: int, kind: int)
      requires Valid()
      modifies this`grid
      ensures Valid()
      ensures grid == if Within(x, y, height, width) then SetKind(old(grid), x, y, kind) else old(grid)
      ensures Within(x, y, height, width) ==> GetSpaceType(x, y) == kind
      ensures forall a, b :: Within(a, b, height, width) && (a, b) != (x, y) ==> GetSpaceType(a, b) == old(GetSpaceType(a, b))
    {
      if x >= 0 && x < height && y >= 0 && y < width {
        grid := SetKind(grid, x, y, kind);
      }
    }

    /** Empties the on-board squares among the eight around (i, j), in the
        order of NeighbourOffsets. */
    method ClearSurroundings(i: int, j: int)
      requires IsGrid(grid, height, width)
      modifies this`grid
      ensures grid == Cleared(old(grid), i, j)
    {
      var n := 0;
      while n < |NeighbourOffsets|
        invariant 0 <= n <= |NeighbourOffsets|
        invariant IsGrid(grid, height, width)
        invariant forall a, b :: Within(a, b, height, width) ==>
          grid[a][b] == if (a - i, b - j) in NeighbourOffsets[..n] then old(grid)[a][b].(kind := Empty) else old(grid)[a][b]
      {
        var offset := NeighbourOffsets[n];
        var ni := i + offset.0;
        var nj := j + offset.1;
        if ni >= 0 && ni < height && nj >= 0 && nj < width {
          grid := grid[ni := grid[ni][nj := grid[ni][nj].(kind := Empty)]];
        }
        assert NeighbourOffsets[..n + 1] == NeighbourOffsets[..n] + [offset];
        n := n + 1;
      }
      forall a, b | Within(a, b, height, width) ensures grid[a][b] == Cleared(old(grid), i, j)[a][b] {
        NeighbourOffsetsAreNeighbours(a, b, i, j);
        assert NeighbourOffsets[..n] == NeighbourOffsets;
      }
      SameCells(grid, Cleared(old(grid), i, j), height, width);
    }

    // -------------------------------------------------------- placement

    /** Moves tank t to (x, y) and empties that square and its neighbours. */
    method Respawn(x: int, y: int, t: Tank)
      requires Valid() && Within(x, y, height, width)
      modifies this`grid, t`x, t`y
      ensures Valid()
      ensures t.x == x && t.y == y
      ensures grid == Respawned(old(grid), x, y)
    {
      t.SetCoordX(x);
      t.SetCoordY(y);
      grid := SetKind(grid, x, y, Empty);
      ClearSurroundings(x, y);
    }

    /** Respawns t at the spawn square `corner` picks (the source draws it at
        random); a value outside 0..3 is the error path and changes nothing. */
    method RespawnPlayer(t: Tank, corner: int) returns (ok: bool)
      requires Valid()
      requires 0 <= corner < 4 ==> Within(Corner(corner, height, width).0, Corner(corner, height, width).1, height, width)
      modifies this`grid, t`x, t`y
      ensures Valid()
      ensures ok <==> 0 <= corner < 4
      ensures ok ==> (t.x, t.y) == Corner(corner, height, width)
      ensures ok ==> grid == Respawned(old(grid), Corner(corner, height, width).0, Corner(corner, height, width).1)
      ensures !ok ==> grid == old(grid) && t.x == old(t.x) && t.y == old(t.y)
    {
      ok := true;
      if corner == 0 {
        Respawn(1, 1, t);
      } else if corner == 1 {
        Respawn(1, width - 2, t);
      } else if corner == 2 {
        Respawn(height - 2, 1, t);
      } else if corner == 3 {
        Respawn(height - 2, width - 2, t);
      } else {
        ok := false;
      }
    }

    /** The slot the next joining player takes gets its coordinates set, so it
        must be the new last slot whenever a spawn square is assigned. */
    ghost predicate InsertionFits()
      reads this
    {
      var c := Corner(numberOfPlayers, height, width);
      (0 <= numberOfPlayers < 4 && Within(c.0, c.1, height, width)) ==> numberOfPlayers == |players|
    }

    /** Marks (i, j) as an empty start square, clears its neighbours and puts
        the tank in slot `slot` there (InsertPlayer1 to InsertPlayer4). */
    method StartAt(slot: nat, i: int, j: int)
      requires Valid() && slot < |players| && Within(i, j, height, width)
      modifies this`grid, players[slot]
      ensures Valid()
      ensures grid == Started(old(grid), i, j)
      ensures players[slot].x == i && players[slot].y == j
      ensures players[slot].direction == old(players[slot].direction) && players[slot].isAlive == old(players[slot].isAlive)
      ensures players[slot].speed == old(players[slot].speed) && players[slot].lastShootTime == old(players[slot].lastShootTime)
    {
      grid := grid[i := grid[i][j := Cell(Empty, true)]];
      ClearSurroundings(i, j);
      players[slot].SetCoordX(i);
      players[slot].SetCoordY(j);
    }

    /** Appends a copy of t and counts it; the first four players go to the
        spawn squares in join order, and a fifth or later player is the error
        path, reached only after the copy was appended and counted. */
    method InsertPlayer(t: Tank) returns (ok: bool)
      requires Valid() && InsertionFits()
      modifies this
      ensures Valid()
      ensures numberOfPlayers == old(numberOfPlayers) + 1
      ensures ok <==> 1 <= numberOfPlayers <= 4
      ensures |players| == |old(players)| + 1 && players[..|old(players)|] == old(players)
      ensures fresh(players[|old(players)|]) && fresh(players[|old(players)|].record)
      ensures var c := Corner(old(numberOfPlayers), height, width);
        var placed := ok && Within(c.0, c.1, height, width);
        && players[|old(players)|].SameApartFromPosition(t)
        && (players[|old(players)|].x, players[|old(players)|].y) == (if placed then c else (t.x, t.y))
        && grid == if placed then Started(old(grid), c.0, c.1) else old(grid)
      ensures difficulty == old(difficulty) && walls == old(walls) && bullets == old(bullets)
    {
      var copy := new Tank.Copy(t);
      players := players + [copy];
      numberOfPlayers := numberOfPlayers + 1;
      var n := numberOfPlayers;
      if n == 1 {
        if 1 < height && 1 < width {
          StartAt(0, 1, 1);
        }
      } else if n == 2 {
        if 1 < height && width - 1 - 1 >= 0 {
          StartAt(1, 1, width - 1 - 1);
        }
      } else if n == 3 {
        if height - 1 - 1 >= 0 && 1 < width {
          StartAt(2, height - 1 - 1, 1);
        }
      } else if n == 4 {
        if height - 1 - 1 >= 0 && width - 1 - 1 >= 0 {
          StartAt(3, height - 1 - 1, width - 1 - 1);
        }
      }
      ok := 1 <= n <= 4;
    }

    // --------------------------------------------------------- movement

    /** Turns the tank in slot idx by the key and steps it one square in its
        (new or kept) facing when that square is on the board and empty. */
    method Move(idx: int, key: char)
      requires Valid() && 0 <= idx < |players|
      requires StepInRange(KeyDirection(key, players[idx].direction), players[idx].x, players[idx].y, height, width)
      modifies players[idx]
      ensures players[idx].direction == KeyDirection(key, old(players[idx].direction))
      ensures (players[idx].x, players[idx].y)
        == Stepped(grid, height, width, players[idx].direction, old(players[idx].x), old(players[idx].y))
      ensures players[idx].isAlive == old(players[idx].isAlive) && players[idx].speed == old(players[idx].speed)
      ensures players[idx].lastShootTime == old(players[idx].lastShootTime)
      ensures forall k :: 0 <= k < |players| && k != idx ==> unchanged(players[k])
    {
      var tank := players[idx];
      Turn(tank, key);
      Advance(tank);
    }

    /** The first half of Move: W, S, A and D (either case) turn the tank up,
        down, left and right; any other key keeps its facing. */
    static method Turn(tank: Tank, key: char)
      modifies tank`direction
      ensures tank.direction == KeyDirection(key, old(tank.direction))
    {
      if key == 'W' || key == 'w' { tank.SetDirection(Up); }
      if key == 'S' || key == 's' { tank.SetDirection(Down); }
      if key == 'A' || key == 'a' { tank.SetDirection(Left); }
      if key == 'D' || key == 'd' { tank.SetDirection(Right); }
    }

    /** The second half of Move: one square in the tank's facing, when that
        square passes the bound test and is empty. */
    method Advance(tank: Tank)
      requires IsGrid(grid, height, width)
      requires StepInRange(tank.direction, tank.x, tank.y, height, width)
      modifies tank`x, tank`y
      ensures (tank.x, tank.y) == Stepped(grid, height, width, tank.direction, old(tank.x), old(tank.y))
    {
      match tank.direction {
        case Up =>
          if tank.x - 1 >= 0 {
            if grid[tank.x - 1][tank.y].kind == Empty { tank.SetCoordX(tank.x - 1); }
          }
        case Down =>
          if tank.x + 1 < height {
            if grid[tank.x + 1][tank.y].kind == Empty { tank.SetCoordX(tank.x + 1); }
          }
        case Left =>
          if tank.y - 1 >= 0 {
            if grid[tank.x][tank.y - 1].kind == Empty { tank.SetCoordY(tank.y - 1); }
          }
        case Right =>
          if tank.y + 1 < width {
            if grid[tank.x][tank.y + 1].kind == Empty { tank.SetCoordY(tank.y + 1); }
          }
      }
    }

    /** Fires from slot idx at time `now` when its cooldown has passed: stamps
        the shot time and appends a live bullet built at (column + 1, row + 1)
        in the tank's facing, carrying a copy of the tank. Otherwise nothing
        changes. */
    method Shoot(idx: int, now: int)
      requires Valid() && 0 <= idx < |players|
      modifies this`bullets, players[idx]
      ensures Valid()
      ensures var t := players[idx];
        && t.x == old(t.x) && t.y == old(t.y) && t.direction == old(t.direction)
        && t.isAlive == old(t.isAlive) && t.speed == old(t.speed)
      ensures old(players[idx].CanShoot(now)) ==> players[idx].lastShootTime == now && !players[idx].CanShoot(now)
      ensures old(players[idx].CanShoot(now)) ==>
        && |bullets| == |old(bullets)| + 1 && bullets[..|old(bullets)|] == old(bullets)
        && var b := bullets[|old(bullets)|]; var t := players[idx];
        && fresh(b) && b.isActive && b.speed == BulletSpeed && b.direction == t.direction && b.creationTime == now
        && b.x == (t.y + 1) as real + Offset(t.direction).0 && b.y == (t.x + 1) as real + Offset(t.direction).1
        && b.tank.SameState(t)
      ensures !old(players[idx].CanShoot(now)) ==>
        bullets == old(bullets) && players[idx].lastShootTime == old(players[idx].lastShootTime)
    {
      var t := players[idx];
      if !t.CanShoot(now) {
        return;
      }
      t.SetLastShootTime(now);
      var bullet := new Bullet((t.y + 1) as real, (t.x + 1) as real, t.direction, t, now);
      bullets := bullets + [bullet];
    }

    // ----------------------------------------------------------- lookups

    /** Some tank of the roster stands at (x, y). */
    predicate VerifyIfCoordIsPlayer(x: int, y: int)
      reads this, players
      ensures VerifyIfCoordIsPlayer(x, y) <==> exists k :: 0 <= k < |players| && players[k].x == x && players[k].y == y
    {
      FirstAt(Positions(players), x, y).Some?
    }

    /** A copy of the first tank of the roster standing at (x, y), if any. */
    method GetPlayerBasedOnCoord(x: int, y: int) returns (r: Option<Tank>)
      ensures r.None? <==> !VerifyIfCoordIsPlayer(x, y)
      ensures r.Some? ==>
        && fresh(r.value)
        && r.value.SameState(players[FirstAt(Positions(players), x, y).value])
    {
      var k := 0;
      while k < |players| && !(players[k].x == x && players[k].y == y)
        invariant 0 <= k <= |players|
        invariant forall m :: 0 <= m < k ==> Positions(players)[m] != (x, y)
      {
        k := k + 1;
      }
      if k < |players| {
        var copy := new Tank.Copy(players[k]);
        r := Some(copy);
      } else {
        r := None;
      }
    }
  
    // -------------------------------------------------------------- blast

    /** Erases every tank standing at (i, j) from the roster, keeping the
        order of the others (the erase-or-advance iterator loop). */
    method EraseAt(i: int, j: int)
      requires Distinct(players)
      modifies this`players
      ensures Distinct(players)
      ensures players == Without(old(players), iset{(i, j)})
    {
      ghost var at := iset{(i, j)};
      ghost var s0 := players;
      var ps := players;
      var k := 0;
      assert ps[k..] == ps;
      while k < |ps|
        invariant 0 <= k <= |ps|
        invariant Without(s0, at) == ps[..k] + Without(ps[k..], at)
        decreases |ps| - k
      {
        ghost var done := ps[..k];
        ghost var rest := ps[k + 1..];
        assert ps[k..][0] == ps[k] && ps[k..][1..] == rest;
        ghost var tail := Without(rest, at);
        if ps[k].x == i && ps[k].y == j {
          assert Without(ps[k..], at) == tail;
          ps := ps[..k] + ps[k + 1..];
          assert ps[..k] == done && ps[k..] == rest;
        } else {
          assert Without(ps[k..], at) == [ps[k]] + tail;
          assert ps[..k + 1] == done + [ps[k]];
          assert done + ([ps[k]] + tail) == ps[..k + 1] + tail;
          k := k + 1;
        }
      }
      assert ps[k..] == [] && ps[..k] == ps;
      WithoutDistinct(s0, at);
      assert ps == Without(s0, at);
      players := ps;
    }

    /** The work of one blast square (i, j) on the board: a breakable wall
        there becomes empty and every tank standing there is erased. */
    method BlastAt(i: int, j: int)
      requires IsGrid(grid, height, width) && Distinct(players) && Within(i, j, height, width)
      modifies this`grid, this`players
      ensures IsGrid(grid, height, width) && Distinct(players)
      ensures grid == old(grid)[i := old(grid)[i][j := BreakIf(old(grid)[i][j], true)]]
      ensures players == Without(old(players), iset{(i, j)})
    {
      if grid[i][j].kind == Breakable {
        grid := grid[i := grid[i][j := grid[i][j].(kind := Empty)]];
      } else {
        assert grid[i][j := grid[i][j]] == grid[i];
        assert grid[i := grid[i]] == grid;
      }
      EraseAt(i, j);
    }

    /** Detonates a bomb centred on (x, y): every on-board square within
        Manhattan distance 10 loses its breakable wall and its tanks, visited
        row by row; every other square and tank stays, the tanks in order. */
    method TriggerBomb(x: int, y: int)
      requires Valid()
      modifies this`grid, this`players
      ensures Valid()
      ensures grid == Blasted(old(grid), x, y)
      ensures players == Without(old(players), BlastZone(height, width, x, y))
    {
      ghost var g0 := grid;
      ghost var p0 := players;
      var i := x - BlastRadius;
      HandledBounds(height, width, x, y, i);
      WithoutNone(p0, iset{});
      while i <= x + BlastRadius
        invariant x - BlastRadius <= i <= x + BlastRadius + 1
        invariant IsGrid(grid, height, width) && Distinct(players)
        invariant BlastedUpTo(grid, g0, height, width, x, y, i, y - BlastRadius)
        invariant players == Without(p0, Handled(height, width, x, y, i, y - BlastRadius))
      {
        BlastRow(x, y, i, g0, p0);
        i := i + 1;
      }
      HandledBounds(height, width, x, y, i);
      SameCells(grid, Blasted(g0, x, y), height, width);
    }

    /** One pass of TriggerBomb's outer loop: row i of the blast square,
        columns y - 10 to y + 10. */
    method BlastRow(x: int, y: int, i: int, ghost g0: Tiles, ghost p0: seq<Tank>)
      requires IsGrid(grid, height, width) && Distinct(players) && IsGrid(g0, height, width)
      requires BlastedUpTo(grid, g0, height, width, x, y, i, y - BlastRadius)
      requires players == Without(p0, Handled(height, width, x, y, i, y - BlastRadius))
      modifies this`grid, this`players
      ensures IsGrid(grid, height, width) && Distinct(players)
      ensures BlastedUpTo(grid, g0, height, width, x, y, i + 1, y - BlastRadius)
      ensures players == Without(p0, Handled(height, width, x, y, i + 1, y - BlastRadius))
    {
      var j := y - BlastRadius;
      while j <= y + BlastRadius
        invariant y - BlastRadius <= j <= y + BlastRadius + 1
        invariant IsGrid(grid, height, width) && Distinct(players)
        invariant BlastedUpTo(grid, g0, height, width, x, y, i, j)
        invariant players == Without(p0, Handled(height, width, x, y, i, j))
      {
        BlastStep(x, y, i, j, g0, p0);
        j := j + 1;
      }
      HandledBounds(height, width, x, y, i);
    }

    /** One pass of TriggerBomb's inner loop body at (i, j), advancing the
        handled region from "before (i, j)" to "before (i, j + 1)". */
    method BlastStep(x: int, y: int, i: int, j: int, ghost g0: Tiles, ghost p0: seq<Tank>)
      requires IsGrid(grid, height, width) && Distinct(players) && IsGrid(g0, height, width)
      requires BlastedUpTo(grid, g0, height, width, x, y, i, j)
      requires players == Without(p0, Handled(height, width, x, y, i, j))
      modifies this`grid, this`players
      ensures IsGrid(grid, height, width) && Distinct(players)
      ensures BlastedUpTo(grid, g0, height, width, x, y, i, j + 1)
      ensures players == Without(p0, Handled(height, width, x, y, i, j + 1))
    {
      if i >= 0 && i < height && j >= 0 && j < width {
        if Abs(x - i) + Abs(y - j) <= BlastRadius {
          BlastedStepHit(grid, g0, height, width, x, y, i, j);
          BlastAt(i, j);
          HandledStep(height, width, x, y, i, j);
          WithoutTwice(p0, Handled(height, width, x, y, i, j), iset{(i, j)});
          return;
        }
      }
      BlastedStepMiss(grid, g0, height, width, x, y, i, j);
      HandledStep(height, width, x, y, i, j);
    }

    // --------------------------------------------------------- generation

    /** The tile type of one square of GenerateBoard's fill, by cumulative
        thresholds on its roll; a bomb raises the bomb count. */
    static method PlaceSquare(roll: int, p: Percentages, maxBombs: int, bombs0: int) returns (kind: int, bombs: int)
      ensures kind == Classify(roll, p, maxBombs, bombs0)
      ensures bombs == bombs0 + (if kind == Bomb then 1 else 0)
    {
      bombs := bombs0;
      if roll < p.zero {
        kind := Empty;
      } else if roll < p.zero + p.one {
        kind := Breakable;
      } else if roll < p.zero + p.one + p.two {
        kind := Unbreakable;
      } else if bombs < maxBombs {
        kind := Bomb;
        bombs := bombs + 1;
      } else {
        kind := Empty;
      }
    }

    /** One row of GenerateBoard's fill: the cells of row i from their rolls,
        left to right, starting with bombs0 bombs placed, and a new wall
        object for every square that is not empty. */
    static method FillRowSquares(i: nat, rolls: seq<int>, p: Percentages, maxBombs: int, bombs0: int)
      returns (bombs: int, row: seq<Cell>, added: seq<Wall>)
      ensures bombs == FillRow(rolls, i, p, maxBombs, bombs0).bombs
      ensures row == FilledRow(FillRow(rolls, i, p, maxBombs, bombs0).kinds)
      ensures |added| == |FillRow(rolls, i, p, maxBombs, bombs0).walls|
      ensures forall k :: 0 <= k < |added| ==>
        fresh(added[k]) && Entry(added[k]) == FillRow(rolls, i, p, maxBombs, bombs0).walls[k]
    {
      ghost var f := FillRow([], i, p, maxBombs, bombs0);
      row := [];
      added := [];
      bombs := bombs0;
      var j := 0;
      while j < |rolls|
        invariant 0 <= j <= |rolls| && |row| == j
        invariant f == FillRow(rolls[..j], i, p, maxBombs, bombs0)
        invariant bombs == f.bombs && |f.kinds| == j
        invariant forall b :: 0 <= b < j ==> row[b] == Cell(f.kinds[b], false)
        invariant |added| == |f.walls|
        invariant forall k :: 0 <= k < |added| ==> fresh(added[k]) && Entry(added[k]) == f.walls[k]
      {
        FillRowStep(rolls, i, p, maxBombs, bombs0, j);
        var kind;
        kind, bombs := PlaceSquare(rolls[j], p, maxBombs, bombs);
        if kind != Empty {
          var wall := new Wall(j, i, kind);
          added := added + [wall];
        }
        f := RowFill(f.kinds + [kind], f.walls + (if kind == Empty then [] else [(j, i, kind)]), bombs);
        row := row + [Cell(kind, false)];
        j := j + 1;
      }
      assert rolls[..j] == rolls;
      assert row == FilledRow(f.kinds);
    }

    /** GenerateBoard's fill: every square from its roll in row-major order,
        the wall list rebuilt from scratch. */
    method FillBoard(rolls: seq<seq<int>>, p: Percentages, maxBombs: int)
      requires IsGrid(grid, height, width) && RollsFit(rolls, height, width)
      modifies this`grid, this`walls
      ensures IsGrid(grid, height, width)
      ensures grid == FilledGrid(FillGrid(rolls, p, maxBombs).kinds)
      ensures WallEntries(walls) == FillGrid(rolls, p, maxBombs).walls
      ensures forall k :: 0 <= k < |walls| ==> fresh(walls[k])
    {
      var ws: seq<Wall> := [];
      var g := grid;
      var currentBombs := 0;
      ghost var done := FillGrid([], p, maxBombs);
      var i := 0;
      while i < height
        invariant 0 <= i <= height
        invariant IsGrid(g, height, width)
        invariant done == FillGrid(rolls[..i], p, maxBombs)
        invariant currentBombs == done.bombs
        invariant forall a :: 0 <= a < i ==> g[a] == FilledRow(done.kinds[a])
        invariant |ws| == |done.walls|
        invariant forall k :: 0 <= k < |ws| ==> fresh(ws[k]) && Entry(ws[k]) == done.walls[k]
      {
        assert rolls[..i + 1][..i] == rolls[..i];
        ghost var fr := FillRow(rolls[i], i, p, maxBombs, done.bombs);
        var row, added;
        currentBombs, row, added := FillRowSquares(i, rolls[i], p, maxBombs, currentBombs);
        g := g[i := row];
        ghost var w0 := ws;
        ghost var d0 := done;
        ws := ws + added;
        done := GridFill(done.kinds + [fr.kinds], done.walls + fr.walls, fr.bombs);
        forall k | 0 <= k < |ws| ensures fresh(ws[k]) && Entry(ws[k]) == done.walls[k] {
          if k < |w0| {
            assert ws[k] == w0[k] && done.walls[k] == d0.walls[k];
          } else {
            assert ws[k] == added[k - |w0|] && done.walls[k] == fr.walls[k - |w0|];
          }
        }
        i := i + 1;
      }
      assert rolls[..i] == rolls;
      assert g == FilledGrid(done.kinds);
      grid := g;
      walls := ws;
    }

    /** Rows [0, k) x columns [j, k) are all unbreakable: the nested check of
        FixSquaring, which stops at the first square that is not. */
    method IsSquare(k: int, j: int) returns (isSquare: bool)
      requires IsGrid(grid, height, width) && 0 <= j <= k <= height && k <= width
      ensures isSquare == SquareAt(grid, k, j)
    {
      isSquare := true;
      var x := 0;
      while x < k
        invariant 0 <= x <= k && isSquare
        invariant forall a, b :: 0 <= a < x && j <= b < k ==> grid[a][b].kind == Unbreakable
      {
        var y := j;
        while y < k
          invariant j <= y <= k && isSquare
          invariant forall b :: j <= b < y ==> grid[x][b].kind == Unbreakable
        {
          if grid[x][y].kind != Unbreakable {
            isSquare := false;
            break;
          }
          y := y + 1;
        }
        if !isSquare {
          break;
        }
        x := x + 1;
      }
    }

    /** Finds the first column j of row 0 at which rows [0, k) x columns
        [j, k) are all unbreakable (column k always qualifies) and empties
        square (0, j): exactly one square changes per call. */
    method FixSquaring(k: int)
      requires IsGrid(grid, height, width) && 0 <= k < height && k < width
      modifies this`grid
      ensures IsGrid(grid, height, width)
      ensures grid == FixSquare(old(grid), k)
    {
      var j := 0;
      var isSquare := IsSquare(k, j);
      while !isSquare
        invariant 0 <= j <= k && IsGrid(grid, height, width) && grid == old(grid)
        invariant isSquare == SquareAt(grid, k, j)
        invariant forall c :: 0 <= c < j ==> !SquareAt(grid, k, c)
        decreases k - j
      {
        j := j + 1;
        isSquare := IsSquare(k, j);
      }
      assert j == FirstSquareColumn(grid, k, 0);
      grid := grid[0 := grid[0][j := grid[0][j].(kind := Empty)]];
    }

    /** Halves every all-unbreakable row (its first width / 2 squares become
        empty), then every all-unbreakable column (its top height / 2
        squares become empty). */
    method FixRowsAndColumns()
      requires IsGrid(grid, height, width)
      modifies this`grid
      ensures IsGrid(grid, height, width)
      ensures grid == Generation.FixRowsAndColumns(old(grid), width)
    {
      var r := 0;
      while r < height
        invariant 0 <= r <= height
        invariant IsGrid(grid, height, width)
        invariant forall a :: 0 <= a < height ==> grid[a] == if a < r then FixRows(old(grid))[a] else old(grid)[a]
      {
        if RowAllTwos(grid[r]) {
          grid := grid[r := ClearFirstHalf(grid[r])];
        }
        r := r + 1;
      }
      assert grid == FixRows(old(grid));
      ghost var rows := grid;
      var col := 0;
      while col < width
        invariant 0 <= col <= width
        invariant IsGrid(grid, height, width)
        invariant forall a, b :: Within(a, b, height, width) ==>
          grid[a][b] == if b < col then FixColumns(rows, width)[a][b] else rows[a][b]
      {
        var allTwos := true;
        var row := 0;
        while row < height
          invariant 0 <= row <= height && allTwos
          invariant forall a :: 0 <= a < row ==> grid[a][col].kind == Unbreakable
        {
          if grid[row][col].kind != Unbreakable {
            allTwos := false;
            break;
          }
          row := row + 1;
        }
        assert allTwos == ColumnAllTwos(rows, width, col);
        if allTwos {
          var a := 0;
          while a < height / 2
            invariant 0 <= a <= height / 2
            invariant IsGrid(grid, height, width)
            invariant forall a', b :: Within(a', b, height, width) ==>
              grid[a'][b] == if b < col || (b == col && a' < a) then FixColumns(rows, width)[a'][b] else rows[a'][b]
          {
            grid := grid[a := grid[a][col := grid[a][col].(kind := Empty)]];
            a := a + 1;
          }
        }
        col := col + 1;
      }
      SameCells(grid, FixColumns(rows, width), height, width);
    }

    /** Generates a board from one roll in [0, 100) per square (row-major), at
        the stored difficulty: the threshold fill, the squaring loop and the
        row and column repair. A difficulty outside 1..4 is the error path and
        changes nothing. */
    method GenerateBoard(rolls: seq<seq<int>>) returns (ok: bool)
      requires Valid() && height >= 1 && RollsFit(rolls, height, width)
      modifies this`grid, this`walls
      ensures Valid()
      ensures ok <==> 1 <= difficulty <= 4
      ensures !ok ==> grid == old(grid) && walls == old(walls)
      ensures ok ==>
        var p := PercentageTable(difficulty).value;
        && grid == GeneratedGrid(rolls, p, MaxBombs(difficulty), height, width)
        && WallEntries(walls) == FillGrid(rolls, p, MaxBombs(difficulty)).walls
        && forall k :: 0 <= k < |walls| ==> fresh(walls[k])
    {
      TableDomain(difficulty);
      var table := PercentageTable(difficulty);
      if table.None? {
        return false;
      }
      var p := table.value;
      Generate(rolls, p, MaxBombs(difficulty));
      ok := true;
    }

    /** The three passes of GenerateBoard once the thresholds are known. */
    method Generate(rolls: seq<seq<int>>, p: Percentages, maxBombs: int)
      requires IsGrid(grid, height, width) && height >= 1 && RollsFit(rolls, height, width)
      modifies this`grid, this`walls
      ensures grid == GeneratedGrid(rolls, p, maxBombs, height, width)
      ensures WallEntries(walls) == FillGrid(rolls, p, maxBombs).walls
      ensures forall k :: 0 <= k < |walls| ==> fresh(walls[k])
    {
      FillBoard(rolls, p, maxBombs);
      ghost var entries := WallEntries(walls);
      SquaringLoop();
      FixRowsAndColumns();
      assert WallEntries(walls) == entries;
    }

    /** GenerateBoard's squaring loop: for c from 3 to the smaller dimension,
        one FixSquaring call at the last index of that dimension. */
    method SquaringLoop()
      requires IsGrid(grid, height, width) && height >= 1
      modifies this`grid
      ensures IsGrid(grid, height, width)
      ensures grid == SquaringPass(old(grid), height, width)
    {
      var numRows := |grid|;
      var numCols := |grid[0]|;
      var m := if numRows < numCols then numRows else numCols;
      var c := 3;
      while c <= m
        invariant IsGrid(grid, height, width)
        invariant 3 <= c && (m >= 3 ==> c <= m + 1)
        invariant m >= 3 ==> grid == FixSquareRounds(old(grid), m - 1, c - 3)
        invariant m < 3 ==> grid == old(grid)
      {
        FixSquaring(m - 1);
        c := c + 1;
      }
    }

    // ---------------------------------------------------------- rendering

    /** The tanks GetBoardState's roster walk finds at (i, j), (i, j + 1),
        ...: every tank standing on the current square is drawn and moves the
        scan one column on; returns the new column and the extended line. */
    method TankMarks(i: int, j: int, line: seq<char>) returns (j': int, line': seq<char>)
      ensures j' == j + Marks(Positions(players), i, j)
      ensures line' == line + seq(j' - j, _ => 'P')
    {
      ghost var ps := Positions(players);
      j' := j;
      line' := line;
      var k := 0;
      while k < |players|
        invariant 0 <= k <= |players| && j <= j'
        invariant Marks(ps, i, j) == (j' - j) + Marks(ps[k..], i, j')
        invariant line' == line + seq(j' - j, _ => 'P')
      {
        assert ps[k..][0] == (players[k].x, players[k].y) && ps[k..][1..] == ps[k + 1..];
        if players[k].x == i && players[k].y == j' {
          line' := line' + ['P'];
          j' := j' + 1;
        }
        k := k + 1;
      }
      assert ps[k..] == [];
    }

    /** Row i of GetBoardState's matrix: its borders around the scan of the
        row, tanks first at every square they stand on. */
    method RenderRow(i: int) returns (line: seq<char>)
      requires Valid() && 0 <= i < height
      requires RowSafe(Positions(players), i, 0, width)
      ensures line == ['#'] + RowFrom(grid[i], i, Positions(players), 0) + ['#']
    {
      ghost var ps := Positions(players);
      line := ['#'];
      var j := 0;
      while j < |grid[i]|
        invariant 0 <= j <= width
        invariant RowSafe(ps, i, j, width)
        invariant line + RowFrom(grid[i], i, ps, j) == ['#'] + RowFrom(grid[i], i, ps, 0)
      {
        ghost var j0 := j;
        ghost var line0 := line;
        j, line := TankMarks(i, j, line);
        var tile := [TileChar(grid[i][j].kind)];
        assert RowFrom(grid[i], i, ps, j0) == line[|line0|..] + tile + RowFrom(grid[i], i, ps, j + 1);
        assert line0 + RowFrom(grid[i], i, ps, j0) == (line + tile) + RowFrom(grid[i], i, ps, j + 1);
        line := line + tile;
        j := j + 1;
      }
      line := line + ['#'];
    }

/** The character matrix of the board: a '#' border around the rows, each
        square shown through the roster walk of RowFrom. The scan must stay
        inside every row (BoardSafe; LastColumnFreeIsSafe gives a simple
        sufficient condition). */
    method GetBoardState() returns (rows: seq<seq<char>>)
      requires Valid() && height >= 1
      requires BoardSafe(grid, width, Positions(players))
      ensures rows == RenderBoard(grid, width, Positions(players))
    {
      ghost var ps := Positions(players);
      var numRows := |grid|;
      var numCols := |grid[0]|;
      var line: seq<char> := [];
      var col := 0;
      while col < numCols + 2
        invariant 0 <= col <= numCols + 2 && line == seq(col, _ => '#')
      {
        line := line + ['#'];
        col := col + 1;
      }
      rows := [line];
      var i := 0;
      while i < numRows
        invariant 0 <= i <= numRows
        invariant rows == [Border(width)] + RenderRows(grid, width, ps)[..i]
      {
        line := RenderRow(i);
        assert RenderRows(grid, width, ps)[..i + 1] == RenderRows(grid, width, ps)[..i] + [line];
        rows := rows + [line];
        i := i + 1;
      }
      line := [];
      col := 0;
      while col < numCols + 2
        invariant 0 <= col <= numCols + 2 && line == seq(col, _ => '#')
      {
        line := line + ['#'];
        col := col + 1;
      }
      rows := rows + [line];
    }
  }
}
