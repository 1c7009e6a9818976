/**
 * A wall descriptor (Wall.cpp): a position (x, y) and a tile type
 * (1 breakable, 2 unbreakable, 3 bomb).
 */
module Walls {

  class Wall {
    var x: int
    var y: int
    var kind: int

    constructor (x: int, y: int, kind: int)
      ensures this.x == x && this.y == y && this.kind == kind
    {
      this.x, this.y, this.kind := x, y, kind;
    }

    /** Breakable walls and bombs can be destroyed: of the four tile types,
        all but empty (0) and unbreakable (2); nothing outside them. */
    predicate IsDestructible()
      reads this
      ensures 0 <= kind <= 3 ==> (IsDestructible() <==> kind != 0 && kind != 2)
      ensures IsDestructible() ==> 1 <= kind <= 3
    {
      kind == 1 || kind == 3
    }

    /** A bomb is a destructible wall. */
    predicate IsBomb()
      reads this
      ensures IsBomb() ==> IsDestructible()
    {
      kind == 3
    }

    method SetCoordX(x: int)
      modifies this`x
      ensures this.x == x
    {
      this.x := x;
    }

    method SetCoordY(y: int)
      modifies this`y
      ensures this.y == y
    {
      this.y := y;
    }

    method SetType(kind: int)
      modifies this`kind
      ensures this.kind == kind
    {
      this.kind := kind;
    }

    /** The 3 x 3 block centred on the wall, centre included and not clipped to
        any board, listed with the x offset outermost. */
    function TriggerExplosion(): (area: seq<(int, int)>)
      reads this
      ensures |area| == 9
      ensures forall k :: 0 <= k < 9 ==> area[k] == (x + k / 3 - 1, y + k % 3 - 1)
      ensures forall p :: p in area <==> -1 <= p.0 - x <= 1 && -1 <= p.1 - y <= 1
      ensures forall a, b :: 0 <= a < b < 9 ==> area[a] != area[b]
    {
      ExplosionRow(x - 1, y) + ExplosionRow(x, y) + ExplosionRow(x + 1, y)
    }
  }

  /** The three cells of one row of the explosion. */
  function ExplosionRow(ax: int, y: int): seq<(int, int)>
  {
    [(ax, y - 1), (ax, y), (ax, y + 1)]
  }
}
