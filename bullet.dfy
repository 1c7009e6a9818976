/**
 * A projectile (Bullet.cpp). The source keeps doubles; here the position and
 * speed are reals, which hold the source's values (integers, +/-1.0 and 0.25)
 * exactly. The creation instant is an integer of milliseconds.
 */
module Bullets {
  import opened Directions
  import opened Tanks

  /** m_speed of a live bullet. */
  const BulletSpeed: real := 0.25

  /** The shift each case label of the constructor's switch applies to (x, y),
      in the order of the labels: UP, DOWN, LEFT, RIGHT. */
  const CaseShifts: seq<(real, real)> := [(0.0, -1.0), (0.0, 1.0), (-1.0, 0.0), (1.0, 0.0)]

  /** The position of d's label in the switch. */
  function CaseLabel(d: Direction): nat
  {
    match d
    case Up => 0
    case Down => 1
    case Left => 2
    case Right => 3
  }

  /** What execution entering the switch at label k adds: the shifts of label
      k and of every label below it, since no case ends with a break. */
  function ShiftsFrom(k: nat): (real, real)
    requires k <= |CaseShifts|
    decreases |CaseShifts| - k
  {
    if k == |CaseShifts| then (0.0, 0.0)
    else
      var rest := ShiftsFrom(k + 1);
      (CaseShifts[k].0 + rest.0, CaseShifts[k].1 + rest.1)
  }

  /** The net shift the constructor applies to its (x, y) arguments. Every case
      of its switch falls through to the ones below it, so only DOWN and RIGHT
      move the bullet. */
  function Offset(d: Direction): (r: (real, real))
    ensures r == ShiftsFrom(CaseLabel(d))
  {
    match d
    case Up => (0.0, 0.0)
    case Down => (0.0, 1.0)
    case Left => (0.0, 0.0)
    case Right => (1.0, 0.0)
  }

  class Bullet {
    var x: real
    var y: real
    var direction: Direction
    var isActive: bool
    var speed: real
    const creationTime: int
    /** The firing tank, held by value. */
    const tank: Tank

    /** A destroyed bullet no longer moves. */
    ghost predicate Valid()
      reads this
    {
      !isActive ==> speed == 0.0
    }

    /** A live bullet moving at 0.25 with a copy of the firing tank. The
        position is (x, y) run through the fall-through switch. */
    constructor (x: real, y: real, direction: Direction, tank: Tank, now: int)
      ensures Valid() && isActive && speed == BulletSpeed
      ensures this.x == x + Offset(direction).0 && this.y == y + Offset(direction).1
      ensures this.direction == direction && creationTime == now
      ensures fresh(this.tank) && fresh(this.tank.record) && this.tank.SameState(tank)
    {
      this.x := x;
      this.y := y;
      this.direction := direction;
      speed := BulletSpeed;
      isActive := true;
      creationTime := now;
      this.tank := new Tank.Copy(tank);
      new;
      // case UP: falls into DOWN, LEFT and RIGHT
      if direction == Up {
        this.y := this.y - 1.0;
      }
      // case DOWN: falls into LEFT and RIGHT
      if direction == Up || direction == Down {
        this.y := this.y + 1.0;
      }
      // case LEFT: falls into RIGHT
      if direction != Right {
        this.x := this.x - 1.0;
      }
      // case RIGHT
      this.x := this.x + 1.0;
    }

    /** Deactivates the bullet and stops it; on an inactive bullet it does nothing. */
    method Destroy()
      requires Valid()
      modifies this`isActive, this`speed
      ensures Valid() && !isActive && speed == 0.0
      ensures !old(isActive) ==> speed == old(speed)
    {
      if !isActive {
        return;
      }
      isActive := false;
      speed := 0.0;
    }

    method SetX(x: real)
      modifies this`x
      ensures this.x == x
    {
      this.x := x;
    }

    method SetY(y: real)
      modifies this`y
      ensures this.y == y
    {
      this.y := y;
    }

    method SetDirection(direction: Direction)
      modifies this`direction
      ensures this.direction == direction
    {
      this.direction := direction;
    }
  }
}
