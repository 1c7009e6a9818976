/**
 * A controllable tank (Tank.cpp): a Player record plus a grid position
 * (x is the row, y the column), an alive flag, a speed, a facing direction
 * and the time of its last shot. The source's steady_clock instants are
 * integer milliseconds here; the cooldown of 4.0 seconds is 4000.
 */
module Tanks {
  import opened Players
  import opened Directions

  /** m_cooldown, in milliseconds. */
  const Cooldown: int := 4000

  class Tank {
    /** The identity and score part (the source's Player base class). */
    const record: Player
    var x: int
    var y: int
    var isAlive: bool
    var speed: real
    var direction: Direction
    var lastShootTime: int

    /** A new tank at (0, 0), alive, not moving, whose last shot lies one
        cooldown before `now`, so that it may fire at once. The source never
        initialises the direction; here the caller supplies it. */
    constructor (id: Byte, name: string, password: string, highScore: int, remainingLives: Byte,
                 score: int, now: int, direction: Direction)
      ensures fresh(record)
      ensures record.id == id && record.name == name && record.password == password
      ensures record.highScore == highScore && record.remainingLives == remainingLives && record.score == score
      ensures x == 0 && y == 0 && isAlive && speed == 0.0
      ensures this.direction == direction && lastShootTime == now - Cooldown
      ensures CanShoot(now)
    {
      record := new Player(id, name, password, highScore, remainingLives, score);
      x, y := 0, 0;
      isAlive := true;
      speed := 0.0;
      this.direction := direction;
      lastShootTime := now - Cooldown;
    }

    /** A tank with the given position, speed and alive flag, stored verbatim. */
    constructor WithPosition(id: Byte, name: string, password: string, highScore: int, remainingLives: Byte,
                             score: int, coordX: int, coordY: int, startSpeed: real, isAlive: bool,
                             now: int, direction: Direction)
      ensures fresh(record)
      ensures record.id == id && record.name == name && record.password == password
      ensures record.highScore == highScore && record.remainingLives == remainingLives && record.score == score
      ensures x == coordX && y == coordY && speed == startSpeed && this.isAlive == isAlive
      ensures this.direction == direction && lastShootTime == now - Cooldown
      ensures CanShoot(now)
    {
      record := new Player(id, name, password, highScore, remainingLives, score);
      x, y := coordX, coordY;
      speed := startSpeed;
      this.isAlive := isAlive;
      this.direction := direction;
      lastShootTime := now - Cooldown;
    }

    /** A copy of another tank, its record included (the implicit copy constructor). */
    constructor Copy(other: Tank)
      ensures fresh(record)
      ensures SameState(other)
    {
      record := new Player.Copy(other.record);
      x, y := other.x, other.y;
      isAlive := other.isAlive;
      speed := other.speed;
      direction := other.direction;
      lastShootTime := other.lastShootTime;
    }

    /** Two tanks hold equal values in every field, their records included. */
    ghost predicate SameState(other: Tank)
      reads this, record, other, other.record
    {
      SameApartFromPosition(other) && x == other.x && y == other.y
    }

    /** Two tanks hold equal values in every field except possibly x and y. */
    ghost predicate SameApartFromPosition(other: Tank)
      reads this, record, other, other.record
    {
      && record.id == other.record.id && record.name == other.record.name
      && record.password == other.record.password && record.highScore == other.record.highScore
      && record.remainingLives == other.record.remainingLives && record.score == other.record.score
      && isAlive == other.isAlive && speed == other.speed
      && direction == other.direction && lastShootTime == other.lastShootTime
    }

    /** Marks the tank as not alive; a second call changes nothing more. */
    method Destroy()
      modifies this`isAlive
      ensures !isAlive
    {
      isAlive := false;
    }

    /** At least one cooldown has passed since the last shot: with times in
        milliseconds, the elapsed seconds reach the source's m_cooldown of 4.0. */
    predicate CanShoot(now: int)
      reads this
      ensures CanShoot(now) <==> (now - lastShootTime) as real / 1000.0 >= 4.0
    {
      now - lastShootTime >= Cooldown
    }

    method SetCoordX(coordX: int)
      modifies this`x
      ensures x == coordX
    {
      x := coordX;
    }

    method SetCoordY(coordY: int)
      modifies this`y
      ensures y == coordY
    {
      y := coordY;
    }

    method SetDirection(direction: Direction)
      modifies this`direction
      ensures this.direction == direction
    {
      this.direction := direction;
    }

    method SetSpeed(speed: real)
      modifies this`speed
      ensures this.speed == speed
    {
      this.speed := speed;
    }

    /** After stamping time t the tank may not fire before t + 4 s and may from then on. */
    method SetLastShootTime(t: int)
      modifies this`lastShootTime
      ensures lastShootTime == t
      ensures forall now :: CanShoot(now) <==> now >= t + Cooldown
    {
      lastShootTime := t;
    }
  }
}
