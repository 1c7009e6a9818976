/**
 * The identity and score record of a participant (Player.cpp). Its id and
 * remaining lives are uint8_t in the source; score and high score are int.
 */
module Players {

  /** An unsigned 8-bit value. */
  type Byte = x: int | 0 <= x < 256

  class Player {
    var id: Byte
    var name: string
    var password: string
    var highScore: int
    var remainingLives: Byte
    var score: int

    /** Stores every field as given. */
    constructor (id: Byte, name: string, password: string, highScore: int, remainingLives: Byte, score: int)
      ensures this.id == id && this.name == name && this.password == password
      ensures this.highScore == highScore && this.remainingLives == remainingLives && this.score == score
    {
      this.id := id;
      this.name := name;
      this.password := password;
      this.highScore := highScore;
      this.remainingLives := remainingLives;
      this.score := score;
    }

    /** A copy of another record (the implicit copy constructor). */
    constructor Copy(other: Player)
      ensures id == other.id && name == other.name && password == other.password
      ensures highScore == other.highScore && remainingLives == other.remainingLives && score == other.score
    {
      id := other.id;
      name := other.name;
      password := other.password;
      highScore := other.highScore;
      remainingLives := other.remainingLives;
      score := other.score;
    }

    method SetScore(score: int)
      modifies this`score
      ensures this.score == score
    {
      this.score := score;
    }

    method SetHighScore(highScore: int)
      modifies this`highScore
      ensures this.highScore == highScore
    {
      this.highScore := highScore;
    }

    method SetName(name: string)
      modifies this`name
      ensures this.name == name
    {
      this.name := name;
    }

    method SetRemainingLives(remainingLives: Byte)
      modifies this`remainingLives
      ensures this.remainingLives == remainingLives
    {
      this.remainingLives := remainingLives;
    }

    method SetPassword(password: string)
      modifies this`password
      ensures this.password == password
    {
      this.password := password;
    }

    /** One more elimination: the score goes up by one and the high score
        stays the running maximum. Only score and high score change. */
    method GetAnElimination()
      modifies this`score, this`highScore
      ensures score == old(score) + 1
      ensures highScore == if score > old(highScore) then score else old(highScore)
      ensures score <= highScore && old(highScore) <= highScore
      ensures old(score) <= old(highScore) ==> highScore == old(highScore) || highScore == score
    {
      score := score + 1;
      if score > highScore {
        highScore := score;
      }
    }
  }
}
