/** The worm game's state machine: the module-level state of the game as the
    fields of one `Game` object, one method per operation that changes it
    (reset, start, restart, pause, one tick, food placement, steering input,
    score bookkeeping, game over), and the steering and speed rules the tick
    relies on. */
module WormGame {
  import opened Grid

  /** Tick interval, in milliseconds, of a fresh game. */
  const InitialSpeed := 150
  /** How much faster (in milliseconds) each meal makes the tick. */
  const SpeedIncrement := 5
  /** The tick interval never drops below this. */
  const MinSpeed := 50
  /** Points per food eaten. */
  const FoodReward := 10

  datatype Option<T> = None | Some(value: T)

  /** A direction request, from an arrow key or an on-screen button. */
  datatype Heading = North | South | West | East

  /** The keys the keyboard handler tells apart. */
  datatype Key = Arrow(heading: Heading) | Space | OtherKey

  /** The move a request asks for. */
  function Requested(h: Heading): Direction {
    match h
    case North => Up
    case South => Down
    case West => Left
    case East => Right
  }

  /** The pending direction after a request `h`: a vertical request is taken only
      while the committed direction has no vertical part, a horizontal one only
      while it has no horizontal part; otherwise the pending direction stays. */
  function Steer(committed: Direction, pending: Direction, h: Heading): (r: Direction)
    ensures Perpendicular(committed, Requested(h)) ==> r == Requested(h)
    ensures !Perpendicular(committed, Requested(h)) ==> r == pending
  {
    match h
    case North => if committed.y == 0 then Up else pending
    case South => if committed.y == 0 then Down else pending
    case West => if committed.x == 0 then Left else pending
    case East => if committed.x == 0 then Right else pending
  }

  /** The pending direction is the committed one or turns off its axis. */
  predicate Turnable(committed: Direction, pending: Direction) {
    IsUnit(pending) && (pending == committed || Perpendicular(committed, pending))
  }

  /** Steering keeps the pending direction a legal turn: it is never the
      reverse of the committed direction, whatever is requested. */
  lemma SteerNeverReverses(committed: Direction, pending: Direction, h: Heading)
    requires IsUnit(committed) && Turnable(committed, pending)
    ensures Turnable(committed, Steer(committed, pending, h))
    ensures Steer(committed, pending, h) != Reverse(committed)
  {
  }

  /** The tick interval after one meal. */
  function NextSpeed(speed: int): int {
    if speed > MinSpeed then speed - SpeedIncrement else speed
  }

  /** The tick interval of a game in which `meals` foods have been eaten. */
  function SpeedAfterMeals(meals: nat): int {
    if meals == 0 then InitialSpeed else NextSpeed(SpeedAfterMeals(meals - 1))
  }

  /** A meal moves the score and the interval one step along together. */
  lemma MealStep(score: int)
    requires score >= 0 && score % FoodReward == 0
    ensures (score + FoodReward) % FoodReward == 0
    ensures SpeedAfterMeals((score + FoodReward) / FoodReward) == NextSpeed(SpeedAfterMeals(score / FoodReward))
  {
    assert (score + FoodReward) / FoodReward == score / FoodReward + 1;
  }

  function Max(a: int, b: int): int {
    if a < b then b else a
  }

  /** Each meal takes 5 ms off the interval until it reaches the 50 ms floor,
      where it stays. */
  lemma {:induction false} SpeedAfterMealsIs(meals: nat)
    ensures SpeedAfterMeals(meals) == Max(MinSpeed, InitialSpeed - SpeedIncrement * meals)
  {
    if meals > 0 {
      SpeedAfterMealsIs(meals - 1);
    }
  }

  /** The interval only ever takes the values 50, 55, ..., 150. */
  lemma SpeedOnLadder(meals: nat)
    ensures MinSpeed <= SpeedAfterMeals(meals) <= InitialSpeed
    ensures (SpeedAfterMeals(meals) - MinSpeed) % SpeedIncrement == 0
  {
    SpeedAfterMealsIs(meals);
  }

  /** What one tick does, decided by the state before it. */
  datatype Tick = Frozen | HitWall | HitSelf | Eat | Move

  /** The body of a freshly reset game: three cells in the middle row, head at (10, 10). */
  const InitialWorm := [Cell(10, 10), Cell(9, 10), Cell(8, 10)]

  class Game {
    /** The body, head first. */
    var worm: seq<Cell>
    /** The direction applied by the last tick. */
    var direction: Direction
    /** The direction the next tick will apply. */
    var nextDirection: Direction
    var food: Cell
    var score: int
    var highScore: int
    /** Milliseconds between ticks. */
    var gameSpeed: int
    var isPaused: bool
    /** The periodic tick timer: None when there is none, Some(ms) for a timer
        that fires every ms milliseconds. */
    var gameLoop: Option<int>

    ghost predicate Valid()
      reads this
    {
      BodyValid() && SteeringValid() && ScoreValid() && TimerValid()
    }

    /** The worm is non-empty, in bounds and without repeated cells, and the
        food lies in bounds off the worm. */
    ghost predicate BodyValid()
      reads this`worm, this`food
    {
      |worm| >= 1 && WellPlaced(worm) && InBounds(food) && food !in worm
    }

    /** The committed direction is a unit move and the pending one is a legal turn. */
    ghost predicate SteeringValid()
      reads this`direction, this`nextDirection
    {
      IsUnit(direction) && Turnable(direction, nextDirection)
    }

    /** The score counts meals and the interval is the one reached after them. */
    ghost predicate ScoreValid()
      reads this`score, this`gameSpeed, this`highScore
    {
      && score >= 0 && score % FoodReward == 0
      && gameSpeed == SpeedAfterMeals(score / FoodReward)
      && highScore >= score
    }

    /** A running timer ticks at the current interval; only a running game pauses. */
    ghost predicate TimerValid()
      reads this`gameLoop, this`gameSpeed, this`isPaused
    {
      && (gameLoop.Some? ==> gameLoop.value == gameSpeed)
      && (isPaused ==> gameLoop.Some?)
    }

    /** The cell the head moves to on the next tick. */
    ghost function NewHead(): Cell
      reads this
      requires |worm| >= 1
    {
      Advance(worm[0], nextDirection)
    }

    /** The branch the next tick takes: nothing while paused, then the wall
        check, then the check against every current segment, then food. */
    ghost function NextTick(): Tick
      reads this
      requires |worm| >= 1
    {
      if isPaused then Frozen
      else if !InBounds(NewHead()) then HitWall
      else if NewHead() in worm then HitSelf
      else if NewHead() == food then Eat
      else Move
    }

    /** Page load: the stored high score is read (the value parsed from storage,
        0 when it is absent or unreadable), the game is reset, and no timer runs. */
    constructor (storedHighScore: int)
      ensures Valid()
      ensures worm == InitialWorm && direction == Right && nextDirection == Right
      ensures score == 0 && gameSpeed == InitialSpeed && !isPaused
      ensures highScore == Max(storedHighScore, 0)
      ensures gameLoop == None
    {
      highScore := storedHighScore;
      gameLoop := None;
      new;
      ResetGame();
    }

    /** Puts a fresh worm, heading right, with score 0 and the initial speed,
        raises the high score to 0 if it was below, places food off the worm
        and clears the pause; the timer is left alone. */
    method ResetGame()
      modifies this`worm, this`direction, this`nextDirection, this`score, this`gameSpeed,
        this`highScore, this`food, this`isPaused
      ensures worm == InitialWorm && direction == Right && nextDirection == Right
      ensures score == 0 && gameSpeed == InitialSpeed && !isPaused
      ensures highScore == Max(old(highScore), 0)
      ensures InBounds(food) && food !in worm
      ensures gameLoop == old(gameLoop)
      ensures gameLoop == None || gameLoop == Some(InitialSpeed) ==> Valid()
    {
      worm := InitialWorm;
      direction := Right;
      nextDirection := Right;
      score := 0;
      gameSpeed := InitialSpeed;
      UpdateScore();
      assert InBounds(Cell(0, 0)) && Cell(0, 0) !in worm;
      SpawnFood();
      isPaused := false;
    }

    /** Cancels any running timer, resets the game and starts a timer at the
        initial speed. */
    method StartGame()
      modifies this
      ensures Valid()
      ensures worm == InitialWorm && direction == Right && nextDirection == Right
      ensures score == 0 && gameSpeed == InitialSpeed && !isPaused
      ensures highScore == Max(old(highScore), 0)
      ensures gameLoop == Some(InitialSpeed)
    {
      if gameLoop.Some? {
        gameLoop := None;
      }
      ResetGame();
      gameLoop := Some(gameSpeed);
    }

    /** The restart command: the same as starting. */
    method RestartGame()
      modifies this
      ensures Valid()
      ensures worm == InitialWorm && direction == Right && nextDirection == Right
      ensures score == 0 && gameSpeed == InitialSpeed && !isPaused
      ensures highScore == Max(old(highScore), 0)
      ensures gameLoop == Some(InitialSpeed)
    {
      StartGame();
    }

    /** Flips the pause flag, but only while a timer runs. */
    method TogglePause()
      requires Valid()
      modifies this`isPaused
      ensures Valid()
      ensures isPaused == if gameLoop.None? then old(isPaused) else !old(isPaused)
    {
      if gameLoop.None? {
        return;
      }
      isPaused := !isPaused;
    }

    /** One tick. Paused: nothing happens. Otherwise the pending direction is
        committed and the head advanced; a head off the field or on any current
        segment (the tail included, since the tail has not moved yet) ends the
        game with the worm, score and food as they were. Otherwise the head is
        added; on food the worm keeps its tail (it grows by one), the score
        rises by 10, new food is placed off the grown worm, and the interval
        drops by 5 ms while above the floor, restarting the timer; without food
        the tail is dropped and the length stays. The source's food search never
        ends on a full field, hence the requirement on the length. */
    method Update()
      requires Valid()
      requires NextTick() == Eat ==> |worm| + 1 < CellCount
      modifies this
      ensures Valid()
      ensures old(NextTick()) == Frozen ==> unchanged(this)
      ensures old(NextTick()) != Frozen ==>
        && direction == nextDirection == old(nextDirection)
        && !isPaused
      ensures old(NextTick()) == HitWall || old(NextTick()) == HitSelf ==>
        && gameLoop == None
        && worm == old(worm) && score == old(score) && food == old(food)
        && gameSpeed == old(gameSpeed) && highScore == old(highScore)
      ensures old(NextTick()) == Eat ==>
        && worm == [old(NewHead())] + old(worm)
        && |worm| == |old(worm)| + 1
        && score == old(score) + FoodReward
        && highScore == Max(old(highScore), score)
        && InBounds(food) && food !in worm
        && gameSpeed == NextSpeed(old(gameSpeed))
        && gameLoop == if old(gameSpeed) > MinSpeed then Some(gameSpeed) else old(gameLoop)
      ensures old(NextTick()) == Move ==>
        && worm == [old(NewHead())] + old(worm)[..|old(worm)| - 1]
        && |worm| == |old(worm)|
        && score == old(score) && highScore == old(highScore) && food == old(food)
        && gameSpeed == old(gameSpeed) && gameLoop == old(gameLoop)
    {
      if isPaused {
        return;
      }
      direction := nextDirection;
      var head := Advance(worm[0], direction);
      // wall collision
      if !InBounds(head) {
        GameOver();
        return;
      }
      // self collision, against the body before it moves
      if head in worm {
        GameOver();
        return;
      }
      GrowKeepsWellPlaced(worm, head);
      worm := [head] + worm;
      if head == food {
        EatFood();
      } else {
        DropTailKeepsWellPlaced(worm);
        worm := worm[..|worm| - 1];
      }
    }

    /** The food branch of a tick, run after the head has been added on the
        food cell: 10 points, the high score, new food off the grown worm, and
        one step down the speed ladder with a fresh timer while above the floor. */
    method EatFood()
      requires WellPlaced(worm) && |worm| < CellCount && |worm| >= 1
      requires ScoreValid() && TimerValid()
      modifies this`score, this`highScore, this`food, this`gameSpeed, this`gameLoop
      ensures ScoreValid() && TimerValid()
      ensures score == old(score) + FoodReward
      ensures highScore == Max(old(highScore), score)
      ensures InBounds(food) && food !in worm
      ensures gameSpeed == NextSpeed(old(gameSpeed))
      ensures gameLoop == if old(gameSpeed) > MinSpeed then Some(gameSpeed) else old(gameLoop)
    {
      MealStep(score);
      score := score + FoodReward;
      UpdateScore();
      FreeCellExists(worm);
      SpawnFood();
      if gameSpeed > MinSpeed {
        gameSpeed := gameSpeed - SpeedIncrement;
        gameLoop := Some(gameSpeed);
      }
    }

    /** Picks an in-bounds cell the worm does not cover (the source samples
        random cells until one is free). */
    method SpawnFood()
      requires exists c :: InBounds(c) && c !in worm
      modifies this`food
      ensures InBounds(food) && food !in worm
    {
      var c :| InBounds(c) && c !in worm;
      food := c;
    }

    /** A key press: an arrow key steers, the space bar toggles the pause, any
        other key is ignored. */
    method HandleKeyPress(key: Key)
      requires Valid()
      modifies this`nextDirection, this`isPaused
      ensures Valid()
      ensures key.Arrow? ==>
        nextDirection == Steer(direction, old(nextDirection), key.heading) && isPaused == old(isPaused)
      ensures key.Space? ==>
        && nextDirection == old(nextDirection)
        && isPaused == if gameLoop.None? then old(isPaused) else !old(isPaused)
      ensures key.OtherKey? ==> nextDirection == old(nextDirection) && isPaused == old(isPaused)
    {
      match key
      case Arrow(h) =>
        SteerNeverReverses(direction, nextDirection, h);
        nextDirection := Steer(direction, nextDirection, h);
      case Space =>
        TogglePause();
      case OtherKey =>
    }

    /** An on-screen direction button: the same rule as the arrow keys. */
    method HandleDirectionButton(h: Heading)
      requires Valid()
      modifies this`nextDirection
      ensures Valid()
      ensures nextDirection == Steer(direction, old(nextDirection), h)
      ensures nextDirection != Reverse(direction)
    {
      SteerNeverReverses(direction, nextDirection, h);
      nextDirection := Steer(direction, nextDirection, h);
    }

    /** Raises the high score to the current score when it is higher. */
    method UpdateScore()
      modifies this`highScore
      ensures highScore == Max(old(highScore), score)
    {
      if score > highScore {
        highScore := score;
      }
    }

    /** Stops the timer; everything else stays as it is. */
    method GameOver()
      modifies this`gameLoop
      ensures gameLoop == None
    {
      gameLoop := None;
    }
  }
}
