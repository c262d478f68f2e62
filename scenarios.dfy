/** Client runs of the game: set up a board, apply inputs and ticks, and read
    off what the operations' contracts promise about the outcome. */
module Scenarios {
  import opened Grid
  import opened WormGame

  /** A fresh game heading right with food just ahead of the head: one tick
      eats it, the worm grows to four cells, the score becomes 10 and the
      interval 145 ms, and the new food lies off the worm. */
  method EatOnFirstTick() returns (body: seq<Cell>, score: int, speed: int, timer: Option<int>, foodIsFree: bool)
    ensures body == [Cell(11, 10), Cell(10, 10), Cell(9, 10), Cell(8, 10)]
    ensures score == 10 && speed == 145 && timer == Some(145)
    ensures foodIsFree
  {
    var g := new Game(0);
    g.StartGame();
    g.food := Cell(11, 10);
    assert g.NewHead() == Cell(11, 10);
    assert g.NextTick() == Eat;
    g.Update();
    assert g.score == 10;
    assert g.gameSpeed == NextSpeed(InitialSpeed) == 145;
    body, score, speed, timer := g.worm, g.score, g.gameSpeed, g.gameLoop;
    foodIsFree := InBounds(g.food) && g.food !in g.worm;
  }

  /** A worm at the left edge moving left leaves the field on the next tick:
      the game ends with the timer stopped and the worm and score as they were. */
  method WallEndsGame() returns (running: bool, body: seq<Cell>, score: int)
    ensures !running && body == [Cell(0, 10), Cell(1, 10), Cell(2, 10)] && score == 0
  {
    var g := new Game(0);
    g.StartGame();
    g.worm := [Cell(0, 10), Cell(1, 10), Cell(2, 10)];
    g.direction, g.nextDirection := Left, Left;
    g.food := Cell(5, 5);
    assert g.NextTick() == HitWall;
    g.Update();
    running, body, score := g.gameLoop.Some?, g.worm, g.score;
  }

  /** A worm curled into a square, head at (10, 10) moving up with its tail at
      (11, 10): turning right aims the head at the tail cell, and although the
      tail would move away on this tick, the tick ends the game. */
  method TailCellEndsGame() returns (running: bool, heading: Direction, body: seq<Cell>)
    ensures !running && heading == Right
    ensures body == [Cell(10, 10), Cell(10, 11), Cell(11, 11), Cell(11, 10)]
  {
    var g := new Game(0);
    g.StartGame();
    g.worm := [Cell(10, 10), Cell(10, 11), Cell(11, 11), Cell(11, 10)];
    g.direction, g.nextDirection := Up, Up;
    g.food := Cell(5, 5);
    g.HandleDirectionButton(East);
    assert g.nextDirection == Steer(Up, Up, East) == Right;
    assert g.worm[0] == Cell(10, 10) && g.worm[3] == Cell(11, 10);
    assert g.NewHead() == Cell(11, 10);
    assert g.NextTick() == HitSelf;
    g.Update();
    running, heading, body := g.gameLoop.Some?, g.direction, g.worm;
  }

  /** Heading right, a request to go left is ignored and one to go up is taken. */
  method NoReversal() returns (afterLeft: Direction, afterUp: Direction)
    ensures afterLeft == Right && afterUp == Up
  {
    var g := new Game(0);
    g.StartGame();
    g.HandleKeyPress(Arrow(West));
    afterLeft := g.nextDirection;
    g.HandleKeyPress(Arrow(North));
    afterUp := g.nextDirection;
  }

  /** A paused game does not move on a tick, and the pause command does nothing
      before a game has been started. */
  method PauseFreezes() returns (idlePaused: bool, body: seq<Cell>, paused: bool)
    ensures !idlePaused
    ensures body == InitialWorm && paused
  {
    var g := new Game(0);
    g.TogglePause();
    idlePaused := g.isPaused;
    g.StartGame();
    g.TogglePause();
    g.Update();
    body, paused := g.worm, g.isPaused;
  }
}
