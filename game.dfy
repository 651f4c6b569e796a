// The Snake engine as the page holds it: one object whose fields are the
// game's variables and whose methods are the game's handlers, each proved
// to do what the corresponding function of Rules says.

module Game {
  import opened Grid
  import Rules

  class SnakeGame {
    const tileCount: int
    var snake: seq<Cell>
    var velocity: Velocity
    var nextVelocity: Velocity
    var food: Cell
    var score: int
    var speed: int
    var gameRunning: bool
    var gamePaused: bool

    function State(): Rules.State
      reads this
    {
      Rules.State(snake, velocity, nextVelocity, food, score, speed, gameRunning, gamePaused)
    }

    predicate Valid()
      reads this
    {
      Rules.Inv(State(), tileCount)
    }

    /**
     * The page load: a board of canvasWidth / GridSize tiles per side, no
     * game running, and food on `initialFood`, a random cell of the board.
     */
    constructor (canvasWidth: int, initialFood: Cell)
      requires canvasWidth > 0 && canvasWidth % GridSize == 0
      requires InGrid(initialFood, canvasWidth / GridSize)
      ensures tileCount == canvasWidth / GridSize
      ensures State() == Rules.Initial(initialFood)
      ensures Valid()
    {
      tileCount := canvasWidth / GridSize;
      speed := Rules.InitialSpeed;
      gameRunning := false;
      gamePaused := false;
      score := 0;
      snake := [Rules.Origin];
      velocity := Still;
      nextVelocity := Still;
      food := initialFood;
    }

    /**
     * Reject-and-resample food placement; `draws` are the successive random
     * cells. The snake is left alone.
     */
    method GenerateFood(draws: seq<Cell>)
      requires HasFree(draws, snake)
      modifies this`food
      ensures food == draws[FirstFree(draws, snake)]
      ensures food !in snake
    {
      food := DrawFood(draws, snake);
    }

    method MoveSnake(draws: seq<Cell>)
      requires Rules.CanMove(State(), draws)
      modifies this
      ensures State() == Rules.Move(old(State()), draws)
    {
      velocity := nextVelocity;
      var head := Cell(snake[0].x + velocity.dx, snake[0].y + velocity.dy);
      snake := [head] + snake;
      if head == food {
        score := score + 10;
        GenerateFood(draws);
        if score % 50 == 0 {
          speed := speed + 1;
        }
      } else {
        snake := snake[..|snake| - 1];
      }
    }

    method CheckCollision()
      requires |snake| >= 1
      modifies this`gameRunning
      ensures State() == Rules.CheckCollision(old(State()), tileCount)
    {
      var head := snake[0];
      if head.x < 0 || head.x >= tileCount || head.y < 0 || head.y >= tileCount {
        gameRunning := false;
        return;
      }
      var hit := HitsItself(snake);
      if hit {
        gameRunning := false;
        return;
      }
    }

    /** One tick of the timer; `draws` feed a food placement if the snake eats. */
    method GameLoop(draws: seq<Cell>)
      requires Rules.CanTick(State(), draws) && AllInGrid(draws, tileCount)
      modifies this
      ensures State() == Rules.Tick(old(State()), tileCount, draws)
      ensures old(Valid()) ==> Valid()
    {
      if !gameRunning || gamePaused {
        return;
      }
      ghost var before := State();
      MoveSnake(draws);
      CheckCollision();
      if Rules.Inv(before, tileCount) {
        Rules.TickKeepsInv(before, tileCount, draws);
      }
    }

    method ResetGame(draws: seq<Cell>, configured: int)
      requires Valid()
      requires HasFree(draws, [Rules.Origin]) && AllInGrid(draws, tileCount)
      modifies this
      ensures State() == Rules.Reset(tileCount, Rules.FreshFood(draws), configured)
      ensures Valid()
    {
      snake := [Rules.Origin];
      velocity := Still;
      nextVelocity := Still;
      GenerateFood(draws);
      score := 0;
      speed := configured;
      gameRunning := true;
      gamePaused := false;
      assert State() == Rules.Fresh(food, configured);
      Rules.FreshStandsStill(food, configured);
      Rules.ResetKeepsInv(tileCount, food, configured);
      GameLoop([]);
    }

    /** The pause button: resuming runs a tick straight away. */
    method TogglePause(draws: seq<Cell>)
      requires Valid()
      requires Rules.CanToggle(State(), draws) && AllInGrid(draws, tileCount)
      modifies this
      ensures State() == Rules.TogglePause(old(State()), tileCount, draws)
      ensures Valid()
    {
      if !gameRunning {
        return;
      }
      gamePaused := !gamePaused;
      if !gamePaused {
        GameLoop(draws);
      }
    }

    method HandleKeyDown(key: string)
      requires Valid()
      modifies this
      ensures State() == Rules.HandleKey(old(State()), tileCount, key)
      ensures Valid()
    {
      if !gameRunning || gamePaused {
        return;
      }
      match Rules.Classify(key)
      case Turn(Up) =>
        if velocity.dy != 1 {
          nextVelocity := North;
        }
      case Turn(Down) =>
        if velocity.dy != -1 {
          nextVelocity := South;
        }
      case Turn(Left) =>
        if velocity.dx != 1 {
          nextVelocity := West;
        }
      case Turn(Right) =>
        if velocity.dx != -1 {
          nextVelocity := East;
        }
      case PauseKey =>
        TogglePause([]);
      case Ignored =>
    }

    /** The speed slider's input handler. */
    method SetSpeed(value: int)
      modifies this`speed
      ensures State() == Rules.SetSpeed(old(State()), value)
      ensures old(Valid()) ==> Valid()
    {
      speed := value;
    }
  }
}

// Sessions on a 400-pixel canvas (20 tiles a side), driven only through the
// contracts of SnakeGame.
module Scenarios {
  import opened Grid
  import opened Game
  import Rules

  method NewGame(food: Cell) returns (g: SnakeGame)
    requires food != Rules.Origin && InGrid(food, 20)
    ensures fresh(g) && g.Valid() && g.tileCount == 20
    ensures g.snake == [Cell(5, 5)] && g.food == food && g.score == 0 && g.speed == 7
    ensures g.velocity == g.nextVelocity == Still && g.gameRunning && !g.gamePaused
  {
    g := new SnakeGame(400, Cell(0, 0));
    assert [food][0] !in [Rules.Origin];
    g.ResetGame([food], 7);
    Rules.ResetState(20, food, 7);
  }

  /** A new game after the `d` key: about to move right. */
  method HeadingRight(food: Cell) returns (g: SnakeGame)
    requires food != Rules.Origin && InGrid(food, 20)
    ensures fresh(g) && g.Valid() && g.tileCount == 20
    ensures g.snake == [Cell(5, 5)] && g.food == food && g.score == 0 && g.speed == 7
    ensures g.velocity == Still && g.nextVelocity == East && g.gameRunning && !g.gamePaused
  {
    g := NewGame(food);
    g.HandleKeyDown("d");
  }

  /** Start, turn right, one tick: the head is at (6,5) and the snake did not grow. */
  method TurnRightThenTick()
  {
    var g := NewGame(Cell(10, 10));
    g.HandleKeyDown("ArrowRight");
    assert g.nextVelocity == Velocity(1, 0);
    g.GameLoop([]);
    assert g.snake == [Cell(6, 5)] && g.gameRunning && g.score == 0;
  }

  /** Food straight ahead: ten points, two segments, new food off the snake. */
  method EatFood()
  {
    var g := HeadingRight(Cell(6, 5));
    var draws := [Cell(6, 5), Cell(5, 5), Cell(1, 2)];
    ghost var grown := [Cell(6, 5), Cell(5, 5)];
    assert draws[0] in grown && draws[1] in grown && draws[2] !in grown;
    ghost var before := g.State();
    assert Rules.Eats(before) && [Rules.NextHead(before)] + before.snake == grown;
    g.GameLoop(draws);
    Rules.TickEatsFood(before, 20, draws);
    Rules.TickSpeed(before, 20, draws);
    assert g.snake == grown && g.score == 10 && g.speed == 7 && g.food == Cell(1, 2);
    assert g.gameRunning;
  }

  /** Leaving the board at x = -1 ends the game; later ticks change nothing. */
  method RunIntoWall()
  {
    var g := NewGame(Cell(19, 19));
    g.HandleKeyDown("ArrowLeft");
    var x := 5;
    while x > 0
      invariant 0 <= x <= 5 && g.Valid() && g.tileCount == 20
      invariant g.snake == [Cell(x, 5)] && g.nextVelocity == West && g.food == Cell(19, 19)
      invariant g.gameRunning && !g.gamePaused
    {
      g.GameLoop([]);
      x := x - 1;
      assert g.snake == [Cell(x, 5)];
    }
    assert g.snake == [Cell(0, 5)] && g.gameRunning;
    g.GameLoop([]);
    assert !g.gameRunning && g.snake == [Cell(-1, 5)];
    g.GameLoop([]);
    assert !g.gameRunning && g.snake == [Cell(-1, 5)] && g.food == Cell(19, 19);
  }

  /** The space bar pauses, but a paused game ignores it: only the button resumes. */
  method SpaceCannotResume()
  {
    var g := NewGame(Cell(10, 10));
    g.HandleKeyDown(" ");
    assert g.gamePaused;
    g.HandleKeyDown(" ");
    assert g.gamePaused;
    g.TogglePause([]);
    assert !g.gamePaused && g.gameRunning;
  }
}
