// The rules of the Snake engine as functions on a snapshot of its state:
// one tick, key handling, pause/resume, reset and the speed slider, with
// the properties each of them keeps.

module Rules {
  import opened Grid

  /** The cell a new game's one-segment snake starts on. */
  const Origin := Cell(5, 5)
  const PointsPerFood := 10
  /** The speed goes up by one each time the score reaches a multiple of this. */
  const SpeedUpEvery := 50
  /** Ticks per second before the player first starts a game. */
  const InitialSpeed := 7

  /** Every variable of the engine; `pending` is the buffered nextVelocity. */
  datatype State = State(
    snake: seq<Cell>,
    velocity: Velocity,
    pending: Velocity,
    food: Cell,
    score: int,
    speed: int,
    running: bool,
    paused: bool)

  predicate Distinct(cells: seq<Cell>)
  {
    forall i, j :: 0 <= i < j < |cells| ==> cells[i] != cells[j]
  }

  /**
   * What holds between any two operations on a `tileCount`-wide board.
   * While a game runs the body lies on the board, never overlaps itself and
   * never covers the food; a paused game is always a running one.
   */
  predicate Inv(s: State, tileCount: int)
  {
    && tileCount > 0
    && |s.snake| >= 1
    && IsHeading(s.velocity) && IsHeading(s.pending)
    && s.score >= 0 && s.score % PointsPerFood == 0
    && InGrid(s.food, tileCount)
    && (s.paused ==> s.running)
    && (s.running ==> s.food !in s.snake && AllInGrid(s.snake, tileCount) && Distinct(s.snake))
  }

  /** The state when the page loads: no game running yet, food on a random cell. */
  function Initial(food: Cell): State
  {
    State([Origin], Still, Still, food, 0, InitialSpeed, false, false)
  }

  // ---------------------------------------------------------------- one tick

  predicate Active(s: State)
  {
    s.running && !s.paused
  }

  function NextHead(s: State): Cell
    requires |s.snake| >= 1
  {
    Advance(s.snake[0], s.pending)
  }

  predicate Eats(s: State)
    requires |s.snake| >= 1
  {
    NextHead(s) == s.food
  }

  /** The draws suffice for the food placement a move may run. */
  predicate CanMove(s: State, draws: seq<Cell>)
  {
    |s.snake| >= 1 && (Eats(s) ==> HasFree(draws, [NextHead(s)] + s.snake))
  }

  /**
   * moveSnake: commit the pending velocity, put the new head in front; on
   * the food score and grow (placing new food off the grown body and maybe
   * speeding up), otherwise drop the tail.
   */
  function Move(s: State, draws: seq<Cell>): State
    requires CanMove(s, draws)
  {
    var head := NextHead(s);
    var grown := [head] + s.snake;
    if head == s.food then
      var score := s.score + PointsPerFood;
      s.(velocity := s.pending, snake := grown, score := score,
         food := draws[FirstFree(draws, grown)],
         speed := if score % SpeedUpEvery == 0 then s.speed + 1 else s.speed)
    else
      s.(velocity := s.pending, snake := grown[..|grown| - 1])
  }

  /** The head has left the board or lies on a later segment. */
  predicate Collides(snake: seq<Cell>, tileCount: int)
    requires |snake| >= 1
  {
    !InGrid(snake[0], tileCount) || exists i :: 1 <= i < |snake| && snake[i] == snake[0]
  }

  /** checkCollision: a collision is game over. */
  function CheckCollision(s: State, tileCount: int): State
    requires |s.snake| >= 1
  {
    if Collides(s.snake, tileCount) then s.(running := false) else s
  }

  predicate CanTick(s: State, draws: seq<Cell>)
  {
    |s.snake| >= 1 && (Active(s) ==> CanMove(s, draws))
  }

  /** gameLoop: nothing unless running and not paused; then move and check. */
  function Tick(s: State, tileCount: int, draws: seq<Cell>): State
    requires CanTick(s, draws)
  {
    if !Active(s) then s else CheckCollision(Move(s, draws), tileCount)
  }

  // ------------------------------------------------------- pause and resume

  predicate CanToggle(s: State, draws: seq<Cell>)
  {
    s.running && s.paused ==> CanTick(s.(paused := false), draws)
  }

  /** togglePause: only in a running game; resuming runs one tick at once. */
  function TogglePause(s: State, tileCount: int, draws: seq<Cell>): State
    requires CanToggle(s, draws)
  {
    if !s.running then s
    else if s.paused then Tick(s.(paused := false), tileCount, draws)
    else s.(paused := true)
  }

  // ------------------------------------------------------------------- keys

  datatype Direction = Up | Down | Left | Right

  datatype Command = Turn(toward: Direction) | PauseKey | Ignored

  /** The key names handleKeyDown's switch recognises. */
  function Classify(key: string): Command
  {
    if key == "ArrowUp" || key == "w" || key == "W" then Turn(Up)
    else if key == "ArrowDown" || key == "s" || key == "S" then Turn(Down)
    else if key == "ArrowLeft" || key == "a" || key == "A" then Turn(Left)
    else if key == "ArrowRight" || key == "d" || key == "D" then Turn(Right)
    else if key == " " then PauseKey
    else Ignored
  }

  function Unit(d: Direction): Velocity
  {
    match d
    case Up => North
    case Down => South
    case Left => West
    case Right => East
  }

  /** The guard of each turn: one component of the ACTIVE velocity is tested. */
  predicate Refused(active: Velocity, d: Direction)
  {
    match d
    case Up => active.dy == 1
    case Down => active.dy == -1
    case Left => active.dx == 1
    case Right => active.dx == -1
  }

  /** handleKeyDown: every key is ignored unless the game runs unpaused. */
  function HandleKey(s: State, tileCount: int, key: string): State
  {
    if !Active(s) then s
    else
      match Classify(key)
      case Turn(d) => if Refused(s.velocity, d) then s else s.(pending := Unit(d))
      case PauseKey => TogglePause(s, tileCount, [])
      case Ignored => s
  }

  // ------------------------------------------------------ reset and slider

  /** resetGame before its final gameLoop call; `food` is what generateFood placed. */
  function Fresh(food: Cell, configured: int): State
  {
    State([Origin], Still, Still, food, 0, configured, true, false)
  }

  /** The food generateFood places for the fresh one-segment snake. */
  function FreshFood(draws: seq<Cell>): (food: Cell)
    requires HasFree(draws, [Origin])
    ensures food != Origin
  {
    draws[FirstFree(draws, [Origin])]
  }

  lemma FreshDoesNotEat(food: Cell, configured: int)
    requires food != Origin
    ensures !Eats(Fresh(food, configured))
  {
    assert NextHead(Fresh(food, configured)) == Origin;
  }

  /** The closing tick of a reset neither moves nor grows the snake. */
  lemma FreshStandsStill(food: Cell, configured: int)
    requires food != Origin
    ensures CanTick(Fresh(food, configured), [])
    ensures Move(Fresh(food, configured), []) == Fresh(food, configured)
  {
    FreshDoesNotEat(food, configured);
    var s := Fresh(food, configured);
    var grown := [NextHead(s)] + s.snake;
    assert grown[..|grown| - 1] == [Origin];
  }

  /** resetGame: a fresh game, then the tick its closing gameLoop call runs. */
  function Reset(tileCount: int, food: Cell, configured: int): State
    requires food != Origin
  {
    FreshStandsStill(food, configured);
    Tick(Fresh(food, configured), tileCount, [])
  }

  /** The speed slider's input handler. */
  function SetSpeed(s: State, value: int): State
  {
    s.(speed := value)
  }

  // -------------------------------------------------------- tick properties

  /** A tick commits the pending velocity and puts the head one step along it. */
  lemma TickMovesHead(s: State, tileCount: int, draws: seq<Cell>)
    requires CanTick(s, draws) && Active(s)
    ensures var t := Tick(s, tileCount, draws);
      && t.velocity == s.pending && t.pending == s.pending
      && |t.snake| >= 1 && t.snake[0] == Cell(s.snake[0].x + s.pending.dx, s.snake[0].y + s.pending.dy)
  {
  }

  /** Missing the food: same length, the body is the old one minus its tail. */
  lemma TickWithoutFood(s: State, tileCount: int, draws: seq<Cell>)
    requires CanTick(s, draws) && Active(s) && !Eats(s)
    ensures var t := Tick(s, tileCount, draws);
      && |t.snake| == |s.snake|
      && t.snake[1..] == s.snake[..|s.snake| - 1]
      && t.score == s.score && t.speed == s.speed && t.food == s.food
  {
  }

  /**
   * Eating: ten more points, the whole old body stays behind the head, and
   * the new food is the first drawn cell off the grown body.
   */
  lemma TickEatsFood(s: State, tileCount: int, draws: seq<Cell>)
    requires CanTick(s, draws) && Active(s) && Eats(s)
    ensures var t := Tick(s, tileCount, draws);
      && t.score == s.score + 10
      && |t.snake| == |s.snake| + 1 && t.snake[1..] == s.snake
      && t.food == draws[FirstFree(draws, t.snake)]
      && t.food !in t.snake
      && (AllInGrid(draws, tileCount) ==> InGrid(t.food, tileCount))
  {
  }

  /** The speed rises by one exactly when food lifts the score onto a multiple of 50. */
  lemma TickSpeed(s: State, tileCount: int, draws: seq<Cell>)
    requires CanTick(s, draws)
    ensures var t := Tick(s, tileCount, draws);
      && (t.speed == s.speed + 1 <==> Active(s) && Eats(s) && t.score % 50 == 0)
      && (t.speed == s.speed || t.speed == s.speed + 1)
  {
  }

  /**
   * Over a tick from a reachable state the speed gains as many units as the
   * score crosses multiples of 50: each multiple speeds the game up once.
   */
  lemma TickSpeedTracksScore(s: State, tileCount: int, draws: seq<Cell>)
    requires Inv(s, tileCount) && CanTick(s, draws)
    ensures var t := Tick(s, tileCount, draws);
      t.speed - s.speed == t.score / 50 - s.score / 50
  {
    if Active(s) && Eats(s) {
      TenMoreCrossesFifty(s.score);
    }
  }

  /**
   * Ten more points pass a multiple of 50 exactly when they land on one.
   * Stated apart so that the tick lemma above sees the arithmetic alone.
   */
  lemma TenMoreCrossesFifty(score: int)
    requires score >= 0 && score % 10 == 0
    ensures (score + 10) / 50 - score / 50 == if (score + 10) % 50 == 0 then 1 else 0
  {
  }

  /**
   * A tick from a running game ends it exactly when the new head is off the
   * board or on a later segment; the tick's other effects stand.
   */
  lemma TickEndsGame(s: State, tileCount: int, draws: seq<Cell>)
    requires CanTick(s, draws) && Active(s)
    ensures var t := Tick(s, tileCount, draws);
      && |t.snake| >= 1
      && t == Move(s, draws).(running := t.running)
      && (!t.running <==>
            || t.snake[0].x < 0 || t.snake[0].x >= tileCount
            || t.snake[0].y < 0 || t.snake[0].y >= tileCount
            || exists i :: 1 <= i < |t.snake| && t.snake[i] == t.snake[0])
  {
  }

  /** checkCollision only ever clears the running flag, and only on a collision. */
  lemma CollisionOnlyStops(s: State, tileCount: int)
    requires |s.snake| >= 1
    ensures var t := CheckCollision(s, tileCount);
      && t.(running := s.running) == s
      && (t.running <==> s.running && InGrid(s.snake[0], tileCount)
                         && forall i :: 1 <= i < |s.snake| ==> s.snake[i] != s.snake[0])
  {
  }

  /** A stopped or paused game does not move. */
  lemma TickIdle(s: State, tileCount: int, draws: seq<Cell>)
    requires CanTick(s, draws) && !Active(s)
    ensures Tick(s, tileCount, draws) == s
  {
  }

  lemma {:induction false} MoveNoFoodDistinct(s: State, draws: seq<Cell>, tileCount: int)
    requires Inv(s, tileCount) && s.running && CanMove(s, draws) && !Eats(s)
    requires !Collides(Move(s, draws).snake, tileCount)
    ensures var m := Move(s, draws).snake;
      Distinct(m) && AllInGrid(m, tileCount) && s.food !in m
  {
    var m := Move(s, draws).snake;
    var prev := s.snake;
    assert m == [m[0]] + prev[..|prev| - 1];
    forall i, j | 0 <= i < j < |m| ensures m[i] != m[j] {
      if i > 0 {
        assert m[i] == prev[i - 1] && m[j] == prev[j - 1];
      } else {
        assert !(m[j] == m[0]);
      }
    }
    forall i | 0 <= i < |m| ensures InGrid(m[i], tileCount) {
      if i > 0 { assert m[i] == prev[i - 1]; }
    }
    forall i | 0 <= i < |m| ensures m[i] != s.food {
      if i > 0 { assert m[i] == prev[i - 1]; }
    }
  }

  lemma {:induction false} MoveFoodDistinct(s: State, draws: seq<Cell>, tileCount: int)
    requires Inv(s, tileCount) && s.running && CanMove(s, draws) && Eats(s)
    requires !Collides(Move(s, draws).snake, tileCount)
    ensures var m := Move(s, draws).snake;
      Distinct(m) && AllInGrid(m, tileCount)
  {
    var m := Move(s, draws).snake;
    assert m == [m[0]] + s.snake;
    forall i, j | 0 <= i < j < |m| ensures m[i] != m[j] {
      if i > 0 {
        assert m[i] == s.snake[i - 1] && m[j] == s.snake[j - 1];
      } else {
        assert !(m[j] == m[0]);
      }
    }
    forall i | 0 <= i < |m| ensures InGrid(m[i], tileCount) {
      if i > 0 { assert m[i] == s.snake[i - 1]; }
    }
  }

  /**
   * A tick keeps the invariant: in particular the score stays a non-negative
   * multiple of 10, both velocities stay headings, and food is never on the
   * snake of a running game.
   */
  lemma {:induction false} TickKeepsInv(s: State, tileCount: int, draws: seq<Cell>)
    requires Inv(s, tileCount) && CanTick(s, draws) && AllInGrid(draws, tileCount)
    ensures Inv(Tick(s, tileCount, draws), tileCount)
  {
    if Active(s) {
      var m := Move(s, draws);
      if !Collides(m.snake, tileCount) {
        if Eats(s) {
          MoveFoodDistinct(s, draws, tileCount);
        } else {
          MoveNoFoodDistinct(s, draws, tileCount);
        }
      }
    }
  }

  // --------------------------------------------------------- key properties

  /** Keys are ignored while the game is stopped or paused: so is the space bar. */
  lemma KeyIgnoredWhenIdle(s: State, tileCount: int, key: string)
    requires !Active(s)
    ensures HandleKey(s, tileCount, key) == s
  {
  }

  /**
   * In a running game a turn changes only the pending velocity, and is
   * refused exactly when it would reverse the active velocity.
   */
  lemma TurnArbitration(s: State, tileCount: int, key: string, d: Direction)
    requires Active(s) && IsHeading(s.velocity) && Classify(key) == Turn(d)
    ensures HandleKey(s, tileCount, key)
      == s.(pending := if s.velocity == Reverse(Unit(d)) then s.pending else Unit(d))
  {
  }

  /** No key changes the active velocity. */
  lemma KeyKeepsVelocity(s: State, tileCount: int, key: string)
    ensures HandleKey(s, tileCount, key).velocity == s.velocity
  {
  }

  /** The space bar in a running, unpaused game pauses it and does nothing else. */
  lemma SpacePauses(s: State, tileCount: int)
    requires Active(s)
    ensures HandleKey(s, tileCount, " ") == s.(paused := true)
  {
  }

  lemma KeyKeepsInv(s: State, tileCount: int, key: string)
    requires Inv(s, tileCount)
    ensures Inv(HandleKey(s, tileCount, key), tileCount)
  {
  }

  // ------------------------------------------------------- pause properties

  /** Outside a running game the pause button does nothing. */
  lemma ToggleWhenStopped(s: State, tileCount: int, draws: seq<Cell>)
    requires !s.running
    ensures TogglePause(s, tileCount, draws) == s
  {
  }

  /**
   * Pausing and resuming a running game restores the pause flag and amounts
   * to exactly one tick, the one resuming runs.
   */
  lemma PauseThenResume(s: State, tileCount: int, draws: seq<Cell>)
    requires Active(s) && CanTick(s, draws)
    ensures var p := TogglePause(s, tileCount, []);
      && p == s.(paused := true)
      && CanToggle(p, draws)
      && TogglePause(p, tileCount, draws) == Tick(s, tileCount, draws)
      && !TogglePause(p, tileCount, draws).paused
  {
    assert s.(paused := true).(paused := false) == s;
  }

  lemma {:induction false} ToggleKeepsInv(s: State, tileCount: int, draws: seq<Cell>)
    requires Inv(s, tileCount) && CanToggle(s, draws) && AllInGrid(draws, tileCount)
    ensures Inv(TogglePause(s, tileCount, draws), tileCount)
  {
    if s.running && s.paused {
      TickKeepsInv(s.(paused := false), tileCount, draws);
    }
  }

  // ------------------------------------------------------- reset properties

  /**
   * Reset gives a one-segment snake at (5,5), no velocity, score 0, the
   * configured speed, unpaused, with food on the board off the snake; the
   * game is running unless the board is too small to hold (5,5).
   */
  lemma {:induction false} ResetState(tileCount: int, food: Cell, configured: int)
    requires food != Origin
    ensures var r := Reset(tileCount, food, configured);
      && r.snake == [Cell(5, 5)]
      && r.velocity == Velocity(0, 0) && r.pending == Velocity(0, 0)
      && r.score == 0 && r.speed == configured && !r.paused
      && r.food == food && r.food !in r.snake
      && (r.running <==> tileCount > 5)
  {
    FreshStandsStill(food, configured);
  }

  lemma {:induction false} ResetKeepsInv(tileCount: int, food: Cell, configured: int)
    requires tileCount > 0 && food != Origin && InGrid(food, tileCount)
    ensures Inv(Reset(tileCount, food, configured), tileCount)
  {
    ResetState(tileCount, food, configured);
  }

  lemma InitialInv(tileCount: int, food: Cell)
    requires tileCount > 0 && InGrid(food, tileCount)
    ensures Inv(Initial(food), tileCount)
  {
  }

  // ------------------------------------------------------------- sessions

  /** Whatever drives the engine: the timer, the keyboard, the buttons, the slider. */
  datatype Event =
    | Timer(draws: seq<Cell>)
    | KeyDown(key: string)
    | PauseClick(draws: seq<Cell>)
    | StartClick(draws: seq<Cell>, configured: int)
    | SliderInput(value: int)

  predicate Enabled(s: State, e: Event)
  {
    match e
    case Timer(draws) => CanTick(s, draws)
    case KeyDown(_) => true
    case PauseClick(draws) => CanToggle(s, draws)
    case StartClick(draws, _) => HasFree(draws, [Origin])
    case SliderInput(_) => true
  }

  /** The random cells an event consumes come from the board. */
  predicate DrawsOnBoard(e: Event, tileCount: int)
  {
    match e
    case Timer(draws) => AllInGrid(draws, tileCount)
    case PauseClick(draws) => AllInGrid(draws, tileCount)
    case StartClick(draws, _) => AllInGrid(draws, tileCount)
    case _ => true
  }

  function Apply(s: State, tileCount: int, e: Event): State
    requires Enabled(s, e)
  {
    match e
    case Timer(draws) => Tick(s, tileCount, draws)
    case KeyDown(key) => HandleKey(s, tileCount, key)
    case PauseClick(draws) => TogglePause(s, tileCount, draws)
    case StartClick(draws, configured) => Reset(tileCount, FreshFood(draws), configured)
    case SliderInput(value) => SetSpeed(s, value)
  }

  /**
   * A session: the events in order. An event whose draws never land on a
   * free cell would hang food placement, so the session ends there.
   */
  function Run(s: State, tileCount: int, events: seq<Event>): State
    decreases |events|
  {
    if events == [] || !Enabled(s, events[0]) then s
    else Run(Apply(s, tileCount, events[0]), tileCount, events[1..])
  }

  lemma {:induction false} ApplyKeepsInv(s: State, tileCount: int, e: Event)
    requires Inv(s, tileCount) && Enabled(s, e) && DrawsOnBoard(e, tileCount)
    ensures Inv(Apply(s, tileCount, e), tileCount)
  {
    match e
    case Timer(draws) => TickKeepsInv(s, tileCount, draws);
    case KeyDown(key) => KeyKeepsInv(s, tileCount, key);
    case PauseClick(draws) => ToggleKeepsInv(s, tileCount, draws);
    case StartClick(draws, configured) =>
      ResetKeepsInv(tileCount, FreshFood(draws), configured);
    case SliderInput(_) =>
  }

  /**
   * Every state a session reaches keeps the invariant: the score is a
   * non-negative multiple of 10, both velocities are in {(0,0), (+-1,0),
   * (0,+-1)}, and a running game's food is off its snake.
   */
  lemma {:induction false} RunKeepsInv(s: State, tileCount: int, events: seq<Event>)
    requires Inv(s, tileCount)
    requires forall i :: 0 <= i < |events| ==> DrawsOnBoard(events[i], tileCount)
    ensures Inv(Run(s, tileCount, events), tileCount)
    decreases |events|
  {
    if events != [] && Enabled(s, events[0]) {
      ApplyKeepsInv(s, tileCount, events[0]);
      RunKeepsInv(Apply(s, tileCount, events[0]), tileCount, events[1..]);
    }
  }

  /**
   * Over timer ticks alone, the speed gains exactly one unit per multiple of
   * 50 the score passes.
   */
  lemma {:induction false} TicksSpeedTracksScore(s: State, tileCount: int, events: seq<Event>)
    requires Inv(s, tileCount)
    requires forall i :: 0 <= i < |events| ==> events[i].Timer? && DrawsOnBoard(events[i], tileCount)
    ensures var t := Run(s, tileCount, events);
      t.speed - s.speed == t.score / 50 - s.score / 50
    decreases |events|
  {
    if events != [] && Enabled(s, events[0]) {
      var draws := events[0].draws;
      TickSpeedTracksScore(s, tileCount, draws);
      TickKeepsInv(s, tileCount, draws);
      TicksSpeedTracksScore(Tick(s, tileCount, draws), tileCount, events[1..]);
    }
  }
}
