// The board of the Snake game: cells, velocities, and the two scans the
// engine runs over the snake's body (food placement and self collision).

module Grid {

  /** Side of one tile in canvas pixels; the board has canvasWidth / GridSize tiles per side. */
  const GridSize := 20

  /** A tile of the board, 0-indexed; the snake's head may briefly sit outside the board. */
  datatype Cell = Cell(x: int, y: int)

  /** A per-tick displacement (velocityX, velocityY in the game). */
  datatype Velocity = Velocity(dx: int, dy: int)

  const Still := Velocity(0, 0)
  const North := Velocity(0, -1)
  const South := Velocity(0, 1)
  const West := Velocity(-1, 0)
  const East := Velocity(1, 0)

  predicate InGrid(c: Cell, tileCount: int)
  {
    0 <= c.x < tileCount && 0 <= c.y < tileCount
  }

  predicate AllInGrid(cells: seq<Cell>, tileCount: int)
  {
    forall i :: 0 <= i < |cells| ==> InGrid(cells[i], tileCount)
  }

  /** A velocity the game can ever hold: standing still or one step along one axis. */
  predicate IsHeading(v: Velocity)
  {
    v == Still || v == North || v == South || v == West || v == East
  }

  /** Plain vector addition: the board does not wrap around. */
  function Advance(c: Cell, v: Velocity): Cell
  {
    Cell(c.x + v.dx, c.y + v.dy)
  }

  function Reverse(v: Velocity): Velocity
  {
    Velocity(-v.dx, -v.dy)
  }

  /** Some attempt of the random food placement lands off the body. */
  predicate HasFree(draws: seq<Cell>, body: seq<Cell>)
  {
    exists i :: 0 <= i < |draws| && draws[i] !in body
  }

  /**
   * The attempt at which reject-and-resample food placement stops: the
   * first drawn cell that is not a segment of the body.
   */
  function FirstFree(draws: seq<Cell>, body: seq<Cell>): (k: nat)
    requires HasFree(draws, body)
    ensures k < |draws| && draws[k] !in body
    ensures forall j :: 0 <= j < k ==> draws[j] in body
  {
    if draws[0] !in body then 0
    else
      assert HasFree(draws[1..], body) by {
        var i :| 0 <= i < |draws| && draws[i] !in body;
        assert i != 0 && draws[1..][i - 1] == draws[i];
      }
      1 + FirstFree(draws[1..], body)
  }

  /** The inner `for ... of` scan of food placement: is `c` a segment of `body`? */
  method OnSnake(body: seq<Cell>, c: Cell) returns (found: bool)
    ensures found <==> c in body
  {
    found := false;
    for i := 0 to |body|
      invariant c !in body[..i]
    {
      if body[i] == c {
        found := true;
        break;
      }
    }
    assert !found ==> body[..|body|] == body;
  }

  /**
   * The `do ... while` of food placement: take drawn cells in order until
   * one is off the body. `draws` stands for the successive random cells.
   */
  method DrawFood(draws: seq<Cell>, body: seq<Cell>) returns (food: Cell)
    requires HasFree(draws, body)
    ensures food == draws[FirstFree(draws, body)]
    ensures food !in body
  {
    ghost var last := FirstFree(draws, body);
    var k := 0;
    food := draws[k];
    var onSnake := OnSnake(body, food);
    while onSnake
      invariant 0 <= k <= last
      invariant food == draws[k]
      invariant onSnake <==> food in body
      decreases last - k
    {
      k := k + 1;
      food := draws[k];
      onSnake := OnSnake(body, food);
    }
  }

  /** The self-collision loop: does the head meet a segment at index 1 or later? */
  method HitsItself(body: seq<Cell>) returns (hit: bool)
    requires |body| >= 1
    ensures hit <==> exists i :: 1 <= i < |body| && body[i] == body[0]
  {
    hit := false;
    for i := 1 to |body|
      invariant forall j :: 1 <= j < i ==> body[j] != body[0]
    {
      if body[i] == body[0] {
        hit := true;
        return;
      }
    }
  }
}
