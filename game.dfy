/** The game state machine (src/game.rs): the snake, the food, the board size,
    the game-over flag, the waiting-time accumulator and the pending-growth
    flag `ate`.

    Time is an integer number of hundredths of a second, so the source's
    0.2 s movement period, 1.0 s restart delay and 0.01 s game-over
    increment become 20, 100 and 1. The random generator is a parameter:
    `draws` is the sequence of cells that `gen_range` would produce, in order. */
module Game {
  import opened Snake

  const MovingPeriod := 20
  const RestartTime := 100
  const GameOverIncrement := 1

  /** The keys the game reacts to; every other key is `Other`. */
  datatype Key = ArrowUp | W | ArrowDown | S | ArrowLeft | A | ArrowRight | D | Other

  /** Everything a `Game` holds, as one value. */
  datatype GameView = GameView(
    parts: seq<Segment>,
    foodExists: bool,
    foodPosition: Block,
    width: int,
    height: int,
    gameOver: bool,
    waitingTime: int,
    ate: bool)

  /** The playable cells: the board minus a one-cell border. */
  predicate InInterior(p: Block, width: int, height: int)
  {
    1 <= p.x <= width - 2 && 1 <= p.y <= height - 2
  }

  /** Every draw lies where `gen_range(1..width-1)`, `gen_range(1..height-1)` can land. */
  predicate DrawsInInterior(draws: seq<Block>, width: int, height: int)
  {
    forall j :: 0 <= j < |draws| ==> InInterior(draws[j], width, height)
  }

  /** State built by `new(width, height)`. */
  function NewGame(width: int, height: int): (v: GameView)
    ensures WellFormed(v.parts) && |v.parts| == 1 && v.parts[0].position == Block(11, 11)
    ensures v.width == width && v.height == height
    ensures !v.foodExists && !v.gameOver && !v.ate && v.waitingTime == 0
  {
    GameView([InitialHead], false, Block(0, 0), width, height, false, 0, false)
  }

  /** Arrow keys and W/S/A/D map to the four directions; any other key to nothing. */
  function KeyDirection(k: Key): (r: Option<MoveDirection>)
    ensures r.None? <==> k.Other?
    ensures r == Some(Up) <==> k == ArrowUp || k == W
    ensures r == Some(Down) <==> k == ArrowDown || k == S
    ensures r == Some(Left) <==> k == ArrowLeft || k == A
    ensures r == Some(Right) <==> k == ArrowRight || k == D
  {
    match k
    case ArrowUp => Some(Up)
    case W => Some(Up)
    case ArrowDown => Some(Down)
    case S => Some(Down)
    case ArrowLeft => Some(Left)
    case A => Some(Left)
    case ArrowRight => Some(Right)
    case D => Some(Right)
    case Other => None
  }

  /** State after `user_input(k)`. */
  function Steer(v: GameView, k: Key): (r: GameView)
    requires WellFormed(v.parts)
    ensures WellFormed(r.parts)
    ensures KeyDirection(k).None? ==> r == v
    ensures KeyDirection(k).Some? && KeyDirection(k).value == v.parts[0].direction.Opposite() ==> r == v
    ensures KeyDirection(k).Some? && KeyDirection(k).value != v.parts[0].direction.Opposite() ==>
      r.parts[0].direction == KeyDirection(k).value
    ensures |r.parts| == |v.parts| && r.parts[0].position == v.parts[0].position && r.parts[1..] == v.parts[1..]
    ensures r.(parts := v.parts) == v
  {
    var dir := KeyDirection(k);
    if dir.None? then v
    else if dir.value == v.parts[0].direction.Opposite() then v
    else v.(parts := v.parts[0 := v.parts[0].(direction := dir.value)])
  }

  /** Turning and then pressing the key of the opposite direction keeps the
      turn: the second key is compared with the new direction, is its
      opposite, and is dropped. */
  lemma ReversalAfterTurnIsDropped(v: GameView, turn: Key, back: Key)
    requires WellFormed(v.parts)
    requires KeyDirection(turn).Some? && KeyDirection(turn).value != v.parts[0].direction.Opposite()
    requires KeyDirection(back) == Some(KeyDirection(turn).value.Opposite())
    ensures Steer(Steer(v, turn), back) == Steer(v, turn)
    ensures Steer(Steer(v, turn), back).parts[0].direction == KeyDirection(turn).value
  {
  }

  /** First half of `update_snake(dir)`: the chain moves and, when food was
      eaten on the previous step, grows by a body segment at the head's
      pre-move cell; the pending-growth flag is cleared. */
  function AfterGrowth(v: GameView, dir: Option<MoveDirection>): (r: GameView)
    requires WellFormed(v.parts)
    ensures WellFormed(r.parts) && !r.ate
    ensures |r.parts| == |v.parts| + (if v.ate then 1 else 0)
    ensures r.(parts := v.parts, ate := v.ate) == v
  {
    var moved := Advance(v.parts, dir);
    v.(parts := if v.ate then Grown(moved, v.parts[0].position) else moved, ate := false)
  }

  /** Second half of `update_snake`: the bounds check, the food check and the
      self-overlap check on the new head, each applied whatever the others
      found. */
  function BoundsCheck(u: GameView): (r: GameView)
    requires WellFormed(u.parts)
    ensures r.(gameOver := u.gameOver) == u
  {
    if !InInterior(u.parts[0].position, u.width, u.height) then u.(gameOver := true) else u
  }

  function FoodCheck(u: GameView): (r: GameView)
    requires WellFormed(u.parts)
    ensures r.(ate := u.ate, foodExists := u.foodExists) == u
  {
    if u.parts[0].position == u.foodPosition then u.(ate := true, foodExists := false) else u
  }

  function OverlapCheck(u: GameView): (r: GameView)
    requires WellFormed(u.parts)
    ensures r.(gameOver := u.gameOver) == u
  {
    if TailOccupies(u.parts, u.parts[0].position) then u.(gameOver := true) else u
  }

  /** State after `update_snake(dir)`. */
  function SnakeStep(v: GameView, dir: Option<MoveDirection>): (r: GameView)
    requires WellFormed(v.parts)
    ensures WellFormed(r.parts)
    ensures |r.parts| == |v.parts| + (if v.ate then 1 else 0)
    ensures r.width == v.width && r.height == v.height && r.foodPosition == v.foodPosition
    ensures r.waitingTime == v.waitingTime
    ensures v.gameOver ==> r.gameOver
  {
    OverlapCheck(FoodCheck(BoundsCheck(AfterGrowth(v, dir))))
  }

  /** A step neither reads nor changes the timer. */
  lemma StepIgnoresTimer(v: GameView, dir: Option<MoveDirection>, t: int)
    requires WellFormed(v.parts)
    ensures SnakeStep(v.(waitingTime := t), dir) == SnakeStep(v, dir).(waitingTime := t)
  {
  }

  /** What one step does to the chain: the whole chain advances, and when
      growth was pending a body segment is appended at the head's pre-move
      cell, carrying the head's new direction. */
  lemma StepMovesChain(v: GameView, dir: Option<MoveDirection>)
    requires WellFormed(v.parts)
    ensures var r := SnakeStep(v, dir);
      r.parts[..|v.parts|] == Advance(v.parts, dir) &&
      (v.ate ==> r.parts[|v.parts|] == Segment(Body, v.parts[0].position, r.parts[0].direction))
  {
  }

  /** The three checks of a step, each stated on its own. */
  lemma StepChecks(v: GameView, dir: Option<MoveDirection>)
    requires WellFormed(v.parts)
    ensures var r := SnakeStep(v, dir); var head := r.parts[0].position;
      (r.gameOver <==> v.gameOver || !InInterior(head, v.width, v.height) || TailOccupies(r.parts, head)) &&
      (r.ate <==> head == v.foodPosition) &&
      (r.foodExists <==> v.foodExists && head != v.foodPosition)
  {
  }

  /** On a chain of two or more segments, growth puts the new tail on the
      cell the second segment has just moved into: for one step two
      segments share a cell. */
  lemma GrowthSharesCellWithSecond(v: GameView, dir: Option<MoveDirection>)
    requires WellFormed(v.parts) && |v.parts| >= 2 && v.ate
    ensures var r := SnakeStep(v, dir);
      |r.parts| == |v.parts| + 1 && r.parts[1].position == r.parts[|v.parts|].position
  {
  }

  /** A step whose head lands on the food outside the interior both ends the
      game and eats the food. */
  lemma EatsWhileHittingWall()
    ensures var v := NewGame(20, 20).(parts := [Segment(Head, Block(18, 11), Right)], foodPosition := Block(19, 11), foodExists := true);
      var r := SnakeStep(v, None);
      r.gameOver && r.ate && !r.foodExists
  {
  }

  /** The first movement step of a new game: the head moves from (11, 11) to
      (12, 11), the chain keeps one segment and the game goes on. */
  lemma FirstStepOfNewGame()
    ensures var r := SnakeStep(NewGame(20, 20), None);
      r.parts == [Segment(Head, Block(12, 11), Right)] && !r.gameOver
  {
  }

  /** Each key is checked against the direction the previous key set, not
      against the direction of the last move: moving right, Up then Left
      between two steps turns a three-segment snake back onto the cell its
      neck has just left, and the next step ends the game. */
  lemma TwoKeysReverse()
    ensures var v := NewGame(20, 20).(parts := [Segment(Head, Block(5, 5), Right),
                                                Segment(Body, Block(4, 5), Right),
                                                Segment(Body, Block(3, 5), Right)]);
      var turned := Steer(Steer(v, ArrowUp), ArrowLeft);
      turned.parts[0].direction == Left && !v.gameOver && SnakeStep(turned, None).gameOver
  {
    var v := NewGame(20, 20).(parts := [Segment(Head, Block(5, 5), Right),
                                        Segment(Body, Block(4, 5), Right),
                                        Segment(Body, Block(3, 5), Right)]);
    var turned := Steer(Steer(v, ArrowUp), ArrowLeft);
    var r := SnakeStep(turned, None);
    assert r.parts[0].position == Block(4, 5) && r.parts[1].position == Block(5, 5);
    assert r.parts[2].position == Block(4, 5);
  }

  /** Several movement steps in a row, one direction input per step. */
  function Run(v: GameView, dirs: seq<Option<MoveDirection>>): (r: GameView)
    requires WellFormed(v.parts)
    ensures WellFormed(r.parts)
    decreases |dirs|
  {
    if dirs == [] then v else Run(SnakeStep(v, dirs[0]), dirs[1..])
  }

  /** The number of steps of `Run(v, dirs)` whose head lands on the food. */
  function Meals(v: GameView, dirs: seq<Option<MoveDirection>>): nat
    requires WellFormed(v.parts)
    decreases |dirs|
  {
    if dirs == [] then 0
    else
      var next := SnakeStep(v, dirs[0]);
      (if next.ate then 1 else 0) + Meals(next, dirs[1..])
  }

  function Pending(v: GameView): nat
  {
    if v.ate then 1 else 0
  }

  /** The chain never shrinks, and grows by exactly one segment per meal:
      length plus pending growth goes up by the number of meals. */
  lemma {:induction false} RunGrowsOncePerMeal(v: GameView, dirs: seq<Option<MoveDirection>>)
    requires WellFormed(v.parts)
    ensures |Run(v, dirs).parts| + Pending(Run(v, dirs)) == |v.parts| + Pending(v) + Meals(v, dirs)
    ensures |Run(v, dirs).parts| >= |v.parts|
    decreases |dirs|
  {
    if dirs != [] {
      var next := SnakeStep(v, dirs[0]);
      RunGrowsOncePerMeal(next, dirs[1..]);
      StepChecks(v, dirs[0]);
    }
  }

  /** `n` steps without direction input. */
  function Straight(n: nat): (dirs: seq<Option<MoveDirection>>)
    ensures |dirs| == n && forall i :: 0 <= i < n ==> dirs[i] == None
  {
    if n == 0 then [] else [None] + Straight(n - 1)
  }

  /** A lone head moving right with no input and no food on its row crosses
      the row cell by cell and stays alive while it remains in the interior. */
  lemma {:induction false} LoneHeadCrossesRow(v: GameView, n: nat)
    requires |v.parts| == 1 && v.parts[0].part == Head && v.parts[0].direction == Right
    requires !v.ate && !v.gameOver
    requires InInterior(v.parts[0].position, v.width, v.height)
    requires v.parts[0].position.x + n <= v.width - 2
    requires v.foodPosition.y != v.parts[0].position.y
    ensures var r := Run(v, Straight(n));
      r.parts == [v.parts[0].(position := Block(v.parts[0].position.x + n, v.parts[0].position.y))] &&
      !r.gameOver && !r.ate && r.width == v.width && r.height == v.height && r.foodPosition == v.foodPosition
    decreases n
  {
    if n > 0 {
      var next := SnakeStep(v, None);
      assert next.parts == [v.parts[0].(position := Block(v.parts[0].position.x + 1, v.parts[0].position.y))];
      assert Straight(n)[1..] == Straight(n - 1);
      LoneHeadCrossesRow(next, n - 1);
    }
  }

  /** On a board `width` cells wide, a lone head
      starting at (1, y) and moving right reaches x = width - 2 after
      width - 3 steps and is still playing; the next step takes it onto the
      border at x = width - 1 and ends the game. */
  lemma RightWallEndsGame(width: int, height: int, y: int)
    requires width >= 3 && 1 <= y <= height - 2
    ensures var v := NewGame(width, height).(parts := [Segment(Head, Block(1, y), Right)]);
      var r := Run(v, Straight(width - 3));
      r.parts[0].position == Block(width - 2, y) && !r.gameOver && SnakeStep(r, None).gameOver
  {
    var v := NewGame(width, height).(parts := [Segment(Head, Block(1, y), Right)]);
    LoneHeadCrossesRow(v, width - 3);
    var r := Run(v, Straight(width - 3));
    assert SnakeStep(r, None).parts[0].position == Block(width - 1, y);
  }

  /** The index of the first draw that `is_inside` rejects not, or |draws|
      when it rejects them all. */
  function FirstFree(s: seq<Segment>, draws: seq<Block>): (k: nat)
    ensures k <= |draws|
    ensures forall j :: 0 <= j < k ==> CoversButLast(s, draws[j])
    ensures k < |draws| ==> !CoversButLast(s, draws[k])
    decreases |draws|
  {
    if draws == [] then 0
    else if !CoversButLast(s, draws[0]) then 0
    else 1 + FirstFree(s, draws[1..])
  }

  /** State after `spawn_food` given the draws: food at the first draw that
      `is_inside` accepts; when none is accepted the state is unchanged. */
  function Spawned(v: GameView, draws: seq<Block>): (r: GameView)
    ensures r.(foodExists := v.foodExists, foodPosition := v.foodPosition) == v
    ensures (exists j :: 0 <= j < |draws| && !CoversButLast(v.parts, draws[j])) ==>
      r.foodExists && r.foodPosition in draws && !CoversButLast(v.parts, r.foodPosition)
    ensures FirstFree(v.parts, draws) < |draws| ==> r.foodPosition == draws[FirstFree(v.parts, draws)]
    ensures (forall j :: 0 <= j < |draws| ==> CoversButLast(v.parts, draws[j])) ==> r == v
  {
    var k := FirstFree(v.parts, draws);
    if k < |draws| then v.(foodPosition := draws[k], foodExists := true) else v
  }

  /** State after `restart` given the draws: a fresh `init` chain, game
      resumed, timer zeroed and food at the first draw, since a lone head
      rejects no cell. The pending-growth flag is left as it was. */
  function Restarted(v: GameView, draws: seq<Block>): (r: GameView)
    ensures r.parts == [InitialHead] && !r.gameOver && r.waitingTime == 0
    ensures r.width == v.width && r.height == v.height && r.ate == v.ate
    ensures r.foodExists <==> |draws| > 0
    ensures |draws| > 0 ==> r.foodPosition == draws[0]
  {
    var reset := v.(parts := [InitialHead], foodExists := false, gameOver := false,
                    waitingTime := 0, foodPosition := Block(0, 0));
    LoneHeadCoversNothing(reset.parts, if |draws| > 0 then draws[0] else Block(0, 0));
    Spawned(reset, draws)
  }

  /** Food can land on the tail: when the first draw is the last segment's
      cell and no earlier segment is there, `spawn_food` accepts it. */
  lemma FoodMayLandOnTail(v: GameView, draws: seq<Block>)
    requires WellFormed(v.parts) && |draws| > 0 && draws[0] == v.parts[|v.parts| - 1].position
    requires forall i :: 0 <= i < |v.parts| - 1 ==> v.parts[i].position != draws[0]
    ensures Spawned(v, draws).foodExists
    ensures Spawned(v, draws).foodPosition == v.parts[|v.parts| - 1].position
  {
    assert !CoversButLast(v.parts, draws[0]);
  }

  /** The running half of `update` before food is spawned: the timer
      accumulates, and past the movement period one step runs and the timer
      restarts from zero. */
  function Moved(v: GameView, delta: int, dir: Option<MoveDirection>): (r: GameView)
    requires WellFormed(v.parts)
    ensures WellFormed(r.parts)
    ensures r.width == v.width && r.height == v.height && (v.gameOver ==> r.gameOver)
    ensures v.waitingTime + delta <= MovingPeriod ==> r == v.(waitingTime := v.waitingTime + delta)
    ensures v.waitingTime + delta > MovingPeriod ==>
      r.waitingTime == 0 && |r.parts| == |v.parts| + Pending(v) &&
      r.parts[0].position == Step(v.parts[0].position, r.parts[0].direction)
  {
    if v.waitingTime + delta > MovingPeriod then
      StepMovesChain(v, dir);
      SnakeStep(v, dir).(waitingTime := 0)
    else v.(waitingTime := v.waitingTime + delta)
  }

  /** State after `update(delta, dir)`. */
  function Tick(v: GameView, delta: int, dir: Option<MoveDirection>, draws: seq<Block>): (r: GameView)
    requires WellFormed(v.parts)
    ensures WellFormed(r.parts)
    ensures r.width == v.width && r.height == v.height
  {
    var waited := v.(waitingTime := v.waitingTime + delta);
    if waited.gameOver then
      var longer := waited.(waitingTime := waited.waitingTime + GameOverIncrement);
      if longer.waitingTime > RestartTime then Restarted(longer, draws) else longer
    else
      var moved := Moved(v, delta, dir);
      if !moved.foodExists then Spawned(moved, draws) else moved
  }

  /** While the game is over, `update` only counts time until the total
      passes the restart delay, and then restarts. */
  lemma TickWhileOver(v: GameView, delta: int, dir: Option<MoveDirection>, draws: seq<Block>)
    requires WellFormed(v.parts) && v.gameOver
    ensures var r := Tick(v, delta, dir, draws); var waited := v.waitingTime + delta + GameOverIncrement;
      (waited > RestartTime ==> r == Restarted(v, draws)) &&
      (waited <= RestartTime ==> r == v.(waitingTime := waited) && r.gameOver)
  {
  }

  /** While the game runs, `update` leaves food on the board unless the
      draws supplied were all rejected after the step. */
  lemma TickWhileRunning(v: GameView, delta: int, dir: Option<MoveDirection>, draws: seq<Block>)
    requires WellFormed(v.parts) && !v.gameOver
    ensures var r := Tick(v, delta, dir, draws); var moved := Moved(v, delta, dir);
      r.foodExists <==>
        moved.foodExists || exists j :: 0 <= j < |draws| && !CoversButLast(moved.parts, draws[j])
  {
  }

  class Game {
    var snake: SnakePart
    var foodExists: bool
    var foodPosition: Block
    var width: int
    var height: int
    var gameOver: bool
    var waitingTime: int
    var ate: bool

    ghost predicate Valid()
      reads this`snake, snake
    {
      snake.Valid()
    }

    ghost function View(): GameView
      reads this, snake
    {
      GameView(snake.parts, foodExists, foodPosition, width, height, gameOver, waitingTime, ate)
    }

    /** `new(width, height)`. */
    constructor (width: int, height: int)
      ensures Valid() && fresh(snake)
      ensures View() == NewGame(width, height)
    {
      snake := new SnakePart.Init();
      foodExists := false;
      foodPosition := Block(0, 0);
      this.width := width;
      this.height := height;
      gameOver := false;
      waitingTime := 0;
      ate := false;
    }

    /** Draws cells until `is_inside` accepts one and puts the food there.
        `placed` is false when every supplied draw was rejected; the source
        would go on drawing. */
    method SpawnFood(draws: seq<Block>) returns (placed: bool)
      requires Valid()
      requires width >= 3 && height >= 3 && DrawsInInterior(draws, width, height)
      modifies this
      ensures Valid() && snake == old(snake)
      ensures View() == Spawned(old(View()), draws)
      ensures placed <==> exists j :: 0 <= j < |draws| && !CoversButLast(snake.parts, draws[j])
      ensures placed ==> foodExists && InInterior(foodPosition, width, height) && !CoversButLast(snake.parts, foodPosition)
    {
      if |draws| == 0 {
        return false;
      }
      var i := 0;
      var food := draws[0];
      var inside := snake.IsInside(food.x, food.y);
      while inside
        invariant 0 <= i < |draws| && food == draws[i]
        invariant inside == CoversButLast(snake.parts, food)
        invariant forall j :: 0 <= j < i ==> CoversButLast(snake.parts, draws[j])
        modifies {}
        decreases |draws| - i
      {
        if i + 1 == |draws| {
          return false;
        }
        i := i + 1;
        food := draws[i];
        inside := snake.IsInside(food.x, food.y);
      }
      foodPosition := food;
      foodExists := true;
      placed := true;
    }

    /** Turns the head to the key's direction unless the key is not a
        direction key or would reverse the snake. */
    method UserInput(key: Key)
      requires Valid()
      modifies snake
      ensures Valid()
      ensures View() == Steer(old(View()), key)
    {
      var dir := KeyDirection(key);
      if dir.None? {
        return;
      }
      if dir.value == snake.parts[0].direction.Opposite() {
        return;
      }
      snake.parts := snake.parts[0 := snake.parts[0].(direction := dir.value)];
    }

    /** Per-frame entry point. */
    method Update(delta: int, dir: Option<MoveDirection>, draws: seq<Block>)
      requires Valid()
      requires width >= 3 && height >= 3 && DrawsInInterior(draws, width, height)
      modifies this, snake
      ensures Valid()
      ensures View() == Tick(old(View()), delta, dir, draws)
    {
      if gameOver {
        waitingTime := waitingTime + delta + GameOverIncrement;
        if waitingTime > RestartTime {
          ghost var longer := View();
          var placed := Restart(draws);
          assert View() == Restarted(longer, draws);
        }
      } else {
        StepWhenDue(delta, dir);
        ghost var moved := View();
        if !foodExists {
          var placed := SpawnFood(draws);
          assert View() == Spawned(moved, draws);
        }
      }
    }

    /** The timer half of a running `update`: count time, and once the
        movement period has passed take one step and restart the timer. */
    method StepWhenDue(delta: int, dir: Option<MoveDirection>)
      requires Valid()
      modifies this, snake
      ensures Valid() && snake == old(snake)
      ensures View() == Moved(old(View()), delta, dir)
    {
      ghost var before := View();
      waitingTime := waitingTime + delta;
      if waitingTime > MovingPeriod {
        ghost var waited := View();
        assert waited == before.(waitingTime := waited.waitingTime);
        UpdateSnake(dir);
        waitingTime := 0;
        StepIgnoresTimer(before, dir, waited.waitingTime);
        assert View() == SnakeStep(before, dir).(waitingTime := 0);
      }
    }

    /** Starts over on the same board with a new `init` chain and new food. */
    method Restart(draws: seq<Block>) returns (placed: bool)
      requires Valid()
      requires width >= 3 && height >= 3 && DrawsInInterior(draws, width, height)
      modifies this
      ensures Valid() && fresh(snake)
      ensures View() == Restarted(old(View()), draws)
      ensures placed <==> |draws| > 0
    {
      snake := new SnakePart.Init();
      foodExists := false;
      gameOver := false;
      waitingTime := 0;
      foodPosition := Block(0, 0);
      placed := SpawnFood(draws);
    }

    /** One movement step: move the chain, add the pending segment, then
        check the new head. */
    method UpdateSnake(dir: Option<MoveDirection>)
      requires Valid()
      modifies this, snake
      ensures Valid() && snake == old(snake)
      ensures View() == SnakeStep(old(View()), dir)
    {
      ghost var before := View();
      var (headX, headY) := snake.Position();
      snake.MoveForward(dir);
      if ate {
        snake.AddPart(headX, headY);
        ate := false;
      }
      assert View() == AfterGrowth(before, dir);
      CheckHead();
    }

    /** The checks `update_snake` runs on the new head once the chain has
        moved: leaving the interior or hitting the tail ends the game, and
        landing on the food eats it. */
    method CheckHead()
      requires Valid()
      modifies this
      ensures Valid() && snake == old(snake)
      ensures View() == OverlapCheck(FoodCheck(BoundsCheck(old(View()))))
    {
      var (newX, newY) := snake.Position();
      if newX < 1 || newX > width - 2 || newY < 1 || newY > height - 2 {
        gameOver := true;
      }
      if newX == foodPosition.x && newY == foodPosition.y {
        ate := true;
        foodExists := false;
      }
      var overlap := snake.OverlapTail(newX, newY);
      if overlap {
        gameOver := true;
      }
    }
  }
}
