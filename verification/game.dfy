/** The game session: the panel that owns the snake and the food, runs one
    update per timer tick while playing, ends the game on a collision, and
    restarts on SPACE. Painting, particles and sound are not part of it. */
module Game {
  import opened Geometry
  import opened SnakeModel
  import opened FoodModel

  /** The panel is 800 x 600 pixels of 20-pixel cells: 40 x 30 cells. */
  const PanelWidth := 800
  const PanelHeight := 600
  const UnitSize := 20

  /** The states the game actually enters; the menu and pause states are never used. */
  datatype GameState = Playing | GameOver

  /** Key codes of `java.awt.event.KeyEvent`. */
  const VkSpace := 32
  const VkLeft := 37
  const VkUp := 38
  const VkRight := 39
  const VkDown := 40
  const VkA := 65
  const VkD := 68
  const VkS := 83
  const VkW := 87

  datatype Option<T> = None | Some(value: T)

  /** The heading a key asks for: arrows and W/A/S/D; every other key asks for none. */
  function KeyDirection(keyCode: int): (r: Option<Direction>)
    ensures r.Some? ==> keyCode != VkSpace
  {
    if keyCode == VkLeft || keyCode == VkA then Some(Left)
    else if keyCode == VkRight || keyCode == VkD then Some(Right)
    else if keyCode == VkUp || keyCode == VkW then Some(Up)
    else if keyCode == VkDown || keyCode == VkS then Some(Down)
    else None
  }

  /** Exactly the eight movement keys ask for a heading, each pair for its own. */
  lemma KeyDirectionKeys(keyCode: int)
    ensures KeyDirection(keyCode) == Some(Left) <==> keyCode in {VkLeft, VkA}
    ensures KeyDirection(keyCode) == Some(Right) <==> keyCode in {VkRight, VkD}
    ensures KeyDirection(keyCode) == Some(Up) <==> keyCode in {VkUp, VkW}
    ensures KeyDirection(keyCode) == Some(Down) <==> keyCode in {VkDown, VkS}
    ensures KeyDirection(keyCode) == None <==> keyCode !in {VkLeft, VkA, VkRight, VkD, VkUp, VkW, VkDown, VkS}
  {
  }

  /** The state of a session: the snake's body, heading and target length,
      the food cell, the number of values the food's random generator has
      drawn, the score, and the running flag and game state. */
  datatype Session = Session(body: seq<Point>, direction: Direction, target: int, food: Point,
                             drawn: nat, score: int, running: bool, state: GameState)

  /** What holds throughout a session: the body is between 3 segments and its
      target length, every point scored is one segment of growth, the game
      runs exactly while playing, and the food is on a grid cell. */
  predicate Inv(s: Session) {
    && InitialLength <= |s.body| <= s.target
    && s.score == s.target - InitialLength
    && (s.running <==> s.state == Playing)
    && OnGrid(s.food, UnitSize, PanelWidth, PanelHeight)
  }

  /** A new session: a fresh snake, food drawn from a fresh random stream
      without regard to the snake, score 0, running and playing. */
  function Initial(oracle: nat -> nat): (r: Session)
    ensures |r.body| == r.target == InitialLength && r.score == 0
    ensures r.running && r.state == Playing && r.direction == Right
  {
    Session(InitialBody(UnitSize), Right, InitialLength, RandomCell(oracle, 0, UnitSize, PanelWidth, PanelHeight),
            2, 0, true, Playing)
  }

  /** The move step of an update: the snake advances one unit along its heading. */
  function Move(s: Session): (r: Session)
    requires |s.body| >= 1
    ensures |s.body| <= |r.body|
  {
    s.(body := Advance(s.body, s.direction, UnitSize, s.target))
  }

  /** The food step of an update: when the head is on the food, a point is
      scored, the snake is set to grow by one, and the food is redrawn off the
      body; otherwise nothing changes. */
  function Eat(s: Session, oracle: nat -> nat): (r: Session)
    requires |s.body| >= 1
    ensures r.body == s.body
  {
    if s.body[0] == s.food then
      var placed := Place(s.body, oracle, s.drawn, UnitSize, PanelWidth, PanelHeight);
      s.(score := s.score + 1, target := s.target + 1, food := placed.pos, drawn := placed.drawn)
    else
      s
  }

  /** The collision step of an update: the game ends when the head is out of
      the panel or on the body. */
  function EndOnCollision(s: Session): (r: Session)
    requires |s.body| >= 1
    ensures r.body == s.body
  {
    if !InPanel(s.body[0], PanelWidth, PanelHeight) || HitsSelf(s.body) then
      s.(state := GameOver, running := false)
    else
      s
  }

  /** One update: move, then eat, then end the game on a collision. */
  function Update(s: Session, oracle: nat -> nat): (r: Session)
    requires |s.body| >= 1
    ensures |s.body| <= |r.body|
  {
    EndOnCollision(Eat(Move(s), oracle))
  }

  /** A timer tick: an update while running and playing, nothing otherwise. */
  function Tick(s: Session, oracle: nat -> nat): (r: Session)
    requires |s.body| >= 1
    ensures |s.body| <= |r.body|
  {
    if s.running && s.state == Playing then Update(s, oracle) else s
  }

  /** `n` timer ticks. */
  function Run(s: Session, oracle: nat -> nat, n: nat): (r: Session)
    requires |s.body| >= 1
    ensures |s.body| <= |r.body|
    decreases n
  {
    if n == 0 then s else Run(Tick(s, oracle), oracle, n - 1)
  }

  /** A key press: a movement key steers while playing, SPACE restarts with a
      fresh random stream once the game is over, anything else does nothing. */
  function Key(s: Session, keyCode: int, restartOracle: nat -> nat): (r: Session)
    ensures || r == Initial(restartOracle)
            || (r.body == s.body && r.food == s.food && r.score == s.score && r.state == s.state)
  {
    match s.state
    case Playing =>
      (match KeyDirection(keyCode)
       case Some(d) => s.(direction := Turned(s.direction, d))
       case None => s)
    case GameOver =>
      if keyCode == VkSpace then Initial(restartOracle) else s
  }

  lemma PanelHasCells()
    ensures Panel(UnitSize, PanelWidth, PanelHeight)
    ensures PanelWidth / UnitSize == 40 && PanelHeight / UnitSize == 30
  {
  }

  /** A new session satisfies the invariant, and its snake does not collide. */
  lemma InitialInv(oracle: nat -> nat)
    ensures Inv(Initial(oracle))
    ensures !HitsSelf(Initial(oracle).body) && InPanel(Initial(oracle).body[0], PanelWidth, PanelHeight)
  {
    PanelHasCells();
    RandomCellOnGrid(oracle, 0, UnitSize, PanelWidth, PanelHeight);
    InitialBodySelfCollision(UnitSize);
  }

  /** Moving keeps the invariant: the body stays between 3 segments and its target. */
  lemma MoveInv(s: Session)
    requires Inv(s)
    ensures Inv(Move(s))
  {
    AdvanceShape(s.body, s.direction, UnitSize, s.target);
  }

  /** Eating keeps the invariant: the score and the target rise together, and
      the redrawn food is on the grid. */
  lemma EatInv(s: Session, oracle: nat -> nat)
    requires Inv(s)
    ensures Inv(Eat(s, oracle))
  {
    PanelHasCells();
    if s.body[0] == s.food {
      PlaceFromOnGrid(s.body, oracle, s.drawn, 0, UnitSize, PanelWidth, PanelHeight);
    }
  }

  /** Ending the game keeps the invariant: running and the state change together. */
  lemma EndOnCollisionInv(s: Session)
    requires Inv(s)
    ensures Inv(EndOnCollision(s))
    ensures EndOnCollision(s).state == GameOver <==> s.state == GameOver || !InPanel(s.body[0], PanelWidth, PanelHeight) || HitsSelf(s.body)
  {
  }

  /** An update keeps the invariant. */
  lemma UpdateInv(s: Session, oracle: nat -> nat)
    requires Inv(s)
    ensures Inv(Update(s, oracle))
  {
    MoveInv(s);
    EatInv(Move(s), oracle);
    EndOnCollisionInv(Eat(Move(s), oracle));
  }

  /** The first food is drawn without looking at the snake, so it may lie on
      the fresh body: a stream of zeros puts it on the tail at the origin. */
  lemma InitialFoodMayOverlap()
    ensures Initial(Zeros).food in Initial(Zeros).body
  {
    PanelHasCells();
    assert Initial(Zeros).food == Point(0, 0);
    assert Initial(Zeros).body[2] == Point(0, 0);
  }

  /** Order within an update: the game ends exactly when the MOVED head is out
      of the panel or on the moved body (after the tail was dropped); a point
      is scored exactly when the moved head is on the old food, and then the
      new food, when its placement was checked, avoids the moved body. */
  lemma UpdateOrder(s: Session, oracle: nat -> nat)
    requires Inv(s) && s.state == Playing
    ensures var moved := Advance(s.body, s.direction, UnitSize, s.target);
      var r := Update(s, oracle);
      && r.body == moved
      && (r.state == GameOver <==> !InPanel(moved[0], PanelWidth, PanelHeight) || HitsSelf(moved))
      && (r.score == s.score + 1 <==> moved[0] == s.food)
      && (r.score == s.score ==> r.food == s.food && r.drawn == s.drawn)
      && (r.score == s.score + 1 && Place(moved, oracle, s.drawn, UnitSize, PanelWidth, PanelHeight).valid ==>
            r.food !in r.body)
  {
    PanelHasCells();
    var moved := Advance(s.body, s.direction, UnitSize, s.target);
    if moved[0] == s.food && Place(moved, oracle, s.drawn, UnitSize, PanelWidth, PanelHeight).valid {
      PlaceFromValidIsFree(moved, oracle, s.drawn, 0, UnitSize, PanelWidth, PanelHeight);
    }
  }

  /** A tick keeps the invariant and never lowers the score: it adds at most one point. */
  lemma TickInv(s: Session, oracle: nat -> nat)
    requires Inv(s)
    ensures Inv(Tick(s, oracle))
    ensures s.score <= Tick(s, oracle).score <= s.score + 1
  {
    if s.running && s.state == Playing {
      UpdateInv(s, oracle);
    }
  }

  /** Once the game is over, ticks change nothing: snake, food and score stay
      frozen until a restart. */
  lemma {:induction false} GameOverIsFrozen(s: Session, oracle: nat -> nat, n: nat)
    requires Inv(s) && s.state == GameOver
    ensures Run(s, oracle, n) == s
    decreases n
  {
    if n > 0 {
      assert Tick(s, oracle) == s;
      GameOverIsFrozen(s, oracle, n - 1);
    }
  }

  /** Over any number of ticks the invariant holds, the score never decreases,
      and a game that is over stays over. */
  lemma {:induction false} RunInv(s: Session, oracle: nat -> nat, n: nat)
    requires Inv(s)
    ensures Inv(Run(s, oracle, n))
    ensures s.score <= Run(s, oracle, n).score
    ensures s.state == GameOver ==> Run(s, oracle, n).state == GameOver
    decreases n
  {
    if n > 0 {
      TickInv(s, oracle);
      RunInv(Tick(s, oracle), oracle, n - 1);
    }
  }

  /** A key press keeps the invariant; only SPACE after the game is over
      touches anything but the heading, and it resets the score to 0. */
  lemma KeyInv(s: Session, keyCode: int, restartOracle: nat -> nat)
    requires Inv(s)
    ensures var r := Key(s, keyCode, restartOracle);
      && Inv(r)
      && (s.state == GameOver && keyCode == VkSpace ==> r == Initial(restartOracle))
      && (s.state == GameOver && keyCode != VkSpace ==> r == s)
      && (s.state == Playing ==> r == s.(direction := r.direction))
      && (s.state == Playing && KeyDirection(keyCode).None? ==> r == s)
  {
    if s.state == GameOver && keyCode == VkSpace {
      InitialInv(restartOracle);
    }
  }

  /** The first tick of a new game, food elsewhere: the snake moves one cell
      right keeping its length, nothing collides, no point is scored. */
  lemma FirstTick(oracle: nat -> nat)
    requires Initial(oracle).food != Point(60, 0)
    ensures var r := Tick(Initial(oracle), oracle);
      && r.body == [Point(60, 0), Point(40, 0), Point(20, 0)]
      && r.state == Playing && r.score == 0 && r.target == 3
  {
    var moved := Advance(Initial(oracle).body, Right, UnitSize, 3);
    assert moved == [Point(60, 0), Point(40, 0), Point(20, 0)];
    assert !HitsSelf(moved);
  }

  /** Eating on the first tick scores 1 but keeps the length at 3 for that
      tick; the next tick grows the snake to 4 segments. */
  lemma EatThenGrow(oracle: nat -> nat)
    requires Initial(oracle).food == Point(60, 0)
    ensures var s1 := Tick(Initial(oracle), oracle);
      var s2 := Tick(s1, oracle);
      && s1.score == 1 && |s1.body| == 3 && s1.target == 4 && s1.state == Playing
      && |s2.body| == 4 && s2.body[0] == Point(80, 0) && s2.state == Playing
  {
    var s0 := Initial(oracle);
    InitialInv(oracle);
    var moved := Advance(s0.body, Right, UnitSize, 3);
    assert moved == [Point(60, 0), Point(40, 0), Point(20, 0)];
    assert !HitsSelf(moved);
    UpdateOrder(s0, oracle);
    UpdateInv(s0, oracle);
    var s1 := Update(s0, oracle);
    assert s1.body == moved && s1.score == 1 && s1.state == Playing;
    var moved2 := Advance(moved, Right, UnitSize, 4);
    AdvanceShape(moved, Right, UnitSize, 4);
    assert moved2[1..] == moved && moved2[0] == Point(80, 0);
    assert !HitsSelf(moved2);
    UpdateOrder(s1, oracle);
  }

  /** The panel: owns the snake and the food and runs the session. */
  class GamePanel {
    var snake: Snake
    var food: Food
    var gameState: GameState
    var score: int
    var running: bool

    ghost function State(): Session
      reads this, snake, food, food.random
    {
      Session(snake.body, snake.direction, snake.bodyPartsCount, Point(food.x, food.y),
              food.random.drawn, score, running, gameState)
    }

    ghost predicate Valid()
      reads this, snake, food, food.random
    {
      && snake.Valid() && food.Valid()
      && snake.unitSize == UnitSize
      && food.unitSize == UnitSize && food.panelWidth == PanelWidth && food.panelHeight == PanelHeight
      && Inv(State())
    }

    /** Builds the game (`initializeGame`) and starts it (`startGame`); the
        food's random generator draws from `oracle`. */
    constructor (oracle: nat -> nat)
      ensures Valid() && State() == Initial(oracle)
      ensures fresh(snake) && fresh(food) && fresh(food.random) && food.random.oracle == oracle
    {
      PanelHasCells();
      snake := new Snake(UnitSize);
      food := new Food(UnitSize, PanelWidth, PanelHeight, oracle);
      gameState := Playing;
      score := 0;
      running := true;  // initializeGame clears it and startGame sets it
      new;
      InitialInv(oracle);
    }

    /** A timer tick: updates the game only while running and playing. */
    method ActionPerformed()
      requires Valid()
      modifies this, snake, food, food.random
      ensures Valid() && snake == old(snake) && food == old(food)
      ensures State() == Tick(old(State()), food.random.oracle)
    {
      if running && gameState == Playing {
        UpdateGame();
      }
    }

    /** One update of the game logic: move the snake, eat, then check for collisions. */
    method UpdateGame()
      requires Valid() && running && gameState == Playing
      modifies this, snake, food, food.random
      ensures Valid() && snake == old(snake) && food == old(food)
      ensures State() == Update(old(State()), food.random.oracle)
    {
      MoveInv(State());
      snake.Update();
      EatFood();
      CheckCollisions();
    }

    /** The food step of `updateGame`: on the food, score, grow and redraw the food. */
    method EatFood()
      requires Valid()
      modifies this, snake, food, food.random
      ensures Valid() && snake == old(snake) && food == old(food)
      ensures State() == Eat(old(State()), food.random.oracle)
    {
      EatInv(State(), food.random.oracle);
      var p := food.Position();
      if snake.CheckFoodCollision(p.x, p.y) {
        score := score + 1;
        snake.Grow();
        food.GenerateNewFood(snake.BodyParts());
      }
    }

    /** The collision step of `updateGame`: a wall or self collision ends the game. */
    method CheckCollisions()
      requires Valid()
      modifies this
      ensures Valid() && snake == old(snake) && food == old(food)
      ensures State() == EndOnCollision(old(State()))
    {
      EndOnCollisionInv(State());
      var over := snake.CheckWallCollision(PanelWidth, PanelHeight);
      if !over {
        over := snake.CheckSelfCollision();
      }
      if over {
        gameState := GameOver;
        running := false;
      }
    }

    /** A new snake, new food from a fresh random stream, score 0, playing. */
    method RestartGame(oracle: nat -> nat)
      modifies this
      ensures Valid() && State() == Initial(oracle)
      ensures fresh(snake) && fresh(food) && fresh(food.random) && food.random.oracle == oracle
    {
      PanelHasCells();
      snake := new Snake(UnitSize);
      food := new Food(UnitSize, PanelWidth, PanelHeight, oracle);
      score := 0;
      running := true;
      gameState := Playing;
      InitialInv(oracle);
    }

    /** Movement keys steer while playing; SPACE restarts once the game is over. */
    method KeyPressed(keyCode: int, restartOracle: nat -> nat)
      requires Valid()
      modifies this, snake
      ensures Valid()
      ensures State() == Key(old(State()), keyCode, restartOracle)
      ensures old(gameState) == GameOver && keyCode == VkSpace ==>
        fresh(snake) && fresh(food) && food.random.oracle == restartOracle
      ensures !(old(gameState) == GameOver && keyCode == VkSpace) ==> snake == old(snake) && food == old(food)
    {
      if gameState == Playing {
        if keyCode == VkLeft || keyCode == VkA {
          snake.SetDirection(Left);
        } else if keyCode == VkRight || keyCode == VkD {
          snake.SetDirection(Right);
        } else if keyCode == VkUp || keyCode == VkW {
          snake.SetDirection(Up);
        } else if keyCode == VkDown || keyCode == VkS {
          snake.SetDirection(Down);
        }
      } else if gameState == GameOver {
        if keyCode == VkSpace {
          RestartGame(restartOracle);
        }
      }
    }
  }
}
