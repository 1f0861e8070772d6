/** The simulation engine: the invariant every reachable game state keeps,
    and the tick transition that advances the snake by one cell. */
module Engine {
  import opened Types
  import opened Constants
  import opened Board

  function Max(a: int, b: int): (m: int)
    ensures m >= a && m >= b && (m == a || m == b)
  {
    if a >= b then a else b
  }

  /** The tick interval after an item is eaten: one decrement faster, but
      never below the floor. */
  function Accelerate(speed: int): (r: int)
    ensures r >= MIN_SPEED
    ensures speed >= MIN_SPEED ==> r <= speed
    ensures speed > MIN_SPEED ==> r < speed
    ensures r == MIN_SPEED || r == speed - SPEED_DECREMENT
    ensures r >= speed - SPEED_DECREMENT
  {
    Max(MIN_SPEED, speed - SPEED_DECREMENT)
  }

  /** The cell the head moves to on the next tick. */
  function NewHead(s: GameState): Point
    requires |s.snake| > 0
  {
    Move(s.snake[0], s.nextDirection)
  }

  /** The next tick ends the game: the new head leaves the board or lands on
      any cell of the snake as it is before the move, the tail included even
      though the tail would move away on this tick. */
  predicate Collides(s: GameState)
    requires |s.snake| > 0
  {
    !InBounds(NewHead(s)) || NewHead(s) in s.snake
  }

  /** The next tick eats the food. */
  predicate Eats(s: GameState)
    requires |s.snake| > 0
  {
    !Collides(s) && NewHead(s) == s.food
  }

  /** What a tick needs of the state: a head to move when playing, and room
      left for new food when the move eats (food placement would otherwise
      search forever). */
  predicate CanStep(s: GameState)
  {
    s.status == Playing ==>
      |s.snake| > 0 && (Eats(s) ==> |s.snake| + 1 < AREA)
  }

  /** One tick of the game. `draw` is the random source food placement
      consumes when the snake eats. */
  function GameStep(s: GameState, draw: nat): (r: GameState)
    requires CanStep(s)
    // not playing: nothing happens
    ensures s.status != Playing ==> r == s
    // collision: the game ends, the high score absorbs the score, nothing else changes
    ensures s.status == Playing && Collides(s) ==>
      && r.status == GameOver
      && r.highScore == Max(s.score, s.highScore)
      && r.(status := s.status, highScore := s.highScore) == s
    // any move: the new head leads, the buffered direction is committed
    ensures s.status == Playing && !Collides(s) ==>
      && |r.snake| > 0 && r.snake[0] == NewHead(s)
      && r.direction == s.nextDirection
      && r.status == Playing
      && r.nextDirection == s.nextDirection && r.highScore == s.highScore
      && r.difficulty == s.difficulty
    // plain move: every other segment takes the place of the one ahead of it
    ensures s.status == Playing && !Collides(s) && !Eats(s) ==>
      && |r.snake| == |s.snake|
      && (forall i :: 1 <= i < |r.snake| ==> r.snake[i] == s.snake[i - 1])
      && r.food == s.food && r.score == s.score && r.speed == s.speed
    // eating: the snake grows by the new head, scores and speeds up, food moves to a free cell
    ensures s.status == Playing && Eats(s) ==>
      && |r.snake| == |s.snake| + 1
      && r.snake[1..] == s.snake
      && r.score == s.score + Points(s.difficulty)
      && r.speed == Accelerate(s.speed)
      && InBounds(r.food) && r.food !in r.snake
  {
    if s.status != Playing then s
    else if Collides(s) then
      s.(status := GameOver, highScore := Max(s.score, s.highScore))
    else
      var grown := [NewHead(s)] + s.snake;
      if NewHead(s) == s.food then
        FreeCellExists(grown);
        s.(snake := grown,
           food := GenerateFood(grown, draw),
           score := s.score + Points(s.difficulty),
           speed := Accelerate(s.speed),
           direction := s.nextDirection)
      else
        s.(snake := grown[..|grown| - 1], direction := s.nextDirection)
  }

  /** The invariant of every state the game can reach. */
  predicate Valid(s: GameState)
  {
    && |s.snake| > 0
    && AllInBounds(s.snake)
    && Distinct(s.snake)
    && InBounds(s.food) && s.food !in s.snake
    && MIN_SPEED <= s.speed <= BaseSpeed(s.difficulty)
    && s.nextDirection != Opposite(s.direction)
    && s.score >= 0
    // the head was reached from the neck by a step in the committed direction
    && (|s.snake| > 1 ==> Move(s.snake[1], s.direction) == s.snake[0])
  }

  /** A fresh run on the session's high score and difficulty, in `status`:
      the initial snake and food, speed reset to the difficulty's base. */
  function NewRun(highScore: int, difficulty: Difficulty, status: GameStatus): GameState
  {
    InitialState(highScore).(difficulty := difficulty, speed := BaseSpeed(difficulty), status := status)
  }

  lemma InitialStateValid(highScore: int)
    ensures Valid(InitialState(highScore))
    ensures InitialState(highScore).status == Idle && InitialState(highScore).score == 0
    ensures InitialState(highScore).speed == BaseSpeed(InitialState(highScore).difficulty)
  {
    InitialLayout();
  }

  lemma NewRunValid(highScore: int, difficulty: Difficulty, status: GameStatus)
    ensures Valid(NewRun(highScore, difficulty, status))
  {
    InitialLayout();
  }

  /** A tick keeps the invariant, whatever food is drawn. */
  lemma StepPreservesValid(s: GameState, draw: nat)
    requires Valid(s) && CanStep(s)
    ensures Valid(GameStep(s, draw))
  {
    if s.status == Playing && !Collides(s) {
      var r := GameStep(s, draw);
      assert r.snake[0] == NewHead(s) && NewHead(s) !in s.snake;
      assert |r.snake| > 1 ==> r.snake[1] == s.snake[0];
      if !Eats(s) {
        assert r.snake == [NewHead(s)] + s.snake[..|s.snake| - 1];
      }
    }
  }

  /** Across a tick the score and high score never go down and the tick
      interval never goes up. */
  lemma StepMonotone(s: GameState, draw: nat)
    requires Valid(s) && CanStep(s)
    ensures GameStep(s, draw).score >= s.score
    ensures GameStep(s, draw).highScore >= s.highScore
    ensures GameStep(s, draw).speed <= s.speed
    ensures GameStep(s, draw).difficulty == s.difficulty
  {
  }

  /** The buffered direction never points back into the neck, so a tick can
      never turn the snake around onto itself. */
  lemma NoReversalIntoNeck(s: GameState)
    requires Valid(s) && |s.snake| > 1
    ensures NewHead(s) != s.snake[1]
  {
    DeltaGeometry(s.direction, s.nextDirection);
  }

  /** Moving into the cell the tail is about to leave still ends the game. */
  lemma TailChaseIsFatal()
    ensures
      var s := GameState([Point(1, 1), Point(1, 0), Point(0, 0), Point(0, 1)], Point(5, 5),
                         Down, Left, 7, 3, Playing, 100, Medium);
      && Valid(s) && CanStep(s)
      && NewHead(s) == s.snake[|s.snake| - 1]
      && GameStep(s, 0).status == GameOver
      && GameStep(s, 0).highScore == 7
  {
  }

  /** From the initial layout, one tick upwards moves every segment up one row. */
  lemma FirstTickMovesUp(highScore: int)
    ensures
      var s := InitialState(highScore).(status := Playing);
      && GameStep(s, 0).snake == [Point(10, 9), Point(10, 10), Point(10, 11)]
      && GameStep(s, 0).score == 0 && GameStep(s, 0).status == Playing
  {
  }

  /** Heading up from the top row hits the wall: the game ends and the high
      score absorbs the score. */
  lemma WallHitEndsGame()
    ensures
      var s := GameState([Point(4, 0), Point(4, 1)], Point(5, 5), Up, Up, 6, 2, Playing, 90, Easy);
      && Valid(s) && Collides(s)
      && GameStep(s, 0).status == GameOver && GameStep(s, 0).highScore == 6
      && GameStep(s, 0).snake == s.snake
  {
  }

  /** Eating the food straight ahead of the initial layout grows the snake,
      scores the difficulty's points and takes one decrement off the interval. */
  lemma FirstBiteGrows(draw: nat)
    ensures
      var s := InitialState(0).(status := Playing, food := Point(10, 9));
      && Eats(s) && CanStep(s)
      && |GameStep(s, draw).snake| == 4
      && GameStep(s, draw).score == Points(Medium)
      && GameStep(s, draw).speed == BaseSpeed(Medium) - SPEED_DECREMENT
      && GameStep(s, draw).food !in GameStep(s, draw).snake
  {
  }
}
