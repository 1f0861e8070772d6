/** Player intents: the direction arbiter and the control intents (the
    Space/Enter key, the pause button, restart and the difficulty picker). */
module Input {
  import opened Types
  import opened Constants
  import opened Board
  import opened Engine

  /** `newDir` would turn the snake straight back along the committed direction. */
  predicate IsReversal(newDir: Direction, current: Direction)
  {
    || (newDir == Up && current == Down)
    || (newDir == Down && current == Up)
    || (newDir == Left && current == Right)
    || (newDir == Right && current == Left)
  }

  /** A reversal is exactly a turn to the opposite direction, the one whose
      step cancels the committed step. */
  lemma ReversalIsOpposite(newDir: Direction, current: Direction)
    ensures IsReversal(newDir, current) <==> newDir == Opposite(current)
    ensures IsReversal(newDir, current) <==>
      Delta(newDir).x + Delta(current).x == 0 && Delta(newDir).y + Delta(current).y == 0
  {
    DeltaGeometry(current, newDir);
  }

  /** A directional input. Ignored while paused or over; from idle it starts
      the game even when the direction itself is refused. A turn straight
      back along the committed direction is refused; any other direction
      replaces the buffered one, overwriting an earlier input of the same tick. */
  function HandleDirection(s: GameState, newDir: Direction): (r: GameState)
    ensures s.status == Paused || s.status == GameOver ==> r == s
    ensures s.status == Idle || s.status == Playing ==>
      && r.status == Playing
      && r.nextDirection == (if newDir == Opposite(s.direction) then s.nextDirection else newDir)
      && r.(status := s.status, nextDirection := s.nextDirection) == s
  {
    if s.status != Playing && s.status != Idle then s
    else
      var status := if s.status == Idle then Playing else s.status;
      if IsReversal(newDir, s.direction) then s.(status := status)
      else s.(nextDirection := newDir, status := status)
  }

  /** Whatever arrives between two ticks, the buffered direction is never
      the opposite of the committed one. */
  lemma HandleDirectionPreservesValid(s: GameState, newDir: Direction)
    requires Valid(s)
    ensures Valid(HandleDirection(s, newDir))
    ensures HandleDirection(s, newDir).nextDirection != Opposite(HandleDirection(s, newDir).direction)
  {
    ReversalIsOpposite(newDir, s.direction);
  }

  /** The Space/Enter key: a finished game restarts straight into play,
      play pauses, a pause resumes and an idle game starts. */
  function SpaceOrEnter(s: GameState): (r: GameState)
    ensures s.status == GameOver ==>
      && r.status == Playing && r.score == 0
      && r.highScore == s.highScore && r.difficulty == s.difficulty
      && r.speed == BaseSpeed(s.difficulty)
      && r.snake == INITIAL_SNAKE && r.food == INITIAL_FOOD
      && r.direction == Up && r.nextDirection == Up
    ensures s.status == Playing ==> r.status == Paused && r.(status := s.status) == s
    ensures s.status == Paused || s.status == Idle ==> r.status == Playing && r.(status := s.status) == s
  {
    match s.status
    case GameOver => NewRun(s.highScore, s.difficulty, Playing)
    case Playing => s.(status := Paused)
    case Paused => s.(status := Playing)
    case Idle => s.(status := Playing)
  }

  /** The pause button: the Space/Enter table without its game-over row. */
  function HandlePause(s: GameState): (r: GameState)
    ensures s.status == GameOver ==> r == s
    ensures s.status != GameOver ==> r == SpaceOrEnter(s)
  {
    match s.status
    case Playing => s.(status := Paused)
    case Paused => s.(status := Playing)
    case Idle => s.(status := Playing)
    case GameOver => s
  }

  /** Pausing and then resuming gives back exactly the state that was paused. */
  lemma PauseResumeRoundTrip(s: GameState)
    requires s.status == Playing || s.status == Paused
    ensures HandlePause(HandlePause(s)) == s
    ensures SpaceOrEnter(SpaceOrEnter(s)) == s
  {
  }

  /** The restart button, from any status: back to an idle fresh run that
      keeps the high score and the difficulty. */
  function HandleRestart(s: GameState): (r: GameState)
    ensures r.status == Idle && r.score == 0
    ensures r.highScore == s.highScore && r.difficulty == s.difficulty
    ensures r.speed == BaseSpeed(s.difficulty)
    ensures r.snake == INITIAL_SNAKE && r.food == INITIAL_FOOD
    ensures r.direction == Up && r.nextDirection == Up
  {
    NewRun(s.highScore, s.difficulty, Idle)
  }

  /** Restarting twice is restarting once, and a game restarted by the key
      is the restarted game already started. */
  lemma RestartIdempotent(s: GameState)
    ensures HandleRestart(HandleRestart(s)) == HandleRestart(s)
    ensures s.status == GameOver ==> SpaceOrEnter(s) == SpaceOrEnter(HandleRestart(s))
  {
  }

  /** Picking a difficulty: only while idle, and it resets the speed to the
      new difficulty's base. */
  function SetDifficulty(s: GameState, d: Difficulty): (r: GameState)
    ensures s.status != Idle ==> r == s
    ensures s.status == Idle ==>
      && r.difficulty == d && r.speed == BaseSpeed(d)
      && r.(difficulty := s.difficulty, speed := s.speed) == s
  {
    if s.status == Idle then s.(difficulty := d, speed := BaseSpeed(d)) else s
  }

  /** Only the last pick counts. */
  lemma LastDifficultyWins(s: GameState, a: Difficulty, b: Difficulty)
    ensures SetDifficulty(SetDifficulty(s, a), b) == SetDifficulty(s, b)
  {
  }

  /** Every control intent keeps the invariant. */
  lemma ControlsPreserveValid(s: GameState, d: Difficulty)
    requires Valid(s)
    ensures Valid(SpaceOrEnter(s))
    ensures Valid(HandlePause(s))
    ensures Valid(HandleRestart(s))
    ensures Valid(SetDifficulty(s, d))
  {
    NewRunValid(s.highScore, s.difficulty, Playing);
    NewRunValid(s.highScore, s.difficulty, Idle);
  }
}
