/** The game's fixed parameters: grid size, speed bounds, the difficulty
    table, the unit vector of each direction and the initial state. */
module Constants {
  import opened Types

  /** The board is GRID_SIZE × GRID_SIZE cells. */
  const GRID_SIZE: int := 20
  /** The fastest tick interval, in milliseconds. */
  const MIN_SPEED: int := 50
  /** How many milliseconds each eaten item takes off the tick interval. */
  const SPEED_DECREMENT: int := 2

  /** The tick interval a run on difficulty `d` starts with. */
  function BaseSpeed(d: Difficulty): (ms: int)
    ensures MIN_SPEED <= ms
  {
    match d
    case Easy => 200
    case Medium => 130
    case Hard => 80
  }

  /** The points one eaten item is worth on difficulty `d`. */
  function Points(d: Difficulty): (p: int)
    ensures p > 0
  {
    match d
    case Easy => 1
    case Medium => 2
    case Hard => 3
  }

  /** Harder difficulties pay more per item and start faster. */
  lemma DifficultyScaling()
    ensures Points(Easy) < Points(Medium) < Points(Hard)
    ensures BaseSpeed(Easy) > BaseSpeed(Medium) > BaseSpeed(Hard)
    ensures SPEED_DECREMENT > 0
  {
  }

  /** The grid offset of one step in direction `d`: a unit vector along one axis. */
  function Delta(d: Direction): (v: Point)
    ensures v.x * v.x + v.y * v.y == 1
  {
    match d
    case Up => Point(0, -1)
    case Down => Point(0, 1)
    case Left => Point(-1, 0)
    case Right => Point(1, 0)
  }

  function Opposite(d: Direction): Direction
  {
    match d
    case Up => Down
    case Down => Up
    case Left => Right
    case Right => Left
  }

  /** Two directions cancel out exactly when one is the opposite of the
      other, and no two directions share a vector. */
  lemma DeltaGeometry(a: Direction, b: Direction)
    ensures Delta(a).x + Delta(b).x == 0 && Delta(a).y + Delta(b).y == 0 <==> b == Opposite(a)
    ensures Delta(a) == Delta(b) <==> a == b
    ensures Opposite(Opposite(a)) == a
  {
  }

  const INITIAL_SNAKE: seq<Point> := [Point(10, 10), Point(10, 11), Point(10, 12)]

  const INITIAL_FOOD: Point := Point(5, 5)

  /** The state a session starts in; `highScore` is the value restored from
      storage, which this model takes as an input. */
  function InitialState(highScore: int): GameState
  {
    GameState(INITIAL_SNAKE, INITIAL_FOOD, Up, Up, 0, highScore, Idle, BaseSpeed(Medium), Medium)
  }
}
