/** The data model of the snake game: grid points, the three closed
    enumerations, the aggregate game state and a leaderboard row. */
module Types {

  /** A grid cell: `x` is the column, `y` the row (rows grow downwards). */
  datatype Point = Point(x: int, y: int)

  datatype Direction = Up | Down | Left | Right

  datatype GameStatus = Idle | Playing | Paused | GameOver

  datatype Difficulty = Easy | Medium | Hard

  /** The whole simulation state. The committed `direction` is the one the
      last tick moved in; `nextDirection` buffers the latest accepted input
      until the next tick commits it, so that two quick turns between ticks
      cannot reverse the snake into itself. `speed` is the tick interval in
      milliseconds (smaller is faster). */
  datatype GameState = GameState(
    snake: seq<Point>,
    food: Point,
    direction: Direction,
    nextDirection: Direction,
    score: int,
    highScore: int,
    status: GameStatus,
    speed: int,
    difficulty: Difficulty)

  /** A leaderboard row: a score together with the difficulty it was earned on. */
  datatype ScoreEntry = ScoreEntry(name: string, score: int, difficulty: Difficulty, date: string)

  /** The directions, each listed once. */
  function AllDirections(): (ds: seq<Direction>)
    ensures |ds| == 4
    ensures forall i, j :: 0 <= i < j < |ds| ==> ds[i] != ds[j]
  {
    [Up, Down, Left, Right]
  }

  /** The statuses, each listed once. */
  function AllStatuses(): (ss: seq<GameStatus>)
    ensures |ss| == 4
    ensures forall i, j :: 0 <= i < j < |ss| ==> ss[i] != ss[j]
  {
    [Idle, Playing, Paused, GameOver]
  }

  /** The difficulties, each listed once, from easiest to hardest. */
  function AllDifficulties(): (ds: seq<Difficulty>)
    ensures |ds| == 3
    ensures forall i, j :: 0 <= i < j < |ds| ==> ds[i] != ds[j]
  {
    [Easy, Medium, Hard]
  }

  /** The three enumerations are closed: the lists above hold every value. */
  lemma EnumerationsAreClosed()
    ensures forall d: Direction :: d in AllDirections()
    ensures forall s: GameStatus :: s in AllStatuses()
    ensures forall d: Difficulty :: d in AllDifficulties()
  {
    forall d: Direction
      ensures d in AllDirections()
    {
      match d
      case Up => assert AllDirections()[0] == d;
      case Down => assert AllDirections()[1] == d;
      case Left => assert AllDirections()[2] == d;
      case Right => assert AllDirections()[3] == d;
    }
    forall s: GameStatus
      ensures s in AllStatuses()
    {
      match s
      case Idle => assert AllStatuses()[0] == s;
      case Playing => assert AllStatuses()[1] == s;
      case Paused => assert AllStatuses()[2] == s;
      case GameOver => assert AllStatuses()[3] == s;
    }
    forall d: Difficulty
      ensures d in AllDifficulties()
    {
      match d
      case Easy => assert AllDifficulties()[0] == d;
      case Medium => assert AllDifficulties()[1] == d;
      case Hard => assert AllDifficulties()[2] == d;
    }
  }
}
