# Snake game engine in Dafny

A model of the simulation engine of a browser snake game ("Jogo da
Cobrinha"). A snake of grid cells moves on a 20×20 board, one cell per
tick. It eats food, grows and speeds up. It dies when its new head leaves
the board or lands on its own body. The engine lives in `App.tsx` and is
parameterised by `constants.ts` and `types.ts`.

The model is functional. A `GameState` record holds the snake, the food,
the committed `direction`, the buffered `nextDirection`, the score, the
high score, the status, the tick interval (`speed`, in milliseconds) and
the difficulty. Every transition is a pure function over that record:

- the tick (`Engine.GameStep`);
- food placement (`Board.GenerateFood`);
- the direction arbiter (`Input.HandleDirection`);
- the control intents: the Space/Enter key, the pause button, restart and
  the difficulty picker;
- the leaderboard's qualification test and its top-5 merge (`Ranking`);
- the loop driver's due test (`Loop.Frame`).

`Engine.Valid` is the invariant of every reachable state. It says:

- the snake is non-empty, on the board and free of repeated cells;
- the food is on the board and off the snake;
- the speed lies between `MIN_SPEED` and the difficulty's base speed;
- the buffered direction is never the opposite of the committed one;
- the score is not negative;
- the head sits one step from the neck in the committed direction.

Each transition is proved to preserve it. From the invariant follows that
the snake can never turn back onto its own neck (`Engine.NoReversalIntoNeck`).
That is what keeping `nextDirection` apart from `direction` is for.

Modules, leaves first: `Types` (types.ts), `Constants` (constants.ts),
`Board` (grid utilities and `generateFood`), `Engine` (invariant and
`gameStep`), `Input` (player intents), `Ranking` (leaderboard), `Loop`
(tick driver).

Inputs the model takes as parameters:

- randomness: `draw: nat` picks one of the free cells, in place of `Math.random`;
- the clock: `now` in whole milliseconds;
- the high score read from storage at start-up;
- the stored leaderboard;
- the date string of a saved entry.

Behaviour of the code that the model keeps as written:

- A direction key pressed while idle starts the game even when the
  direction is refused as a reversal (App.tsx:240-248).
- With no free cell left, food placement does not fail with an error; it
  samples forever (App.tsx:36-43). Here a free cell is a precondition of
  food placement, and a tick that eats demands room for it.
- The restart button works from every status and always returns to idle
  (App.tsx:345-355). Only the Space/Enter key goes from a finished game
  straight into play (App.tsx:287-297).
- The code computes the leaderboard test inside the tick that ends the
  game, on the score the game ended with (App.tsx:171-173). The model
  states it apart, as `Ranking.Qualifies` over that score and the stored
  board; a colliding tick keeps the score (`Engine.GameStep`).
- After a pause the loop's last-tick time is stale, so the first frame
  after resuming fires a tick at once (App.tsx:217-221). This is modelled
  as written (`Loop.ResumeTicksAtOnce`).

## Model

| member | source | states |
|---|---|---|
| `Types.AllDirections` | types.ts:7-12 | four distinct directions |
| `Types.AllStatuses` | types.ts:14-19 | four distinct statuses: idle, playing, paused, game over |
| `Types.AllDifficulties` | types.ts:21-25 | three distinct difficulties |
| `Types.EnumerationsAreClosed` | types.ts:7-25 | every direction, status and difficulty is one of the listed values, so each enumeration is closed |
| `Constants.BaseSpeed` | constants.ts:8-30 | every difficulty's starting tick interval is at least `MIN_SPEED` |
| `Constants.Points` | constants.ts:8-30 | every difficulty pays a positive number of points per item |
| `Constants.DifficultyScaling` | constants.ts:4-30 | points rise and base speed falls from easy to hard; the speed decrement is positive |
| `Constants.InitialState` | constants.ts:38-48 | the state a session starts in: the initial snake and food, heading up with up buffered, score 0, the given high score, idle, on medium at medium's base speed |
| `Constants.Delta` | constants.ts:50-55 | each direction's offset is a unit vector along one axis |
| `Constants.DeltaGeometry` | constants.ts:50-55 | two offsets cancel exactly when the directions are opposite; distinct directions have distinct offsets |
| `Board.AllCells` | App.tsx:37-40 | the cells a sample can produce: exactly the 400 on-board cells, each once |
| `Board.Unoccupied` | App.tsx:42 | filtering keeps exactly the candidate cells the snake does not cover |
| `Board.FreeCells` | App.tsx:36-43 | a cell is free exactly when it is on the board and not on the snake |
| `Board.FreeCellExists` | App.tsx:36-43 | pigeonhole: a snake shorter than the board's area leaves a free cell, so the sampling loop can end |
| `Board.GenerateFood` | App.tsx:33-45 | whenever some cell is free, the new food is on the board and not on the snake |
| `Board.EveryFreeCellCanBeChosen` | App.tsx:36-43 | food can land on a cell exactly when the cell is free |
| `Board.InitialLayout` | constants.ts:32-40 | the initial snake is three distinct on-board cells, each one step up from the next; the initial food is free |
| `Engine.Accelerate` | App.tsx:197 | the sped-up interval is the larger of `MIN_SPEED` and one decrement faster: never below the floor, never slower than the old one, strictly faster until the floor |
| `Engine.Collides` | App.tsx:159-164 | a tick ends the game exactly when the new head is off the board or on a cell of the snake before the move, the tail included |
| `Engine.GameStep` | App.tsx:150-212 | not playing: no change. Wall or pre-move body hit, tail included: game over, high score is the max of both scores, nothing else changes. Plain move: same length, each segment takes the place ahead, food, score and speed kept. Eating: grows by one, scores the difficulty's points, speeds up, new food free. Any move commits the buffered direction |
| `Engine.InitialStateValid` | constants.ts:38-48 | the initial state satisfies the invariant: idle, score 0, medium's base speed |
| `Engine.NewRun` | App.tsx:290-296 | the reset of a finished or restarted game: the initial state with the high score kept, the given difficulty at its base speed, in the given status |
| `Engine.NewRunValid` | App.tsx:349-354 | a fresh run on any high score, difficulty and status satisfies the invariant |
| `Engine.StepPreservesValid` | App.tsx:154-209 | a tick keeps the snake on the board and repeat-free, the food off the snake, and the speed in range |
| `Engine.StepMonotone` | App.tsx:183-197 | across a tick, score and high score never decrease and the tick interval never increases |
| `Engine.NoReversalIntoNeck` | types.ts:31 | in a valid state the next head is never the neck cell: no turn-around in one tick |
| `Engine.TailChaseIsFatal` | App.tsx:164 | moving into the cell the tail is about to leave still ends the game |
| `Engine.FirstTickMovesUp` | App.tsx:187-209 | one tick from the initial layout moves the snake up one row: score 0, still playing |
| `Engine.WallHitEndsGame` | App.tsx:159-184 | heading up from the top row ends the game, keeps the snake and raises the high score to the score |
| `Engine.FirstBiteGrows` | App.tsx:193-198 | eating straight ahead gives length 4, medium's points, one decrement faster, food off the snake |
| `Input.ReversalIsOpposite` | App.tsx:245-248 | the four refused pairs are exactly the opposite directions, whose offsets cancel |
| `Input.HandleDirection` | App.tsx:233-252 | paused or over: no change. Idle or playing: status becomes playing; the buffer keeps its value for an opposite turn and takes the new direction otherwise; nothing else changes |
| `Input.HandleDirectionPreservesValid` | App.tsx:245-250 | after any direction input the state is valid and the buffer is not the opposite of the committed direction |
| `Input.SpaceOrEnter` | App.tsx:286-305 | game over: a playing fresh run with score 0, base speed and the same high score and difficulty. Playing pauses. Paused and idle play. Only the status changes in those three |
| `Input.HandlePause` | App.tsx:357-367 | the pause button leaves a finished game alone and otherwise matches the Space/Enter key |
| `Input.PauseResumeRoundTrip` | App.tsx:298-299 | pausing then resuming restores the exact state |
| `Input.HandleRestart` | App.tsx:345-355 | from any status: an idle fresh run that keeps high score and difficulty, with base speed and score 0 |
| `Input.RestartIdempotent` | App.tsx:345-355 | restarting twice equals restarting once; the Space/Enter restart is the button restart already started |
| `Input.SetDifficulty` | App.tsx:96-104 | only while idle: sets the difficulty and its base speed and changes nothing else |
| `Input.LastDifficultyWins` | App.tsx:96-104 | of two picks only the last counts |
| `Input.ControlsPreserveValid` | App.tsx:286-367 | the Space/Enter key, the pause button, restart and the difficulty picker keep the invariant |
| `Ranking.Qualifies` | App.tsx:171-173 | a score earns a place exactly when it is positive and the board has fewer than five entries or the score beats the last one |
| `Ranking.IsBlank` | App.tsx:107 | a name is blank exactly when every character is one that JavaScript's `trim` removes |
| `Ranking.Insert` | App.tsx:117 | one insertion step of the sort adds exactly the inserted entry: one more entry, the same entries plus the new one |
| `Ranking.InsertKeepsSorted` | App.tsx:117 | inserting into a board sorted by descending score keeps it sorted |
| `Ranking.SortByScore` | App.tsx:117 | the sort is a permutation of its input |
| `Ranking.SortSorts` | App.tsx:117 | the sort orders every board by descending score |
| `Ranking.InsertScoreClass` | App.tsx:117 | an insertion puts the entry at the front of the entries with its score and leaves every other score's entries in their order |
| `Ranking.SortIsStable` | App.tsx:117 | entries with equal scores keep their relative order |
| `Ranking.NewEntry` | App.tsx:109-114 | the entry's name is the first min(3, n) characters of the name, and it keeps the score, the difficulty and the date |
| `Ranking.SaveScore` | App.tsx:106-118 | a blank name changes nothing; otherwise the board has min(5, n+1) entries |
| `Ranking.SaveKeepsTheTop` | App.tsx:116-118 | a saved board is sorted by descending score, drawn from the old entries plus the new one, and every entry cut scores no more than any entry kept |
| `Ranking.PositionSplits` | App.tsx:116-117 | every entry above a score's position scores at least as much, and the entry at it less |
| `Ranking.SaveOnSortedBoard` | App.tsx:116-118 | on a sorted board a save slides the new entry in at its position and cuts the board to five |
| `Ranking.SortAppendToSorted` | App.tsx:116-117 | on a sorted board the new entry lands after every entry scoring at least as much, and the others keep their order |
| `Ranking.QualifiesIffWithinTopFive` | App.tsx:171-173 | on a sorted board of at most five, a score qualifies exactly when it is positive and its entry lands within the top five |
| `Ranking.QualifyingSaveInserts` | App.tsx:116-118 | a qualifying save puts the entry at its position and leaves the entries above it in place |
| `Ranking.NonQualifyingSaveKeepsBoard` | App.tsx:116-118 | saving a positive score that does not qualify leaves the board as it was |
| `Ranking.SaveChangesBoardIffQualifies` | App.tsx:171-173 | on a sorted board of at most five, saving a positive score changes the board exactly when the score qualifies |
| `Loop.Due` | App.tsx:217-218 | a tick is due exactly when the game is playing and at least the tick interval has passed since the last tick |
| `Loop.Frame` | App.tsx:216-222 | a frame runs exactly one tick when playing and the interval has passed, and then sets the last-tick time to now; otherwise nothing changes, for any state |
| `Loop.FramePreservesValid` | App.tsx:217-221 | frames keep the invariant; ticks are at least `MIN_SPEED` apart |
| `Loop.TicksAreSpaced` | App.tsx:218-220 | two consecutive ticks are at least the interval in force after the first apart |
| `Loop.ResumeTicksAtOnce` | App.tsx:217-221 | paused frames leave the last-tick time stale, so the first frame after a long pause ticks at once |

## Left out

- Board.GenerateFood: models which cells food can land on (every free cell, only free cells), not the uniform distribution of the rejection sampling, because the random source is a parameter.
- The unused helper `checkCollision` (App.tsx:18-30) is not the tick's collision rule. It also skips the last segment, so it is not modelled.
- Sound cues on start, eating and game over (`services/audioService.ts`) are fire-and-forget side effects that never touch the game state.
- The post-game commentary (`services/geminiService.ts`) is a network call to a text-generation service.
- Persistence: the high score and leaderboard in `localStorage` (App.tsx:66-86) are taken as inputs, and writes to storage are not modelled.
- The flags set next to the leaderboard test (`isNewHighscore`, `playerName`, App.tsx:175-178) are presentation state. `Ranking.Qualifies` models the test itself.
- Keyboard and touch handling are not modelled: the key-name mapping (App.tsx:258-278), the swipe geometry (App.tsx:316-342), and the `isNewHighscore` / `showRanking` checks that swallow keys before the Space/Enter table (App.tsx:256, 282-285).
- Scheduling: `requestAnimationFrame` and its fractional timestamps (App.tsx:215-230) become integer millisecond frames. Each frame is one atomic step; React's deferred state updates are not modelled.
- Saving a score: `toUpperCase` and the locale-formatted date (App.tsx:110, 113) are not modelled. The name is kept as typed and the date is an input. Slicing counts characters, where JavaScript counts UTF-16 code units.
- Sharing, clipboard and toast timing (App.tsx:125-147), and all rendering (App.tsx:369-604, `components/`), are presentation only.
- Numbers are unbounded integers. JavaScript's double-precision numbers are exact at these magnitudes, and a NaN high score from corrupt storage is not modelled.
