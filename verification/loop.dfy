/** The loop driver: on every animation frame it runs one tick if the game
    is playing and the tick interval has passed since the last tick. Times
    are whole milliseconds. */
module Loop {
  import opened Types
  import opened Constants
  import opened Engine
  import opened Input

  /** The game together with the time of the last tick. */
  datatype Driver = Driver(game: GameState, lastTime: int)

  /** A tick is due at `now`. */
  predicate Due(d: Driver, now: int)
  {
    d.game.status == Playing && now - d.lastTime >= d.game.speed
  }

  /** One animation frame at time `now`: a due tick runs once and restarts
      the interval at `now` (missed intervals are not caught up); otherwise
      nothing changes. */
  function Frame(d: Driver, now: int, draw: nat): (r: Driver)
    requires Due(d, now) ==> CanStep(d.game)
    ensures Due(d, now) ==> r.game == GameStep(d.game, draw) && r.lastTime == now
    ensures !Due(d, now) ==> r == d
  {
    if Due(d, now) then Driver(GameStep(d.game, draw), now) else d
  }

  /** Frames keep the game's invariant, and ticks of a valid game are at
      least the fastest tick interval apart. */
  lemma FramePreservesValid(d: Driver, now: int, draw: nat)
    requires Valid(d.game) && (Due(d, now) ==> CanStep(d.game))
    ensures Valid(Frame(d, now, draw).game)
    ensures Due(d, now) ==> now - d.lastTime >= MIN_SPEED
  {
    if Due(d, now) {
      StepPreservesValid(d.game, draw);
    }
  }

  /** Two ticks in a row are at least the interval in force after the first apart. */
  lemma TicksAreSpaced(d: Driver, t1: int, t2: int, draw1: nat, draw2: nat)
    requires Due(d, t1) && CanStep(d.game)
    requires Due(Frame(d, t1, draw1), t2)
    ensures t2 - t1 >= Frame(d, t1, draw1).game.speed
  {
  }

  /** The time of the last tick is not refreshed while paused, so the first
      frame after a long pause runs a tick at once. */
  lemma ResumeTicksAtOnce(s: GameState, draw: nat)
    requires Valid(s) && s.status == Playing
    ensures
      var paused := Driver(HandlePause(s), 1000);
      var idle := Frame(paused, 5000, draw);
      var resumed := Driver(HandlePause(idle.game), idle.lastTime);
      && idle == paused
      && Due(resumed, 5000)
  {
  }
}
