/**
 * The two-state run/idle machine of the main loop, on values: which events start a session,
 * which spawn obstacles, how the score is computed while running and frozen while idle, and
 * which message the idle screen shows.
 */
module Session {

  datatype Key = Space | OtherKey

  /** What the random draws and the loaded images decide about one new obstacle. */
  datatype Spawn = Spawn(types: string, x: int, w: int, h: int)

  /** A queued event; the quit event is not part of this model. */
  datatype Event = KeyDown(key: Key) | ObstacleTimer(spawn: Spawn) | OtherEvent

  /** The run flag, the session start (whole seconds of the clock) and the last score. */
  datatype State = State(run: bool, startTime: int, score: int)

  /** The title screen's line of text. */
  datatype Message = PressSpace | ScoreWas(score: int)

  /** What a frame puts on screen: the running score, or the title screen. */
  datatype Screen = Playing(score: int) | Title(message: Message)

  /** Milliseconds in one scored second. */
  const MillisPerSecond := 1000

  /** The state before anything has been played. */
  const Initial := State(false, 0, 0)

  /**
   * The running score: how many whole-second marks of the clock have passed since the
   * second in which the session started (a start at 1999 ms scores 1 at 2000 ms).
   */
  function Score(ticks: nat, startTime: int): int
  {
    ticks / MillisPerSecond - startTime
  }

  /** Handle one event at clock reading `ticks`: only space pressed while idle changes the state. */
  function OnEvent(s: State, e: Event, ticks: nat): State
  {
    if !s.run && e == KeyDown(Space) then s.(run := true, startTime := ticks / MillisPerSecond) else s
  }

  /** Whether handling `e` adds an obstacle: a timer event met while running (after the run check). */
  predicate Spawns(s: State, e: Event, ticks: nat)
  {
    OnEvent(s, e, ticks).run && e.ObstacleTimer?
  }

  /** Handle a frame's drained events in arrival order. */
  function OnEvents(s: State, es: seq<Event>, ticks: nat): State
  {
    if es == [] then s else OnEvent(OnEvents(s, es[..|es| - 1], ticks), es[|es| - 1], ticks)
  }

  /** The obstacles added while handling `es`, in order. */
  function Spawned(s: State, es: seq<Event>, ticks: nat): seq<Spawn>
  {
    if es == [] then []
    else
      var before := OnEvents(s, es[..|es| - 1], ticks);
      var e := es[|es| - 1];
      Spawned(s, es[..|es| - 1], ticks) + if Spawns(before, e, ticks) then [e.spawn] else []
  }

  /** The spawns carried by every timer event of `es`, in order. */
  function Timers(es: seq<Event>): seq<Spawn>
  {
    if es == [] then []
    else Timers(es[..|es| - 1]) + if es[|es| - 1].ObstacleTimer? then [es[|es| - 1].spawn] else []
  }

  /**
   * The per-frame step after the events: while running, compute the score and stop exactly
   * when the collision check found a hit; while idle, change nothing.
   */
  function OnFrame(s: State, ticks: nat, collided: bool): State
  {
    if s.run then s.(score := Score(ticks, s.startTime), run := !collided) else s
  }

  /** The title screen shows the instructions exactly when the score is 0, and otherwise that score. */
  function IdleMessage(score: int): (m: Message)
    ensures m == PressSpace <==> score == 0
    ensures m.ScoreWas? ==> m.score == score
  {
    if score == 0 then PressSpace else ScoreWas(score)
  }

  /** What a frame shows, given the state after its events. */
  function Shown(s: State, ticks: nat): (v: Screen)
    ensures s.run ==> v == Playing(OnFrame(s, ticks, false).score)
    ensures !s.run ==> v.Title? && (v.message == PressSpace <==> s.score == 0)
  {
    if s.run then Playing(Score(ticks, s.startTime)) else Title(IdleMessage(s.score))
  }

  /**
   * One event: idle becomes running exactly on a space key press, which records the clock's
   * whole seconds; a running state ignores every event; the score is never touched.
   */
  lemma EventTransitions(s: State, e: Event, ticks: nat)
    ensures !s.run ==> (OnEvent(s, e, ticks).run <==> e == KeyDown(Space))
    ensures !s.run && e == KeyDown(Space) ==> OnEvent(s, e, ticks).startTime == ticks / MillisPerSecond
    ensures s.run ==> OnEvent(s, e, ticks) == s
    ensures OnEvent(s, e, ticks).score == s.score
  {
  }

  /**
   * A frame's events: an idle state starts running exactly when a space key press is among
   * them, and then with the clock's whole seconds as start; a running one is left alone;
   * the score is unchanged either way.
   */
  lemma {:induction false} EventsTransitions(s: State, es: seq<Event>, ticks: nat)
    ensures !s.run ==> (OnEvents(s, es, ticks).run <==> KeyDown(Space) in es)
    ensures !s.run && KeyDown(Space) in es ==> OnEvents(s, es, ticks).startTime == ticks / MillisPerSecond
    ensures !s.run && KeyDown(Space) !in es ==> OnEvents(s, es, ticks) == s
    ensures s.run ==> OnEvents(s, es, ticks) == s
    ensures OnEvents(s, es, ticks).score == s.score
  {
    if es != [] {
      var init := es[..|es| - 1];
      EventsTransitions(s, init, ticks);
      assert es == init + [es[|es| - 1]];
    }
  }

  /**
   * Timer events spawn obstacles only while running: a running state adds one per timer
   * event, an idle one that sees no space key press adds none.
   */
  lemma {:induction false} SpawnsOnlyWhileRunning(s: State, es: seq<Event>, ticks: nat)
    ensures s.run ==> Spawned(s, es, ticks) == Timers(es)
    ensures !s.run && KeyDown(Space) !in es ==> Spawned(s, es, ticks) == []
  {
    if es != [] {
      var init := es[..|es| - 1];
      SpawnsOnlyWhileRunning(s, init, ticks);
      EventsTransitions(s, init, ticks);
      assert es == init + [es[|es| - 1]];
    }
  }

  /**
   * The frame step: a running state records the elapsed whole seconds as its score and
   * goes idle exactly on a collision; an idle state, score included, is left as it is.
   */
  lemma FrameTransitions(s: State, ticks: nat, collided: bool)
    ensures s.run ==> OnFrame(s, ticks, collided).score == ticks / MillisPerSecond - s.startTime
    ensures s.run ==> (OnFrame(s, ticks, collided).run <==> !collided)
    ensures OnFrame(s, ticks, collided).startTime == s.startTime
    ensures !s.run ==> OnFrame(s, ticks, collided) == s
  {
  }

  /**
   * The loop's standing facts at clock reading `clock`: the second the session started in
   * has begun by then, and the score is not negative.
   */
  predicate Sane(s: State, clock: nat)
  {
    0 <= s.startTime && s.startTime * MillisPerSecond <= clock && s.score >= 0
  }

  /** One event handled at a clock reading no earlier than the last keeps the standing facts. */
  lemma EventKeepsSane(s: State, clock: nat, e: Event, ticks: nat)
    requires Sane(s, clock) && clock <= ticks
    ensures Sane(OnEvent(s, e, ticks), ticks)
  {
  }

  /** One frame step at a clock reading no earlier than the last keeps the standing facts. */
  lemma FrameKeepsSane(s: State, clock: nat, ticks: nat, collided: bool)
    requires Sane(s, clock) && clock <= ticks
    ensures Sane(OnFrame(s, ticks, collided), ticks)
  {
  }

  /**
   * The score is never negative: a loop iteration (events at `t1`, frame step at `t2`) keeps
   * the standing facts as long as the clock does not run backwards.
   */
  lemma IterationKeepsSane(s: State, clock: nat, es: seq<Event>, t1: nat, t2: nat, collided: bool)
    requires Sane(s, clock) && clock <= t1 <= t2
    ensures Sane(OnFrame(OnEvents(s, es, t1), t2, collided), t2)
  {
    EventsTransitions(s, es, t1);
    FrameKeepsSane(OnEvents(s, es, t1), t1, t2, collided);
  }

  /** Within one session the score does not decrease as the clock moves on. */
  lemma ScoreNonDecreasing(s: State, t1: nat, t2: nat, collided: bool)
    requires s.run && t1 <= t2
    ensures OnFrame(OnFrame(s, t1, false), t2, collided).score >= OnFrame(s, t1, false).score
  {
  }

  /**
   * A session started by a space key press at clock reading t0 and never hit scores exactly
   * 5 at the frame whose clock reads t0 + 5000.
   */
  lemma FiveSecondsScoreFive(s: State, t0: nat)
    requires !s.run
    ensures OnFrame(OnEvent(s, KeyDown(Space), t0), t0 + 5 * MillisPerSecond, false).score == 5
  {
  }

  /**
   * After a collision the score stays frozen through every later idle frame and every event
   * batch that holds no space key press.
   */
  lemma FrozenAfterCollision(s: State, ticks: nat, es: seq<Event>, t: nat, c: bool)
    requires s.run && KeyDown(Space) !in es
    ensures var over := OnFrame(s, ticks, true);
      !over.run && OnFrame(OnEvents(over, es, t), t, c) == over
  {
    EventsTransitions(OnFrame(s, ticks, true), es, t);
  }

  /** Before anything is played the title screen shows the instructions. */
  lemma InitialShowsInstructions(ticks: nat)
    ensures Shown(Initial, ticks) == Title(PressSpace)
  {
  }
}
