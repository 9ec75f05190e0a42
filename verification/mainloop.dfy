/**
 * The game loop's state and one iteration of it: drain the events, then either run a frame
 * of play (score, player, obstacles, collision) or show the title screen.
 */
module MainLoop {
  import opened Geometry
  import Animation
  import opened Physics
  import opened Obstacles
  import opened Collision
  import opened Session

  /** A spawn the random draws can produce: x in the spawn range, and a non-empty image. */
  predicate ValidSpawn(sp: Spawn)
  {
    SpawnMin <= sp.x <= SpawnMax && sp.w > 0 && sp.h > 0
  }

  /** Every timer event of the batch carries a spawn the random draws can produce. */
  predicate ValidEvents(es: seq<Event>)
  {
    forall i :: 0 <= i < |es| && es[i].ObstacleTimer? ==> ValidSpawn(es[i].spawn)
  }

  /** `o` is exactly the obstacle that spawn `sp` creates, as yet never updated. */
  ghost predicate Made(o: Obstacle, sp: Spawn)
    reads o
  {
    ValidSpawn(sp) && o.Valid() && o.kind == KindOf(sp.types) &&
    o.rect == SpawnRect(sp.types, sp.x, sp.w, sp.h) && o.index == 0
  }

  /** The obstacles at positions n.. of `grp` are of the kinds that the spawns `added` name. */
  predicate FromSpawns(grp: seq<Obstacle>, n: nat, added: seq<Spawn>)
  {
    n + |added| == |grp| &&
    forall k :: 0 <= k < |added| ==> ValidSpawn(added[k]) && grp[n + k].kind == KindOf(added[k].types)
  }

  /**
   * The obstacles at positions n.. of `grp` are those made by the spawns `added`, each since
   * scrolled once from its spawn rectangle and with its cursor ticked once.
   */
  ghost predicate Arrived(grp: seq<Obstacle>, n: nat, added: seq<Spawn>)
    reads grp
  {
    n + |added| == |grp| &&
    forall k :: 0 <= k < |added| ==>
      ValidSpawn(added[k]) &&
      grp[n + k].rect == Scrolled(SpawnRect(added[k].types, added[k].x, added[k].w, added[k].h)) &&
      grp[n + k].index == Animation.Advance(0)
  }

  /** The loop's state: the run flag, the session start, the score, the player and the obstacles. */
  class Game {
    var run: bool
    var startTime: int
    var score: int
    const player: Player
    const obstacles: ObstacleGroup
    /** The latest clock reading handled so far; the clock never runs backwards. */
    ghost var clock: nat

    function State(): Session.State
      reads this
    {
      Session.State(run, startTime, score)
    }

    ghost predicate Valid()
      reads this, player, obstacles, obstacles.members
    {
      player.Valid() && obstacles.Valid() && Sane(State(), clock)
    }

    /** Idle, score 0, no obstacles, and a player of the given image size standing on the ground. */
    constructor (w: int, h: int)
      requires w > 0 && h > 0
      ensures Valid() && State() == Initial && obstacles.members == []
      ensures player.rect == AtMidbottom(StartX, Ground, w, h) && player.gravity == 0
      ensures player.index == 0 && player.image == Walk(0)
    {
      run := false;
      startTime := 0;
      score := 0;
      player := new Player(w, h);
      obstacles := new ObstacleGroup();
      clock := 0;
    }

    /**
     * Handle one event at clock reading `ticks`: space pressed while idle starts a session;
     * a timer event met while running adds one new obstacle to the group.
     */
    method HandleEvent(e: Event, ticks: nat)
      requires Valid() && clock <= ticks
      requires e.ObstacleTimer? ==> ValidSpawn(e.spawn)
      modifies this, obstacles
      ensures Valid() && clock == ticks
      ensures State() == OnEvent(old(State()), e, ticks)
      ensures Spawns(old(State()), e, ticks) ==>
        |obstacles.members| == |old(obstacles.members)| + 1 &&
        obstacles.members[..|old(obstacles.members)|] == old(obstacles.members) &&
        fresh(obstacles.members[|old(obstacles.members)|]) &&
        Made(obstacles.members[|old(obstacles.members)|], e.spawn)
      ensures !Spawns(old(State()), e, ticks) ==> obstacles.members == old(obstacles.members)
    {
      if !run && e == KeyDown(Space) {
        run := true;
        startTime := ticks / MillisPerSecond;
      }
      if run && e.ObstacleTimer? {
        var o := new Obstacle(e.spawn.types, e.spawn.x, e.spawn.w, e.spawn.h);
        obstacles.Add(o);
      }
      clock := ticks;
      EventKeepsSane(old(State()), old(clock), e, ticks);
    }

    /** Handle a frame's drained events in arrival order, all at clock reading `ticks`. */
    method HandleEvents(events: seq<Event>, ticks: nat)
      requires Valid() && clock <= ticks && ValidEvents(events)
      modifies this, obstacles
      ensures Valid() && old(clock) <= clock <= ticks
      ensures State() == OnEvents(old(State()), events, ticks)
      ensures var added := Spawned(old(State()), events, ticks);
        |obstacles.members| == |old(obstacles.members)| + |added| &&
        obstacles.members[..|old(obstacles.members)|] == old(obstacles.members) &&
        forall k :: 0 <= k < |added| ==> Made(obstacles.members[|old(obstacles.members)| + k], added[k])
      ensures forall k :: |old(obstacles.members)| <= k < |obstacles.members| ==> fresh(obstacles.members[k])
    {
      var i := 0;
      while i < |events|
        invariant 0 <= i <= |events|
        invariant Valid() && old(clock) <= clock <= ticks
        invariant State() == OnEvents(old(State()), events[..i], ticks)
        invariant var added := Spawned(old(State()), events[..i], ticks);
          |obstacles.members| == |old(obstacles.members)| + |added| &&
          obstacles.members[..|old(obstacles.members)|] == old(obstacles.members) &&
          forall k :: 0 <= k < |added| ==> Made(obstacles.members[|old(obstacles.members)| + k], added[k])
        invariant forall k :: |old(obstacles.members)| <= k < |obstacles.members| ==> fresh(obstacles.members[k])
      {
        HandleEvent(events[i], ticks);
        assert events[..i + 1][..i] == events[..i];
        i := i + 1;
      }
      assert events[..i] == events;
    }

    /**
     * The sprites' part of a frame of play: update the player, then every obstacle, then test
     * for a hit, which empties the group. The answer is whether the session goes on.
     */
    method UpdateSprites(space: bool) returns (alive: bool)
      requires player.Valid() && obstacles.Valid()
      modifies player, obstacles, obstacles.members
      ensures player.Valid() && obstacles.Valid()
      ensures player.State() == Step(old(player.State()), space)
      ensures forall j :: 0 <= j < |old(obstacles.members)| ==>
        old(obstacles.members)[j].rect == Scrolled(old(obstacles.members[j].rect)) &&
        old(obstacles.members)[j].index == Animation.Advance(old(obstacles.members[j].index))
      ensures alive <==> !Collides(player.rect, Survivors(old(obstacles.members)))
      ensures obstacles.members == if alive then Survivors(old(obstacles.members)) else []
    {
      player.Update(space);
      obstacles.UpdateAll();
      alive := SpriteCollision(player, obstacles);
    }

    /**
     * A frame of play at clock reading `ticks`: record the score, update the player and then
     * the obstacles, and keep running exactly when no remaining obstacle touches the player
     * (a hit empties the group).
     */
    method Play(ticks: nat, space: bool) returns (screen: Screen)
      requires Valid() && run && clock <= ticks
      modifies this, player, obstacles, obstacles.members
      ensures Valid() && clock == ticks
      ensures screen == Shown(old(State()), ticks)
      ensures player.State() == Step(old(player.State()), space)
      ensures forall j :: 0 <= j < |old(obstacles.members)| ==>
        old(obstacles.members)[j].rect == Scrolled(old(obstacles.members[j].rect)) &&
        old(obstacles.members)[j].index == Animation.Advance(old(obstacles.members[j].index))
      ensures State() == OnFrame(old(State()), ticks, Collides(player.rect, Survivors(old(obstacles.members))))
      ensures obstacles.members == if run then Survivors(old(obstacles.members)) else []
    {
      clock := ticks;
      score := Score(ticks, startTime);
      screen := Playing(score);
      run := UpdateSprites(space);
    }

    /**
     * The part of a frame after the events. Running: a frame of play. Idle: show the title
     * screen and change nothing. The ghost arguments name the obstacles the events just
     * spawned: positions n.. of the group, made by the spawns `added`.
     */
    method Tick(ticks: nat, space: bool, ghost n: nat, ghost added: seq<Spawn>) returns (screen: Screen)
      requires Valid() && clock <= ticks
      requires n + |added| == |obstacles.members|
      requires forall k :: 0 <= k < |added| ==> Made(obstacles.members[n + k], added[k])
      modifies this, player, obstacles, obstacles.members
      ensures Valid() && clock == ticks
      ensures screen == Shown(old(State()), ticks)
      ensures old(run) ==> player.State() == Step(old(player.State()), space)
      ensures old(run) ==> forall j :: 0 <= j < |old(obstacles.members)| ==>
        old(obstacles.members)[j].rect == Scrolled(old(obstacles.members[j].rect)) &&
        old(obstacles.members)[j].index == Animation.Advance(old(obstacles.members[j].index))
      ensures old(run) ==> Arrived(old(obstacles.members), n, added)
      ensures old(run) ==>
        State() == OnFrame(old(State()), ticks, Collides(player.rect, Survivors(old(obstacles.members))))
      ensures old(run) ==> obstacles.members == if run then Survivors(old(obstacles.members)) else []
      ensures !old(run) ==> State() == old(State()) && unchanged(player) && unchanged(obstacles)
      ensures !old(run) ==> unchanged(old(obstacles.members))
    {
      if run {
        ghost var grp := obstacles.members;
        screen := Play(ticks, space);
        forall k | 0 <= k < |added|
          ensures grp[n + k].rect == Scrolled(SpawnRect(added[k].types, added[k].x, added[k].w, added[k].h))
          ensures grp[n + k].index == Animation.Advance(0)
        {
          assert old(Made(grp[n + k], added[k]));
        }
      } else {
        clock := ticks;
        screen := Title(IdleMessage(score));
      }
    }

    /**
     * One iteration of the main loop: the events drained at clock reading `eventTicks`, then
     * the frame step at the later reading `frameTicks`. The ghost result `grp` is the obstacle
     * group as it stands between the two, after the spawns of the events.
     */
    method Frame(events: seq<Event>, eventTicks: nat, frameTicks: nat, space: bool)
      returns (screen: Screen, ghost grp: seq<Obstacle>)
      requires Valid() && clock <= eventTicks <= frameTicks && ValidEvents(events)
      modifies this, player, obstacles, obstacles.members
      ensures Valid() && clock == frameTicks
      ensures var mid := OnEvents(old(State()), events, eventTicks);
        screen == Shown(mid, frameTicks) &&
        State() == OnFrame(mid, frameTicks, Collides(player.rect, Survivors(grp)))
      ensures var added := Spawned(old(State()), events, eventTicks);
        |grp| == |old(obstacles.members)| + |added| && grp[..|old(obstacles.members)|] == old(obstacles.members)
      ensures FromSpawns(grp, |old(obstacles.members)|, Spawned(old(State()), events, eventTicks))
      ensures forall k :: |old(obstacles.members)| <= k < |grp| ==> fresh(grp[k])
      ensures var mid := OnEvents(old(State()), events, eventTicks);
        mid.run ==> player.State() == Step(old(player.State()), space) &&
                    (forall j :: 0 <= j < |old(obstacles.members)| ==>
                       old(obstacles.members)[j].rect == Scrolled(old(obstacles.members[j].rect)) &&
                       old(obstacles.members)[j].index == Animation.Advance(old(obstacles.members[j].index))) &&
                    obstacles.members == if run then Survivors(grp) else []
      ensures OnEvents(old(State()), events, eventTicks).run ==>
        Arrived(grp, |old(obstacles.members)|, Spawned(old(State()), events, eventTicks))
      ensures var mid := OnEvents(old(State()), events, eventTicks);
        !mid.run ==> player.State() == old(player.State()) && obstacles.members == grp
      ensures !OnEvents(old(State()), events, eventTicks).run ==> unchanged(old(obstacles.members))
    {
      HandleEvents(events, eventTicks);
      grp := obstacles.members;
      ghost var added := Spawned(old(State()), events, eventTicks);
      ghost var n := |old(obstacles.members)|;
      assert forall k :: 0 <= k < |added| ==> Made(grp[n + k], added[k]);
      assert FromSpawns(grp, n, added);
      screen := Tick(frameTicks, space, n, added);
    }
  }
}
