# Runner game core in Dafny

A model of the game logic of a small pygame side-scroller ("Silly Little Game"): a player
that jumps under integer gravity and lands on a ground line at y = 300, flies and snails that
spawn off the right edge and scroll left by 5 pixels a frame, a collision test that empties
the obstacle group, and the two-state run/idle machine of the main loop that starts a session
on the space key, scores the clock's whole-second marks passed since the session started,
and stops on a hit.

Files and modules:

- `geometry.dfy` (`Geometry`): integer rectangles, midbottom placement, strict overlap.
- `animation.dfy` (`Animation`): the two-frame animation cursor, counted in tenths.
- `physics.dfy` (`Physics`): the `Player` class and the value-level `Body` step functions
  (`Input`, `Gravity`, `Animate`, `Step`, `Steps`) that its methods are proved against.
- `obstacles.dfy` (`Obstacles`): the `Obstacle` class, the `ObstacleGroup` class, and
  `Survivors`, the members still on screen after an update.
- `collision.dfy` (`Collision`): `SpriteCollide` and `SpriteCollision`.
- `session.dfy` (`Session`): the run/idle machine on values (`OnEvent`, `OnEvents`,
  `Spawned`, `OnFrame`, `Score`, `IdleMessage`, `Shown`) and its lemmas.
- `mainloop.dfy` (`MainLoop`): the `Game` class holding `run`, `startTime`, `score`, the
  player and the obstacle group; one loop iteration is `Frame` = `HandleEvents` then `Tick`.

Inputs that the program takes from its environment are method parameters: whether space is
held (`space`), the clock reading in milliseconds (`ticks`), the queued events, and, carried
by each obstacle-timer event, the random spawn x, the random type name and the image size.

## Model

| member | source | states |
|---|---|---|
| Geometry.AtMidbottom | pythonProject1/main.py:19 | the rectangle placed by its midbottom has that bottom, that bottom-midpoint x and the given size |
| Animation.Advance | pythonProject1/main.py:46-48 | one tick adds a tenth and wraps: the new cursor is (cursor + 1) mod 20, zero exactly after 19 |
| Animation.FrameIndex | pythonProject1/main.py:49 | the frame picked from a cursor is always 0 or 1, a valid index into the two frames, and 0 exactly for the first ten tenths |
| Animation.AdvanceNIsModular | pythonProject1/main.py:82-85 | after n ticks the cursor equals (initial + n) mod 20 |
| Physics.NoMidAirJump | pythonProject1/main.py:26-31 | `Input`: with the bottom above the ground, input changes nothing, whatever the key state |
| Physics.JumpGate | pythonProject1/main.py:29-30 | `Input` changes only the velocity (rectangle, cursor and image stay), and sets it to -20 exactly when space is held and the bottom is >= 300 |
| Physics.Gravity | pythonProject1/main.py:34-39 | velocity grows by exactly 1, y moves by the new velocity, the bottom ends <= 300 and is exactly 300 whenever the move would reach or pass it; x and size unchanged |
| Physics.Animate | pythonProject1/main.py:41-49 | airborne: jump frame, cursor unchanged; on the ground: cursor ticks mod 20 and a walk frame 0 or 1 is shown; the image always matches the position |
| Physics.VelocityNotResetOnLanding | pythonProject1/main.py:35-39 | on the ground without input the velocity keeps growing by 1 per frame while the bottom stays at 300 |
| Physics.JumpLiftsOff | pythonProject1/main.py:51-55 | a frame with space held on the ground leaves velocity -19, the bottom at 281 and the jump frame shown |
| Physics.StepGrounded | pythonProject1/main.py:51-55 | `Step`: one frame (input, gravity, animation) keeps the player non-empty, not below the ground, its image matching its position |
| Physics.StepsStayGrounded | pythonProject1/main.py:51-55 | over any number of frames with any inputs the bottom never passes the ground line |
| Physics.Player.constructor | pythonProject1/main.py:16-20 | a new player stands with midbottom (80, 300), velocity 0, walk frame 0 |
| Physics.Player.PlayerInput | pythonProject1/main.py:26-31 | velocity becomes -20 iff space is held and the bottom is >= 300, otherwise it is unchanged |
| Physics.Player.ApplyGravity | pythonProject1/main.py:34-39 | the new state is `Gravity` of the old one |
| Physics.Player.AnimationState | pythonProject1/main.py:41-49 | the new state is `Animate` of the old one |
| Physics.Player.Update | pythonProject1/main.py:51-55 | the new state is input, then gravity, then animation applied to the old one |
| Obstacles.SpawnRect | pythonProject1/main.py:63-78 | through `KindOf`, a "fly" has bottom 200, any other type bottom 300; the midbottom x lies in [900, 1100] |
| Obstacles.Obstacle.constructor | pythonProject1/main.py:59-78 | a new obstacle has its kind from the type name, the spawn rectangle, and cursor and frame 0 |
| Obstacles.Obstacle.AnimationState | pythonProject1/main.py:80-85 | the cursor ticks mod 20 and the frame shown is its whole part |
| Obstacles.Obstacle.Update | pythonProject1/main.py:92-96 | x decreases by exactly 5, y and size are unchanged, the cursor ticks, and removal is signalled iff the moved obstacle is `OffScreen` (new right edge <= 0) |
| Obstacles.SurvivorsSpec | pythonProject1/main.py:88-96 | `Survivors`: the survivors of an update are exactly the members whose right edge is > 0, never more than the group, none repeated if none was |
| Obstacles.SurvivorsConcat | pythonProject1/main.py:88-96 | `Survivors` filters piecewise and keeps the order: the survivors of a + b are those of a followed by those of b |
| Obstacles.ObstacleGroup.constructor | pythonProject1/main.py:134 | the group starts empty |
| Obstacles.ObstacleGroup.Add | pythonProject1/main.py:190 | adding appends an obstacle not yet in the group and leaves the group as it is otherwise |
| Obstacles.ObstacleGroup.Empty | pythonProject1/main.py:112 | the group becomes empty |
| Obstacles.ObstacleGroup.UpdateAll | pythonProject1/main.py:88-96 | the group update pass: every member scrolls 5 left and ticks its cursor, independently of the others; afterwards the group is exactly the members not `OffScreen` (right edge > 0), in their old order |
| Collision.SpriteCollide | pythonProject1/main.py:110 | the hits are exactly the members overlapping the player, none else; none iff no member overlaps |
| Collision.SpriteCollision | pythonProject1/main.py:108-115 | returns false and empties the group iff some member overlaps the player; otherwise returns true and leaves the group unchanged |
| Session.IdleMessage | pythonProject1/main.py:214-221 | the title screen shows the instructions iff the score is 0, otherwise the score message with that score |
| Session.Shown | pythonProject1/main.py:194-221 | a running frame shows the freshly computed score; an idle frame shows the title screen chosen by score == 0 |
| Session.EventTransitions | pythonProject1/main.py:179-185 | `OnEvent`: idle becomes running iff the event is a space key press, recording ticks // 1000; a running state ignores every event; the score is untouched |
| Session.EventsTransitions | pythonProject1/main.py:174-192 | `OnEvents`: over a batch of events: idle starts iff a space press is among them (start = ticks // 1000); running is unaffected; score unchanged |
| Session.SpawnsOnlyWhileRunning | pythonProject1/main.py:187-190 | `Spawned`: while running every timer event adds exactly one obstacle; while idle with no space press none is added |
| Session.FrameTransitions | pythonProject1/main.py:194-206 | `OnFrame` and `Score`: a running frame sets score = ticks // 1000 - start and goes idle iff a collision happened; an idle frame changes nothing |
| Session.EventKeepsSane | pythonProject1/main.py:179-185 | one event at a clock reading no earlier than the last keeps start second × 1000 <= clock and the score >= 0 |
| Session.FrameKeepsSane | pythonProject1/main.py:194-197 | a frame at a clock reading no earlier than the last keeps start second × 1000 <= clock and the score >= 0 |
| Session.IterationKeepsSane | pythonProject1/main.py:183-197 | a loop iteration (`OnEvents` then `OnFrame`) at non-decreasing clock readings keeps start second × 1000 <= clock and the score >= 0; `Game.Valid` holds this invariant and every `Game` method preserves it |
| Session.ScoreNonDecreasing | pythonProject1/main.py:101 | `Score`: within a session a later frame never shows a smaller score |
| Session.FiveSecondsScoreFive | pythonProject1/main.py:183-185 | `Score`: a session started at clock t0 scores exactly 5 at the frame at t0 + 5000 ms |
| Session.FrozenAfterCollision | pythonProject1/main.py:206-221 | after the collision frame the state, score included, stays as it is until a space press |
| Session.InitialShowsInstructions | pythonProject1/main.py:154-157 | before any session the title screen shows the instructions |
| MainLoop.Game.constructor | pythonProject1/main.py:130-157 | the loop starts idle with score 0, start 0, an empty group and the player on the ground at x = 80 with velocity 0, cursor 0 and walk frame 0 |
| MainLoop.Game.HandleEvent | pythonProject1/main.py:179-192 | the session state follows `OnEvent`; a timer event met while running appends exactly one fresh obstacle built from its spawn, otherwise the group is unchanged |
| MainLoop.Game.HandleEvents | pythonProject1/main.py:174-192 | the batch is handled in order: the state follows `OnEvents`, and the group gains exactly the `Spawned` obstacles, appended in order |
| MainLoop.Game.UpdateSprites | pythonProject1/main.py:199-206 | the player takes one `Step`, every obstacle scrolls 5 left and ticks its cursor, and the answer is true iff no survivor overlaps the player; the group becomes the survivors, or empty on a hit |
| MainLoop.Game.Play | pythonProject1/main.py:194-206 | a running frame: the score shown is `Score` of the clock and start, player and obstacles as in `UpdateSprites`, and the state follows `OnFrame` with the collision outcome |
| MainLoop.Game.Tick | pythonProject1/main.py:194-221 | running: a frame of `Play`, and the obstacles the events just made now sit at their spawn rectangle scrolled once with the cursor ticked once (`Arrived`); idle: nothing changes and the title screen is shown |
| MainLoop.Game.Frame | pythonProject1/main.py:172-225 | one loop iteration: the events extend the old group to `grp` by exactly the `Spawned` obstacles, appended in order, each fresh and of the kind its spawn's type names (`FromSpawns`); if the session is then running, the player takes one `Step`, every old member scrolls 5 left and ticks its cursor, every new member sits at its spawn rectangle scrolled once with its cursor ticked once (`Arrived`), and the run continues iff no survivor of `grp` overlaps the player, the group becoming those survivors, else empty; if idle, the player, the group and every obstacle in it (rect and cursor) stay as they were; the screen and state are `OnFrame` after `OnEvents` |

## Left out

- Quitting (the quit event, `pygame.quit()` and `sys.exit()`): process termination; the event type has no quit case.
- Images, fonts, sounds and music, every blit/fill/display update, and `clock.tick(60)`: rendering and I/O. The jump sound played on a jump is not modelled. What a frame displays is reduced to the `Screen` value `Frame` and `Tick` return.
- `randint(900, 1100)` and `choice(["fly", "fly", "snail", "snail"])`: the drawn x and type name arrive with each obstacle-timer event, constrained to the range; no distribution is modelled. Image sizes are inputs as well, assumed non-empty.
- Animation.Advance: the source adds the float 0.1 per frame and wraps when the sum reaches 2.0; the model counts exact tenths, so the frame at which the picture switches or wraps may differ by one from what IEEE rounding gives.
- pygame `Sprite`, `Group` and `GroupSingle` internals: a group is a sequence of distinct obstacles in insertion order; `kill()` is modelled as `Obstacle.Update` returning a flag on which `UpdateAll` drops the member, which leaves the same group after the pass because pygame iterates over a copy of its members.
- `spritecollide`/`colliderect`: modelled by strict integer overlap of non-empty rectangles.
- Clock readings: the model reads the clock once for the whole event batch and once for the score; the source reads it again for each key press. The clock is assumed never to run backwards.
- Integer width: pygame stores rectangle coordinates as C ints, and the player's velocity grows by one on every grounded frame without bound; the model's integers are unbounded, so an overflow after very long play is not modelled.
- The unused snail and fly animation timers and the dead variables `obstacle_rect_list` and `player_gravity`: no effect on behaviour.
- Drawing order of the sprites and of the group.
