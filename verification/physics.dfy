/**
 * The player sprite: jump input, gravity with a ground clamp, and the walk/jump animation,
 * run once per frame in the order input, gravity, animation.
 */
module Physics {
  import opened Geometry
  import Animation

  /** The ground line: no sprite bottom goes below it. */
  const Ground := 300

  /** The vertical velocity a jump starts with (upwards, since y grows downwards). */
  const JumpVelocity := -20

  /** The x coordinate of the player's bottom-edge midpoint when it is created. */
  const StartX := 80

  /** The image the player shows: one of the two walk frames, or the jump frame. */
  datatype Image = Walk(index: nat) | Jump

  /** Everything about the player that changes from frame to frame. */
  datatype Body = Body(rect: Rect, gravity: int, cursor: Animation.Cursor, image: Image)

  /** A player whose rectangle is non-empty and rests on or above the ground. */
  predicate Grounded(b: Body) {
    b.rect.NonEmpty() && b.rect.Bottom() <= Ground
  }

  /** The image agrees with the position and the cursor: jump frame in the air, walk frame on the ground. */
  predicate Shows(b: Body) {
    b.image == if b.rect.Bottom() < Ground then Jump else Walk(Animation.FrameIndex(b.cursor))
  }

  /** Jump input: with space held and the feet on the ground, the velocity becomes JumpVelocity. */
  function Input(b: Body, space: bool): Body
  {
    if space && b.rect.Bottom() >= Ground then b.(gravity := JumpVelocity) else b
  }

  /** Gravity: the velocity grows by one, the player moves by it, and the ground stops the fall. */
  function Gravity(b: Body): (r: Body)
    ensures r.gravity == b.gravity + 1
    ensures r.rect.x == b.rect.x && r.rect.w == b.rect.w && r.rect.h == b.rect.h
    ensures r.rect.Bottom() <= Ground
    ensures b.rect.Bottom() + r.gravity >= Ground ==> r.rect.Bottom() == Ground
    ensures b.rect.Bottom() + r.gravity < Ground ==> r.rect.y == b.rect.y + r.gravity
    ensures r.cursor == b.cursor && r.image == b.image
  {
    var v := b.gravity + 1;
    var moved := b.rect.(y := b.rect.y + v);
    b.(gravity := v, rect := if moved.Bottom() >= Ground then moved.WithBottom(Ground) else moved)
  }

  /** Animation: the jump frame while airborne; on the ground the walk cursor ticks and picks a walk frame. */
  function Animate(b: Body): (r: Body)
    ensures r.rect == b.rect && r.gravity == b.gravity
    ensures b.rect.Bottom() < Ground ==> r.image == Jump && r.cursor == b.cursor
    ensures b.rect.Bottom() >= Ground ==> r.cursor == (b.cursor + 1) % Animation.Period
    ensures b.rect.Bottom() >= Ground ==> r.image.Walk? && r.image.index < Animation.FrameCount
    ensures Shows(r)
  {
    if b.rect.Bottom() < Ground then
      b.(image := Jump)
    else
      var c := Animation.Advance(b.cursor);
      b.(cursor := c, image := Walk(Animation.FrameIndex(c)))
  }

  /** One frame of the player: input, then gravity, then animation. */
  function Step(b: Body, space: bool): Body
  {
    Animate(Gravity(Input(b, space)))
  }

  /** Successive frames, `spaces[i]` telling whether space is held during frame i. */
  function Steps(b: Body, spaces: seq<bool>): Body
  {
    if spaces == [] then b else Step(Steps(b, spaces[..|spaces| - 1]), spaces[|spaces| - 1])
  }

  /** In the air the input does nothing: there is no second jump. */
  lemma NoMidAirJump(b: Body, space: bool)
    requires b.rect.Bottom() < Ground
    ensures Input(b, space) == b
  {
  }

  /** Input changes the velocity only to start a jump, and only from the ground with space held. */
  lemma JumpGate(b: Body, space: bool)
    ensures Input(b, space).rect == b.rect && Input(b, space).cursor == b.cursor && Input(b, space).image == b.image
    ensures Input(b, space).gravity != b.gravity ==> space && b.rect.Bottom() >= Ground
    ensures space && b.rect.Bottom() >= Ground ==> Input(b, space).gravity == JumpVelocity
  {
  }

  /** Landing does not reset the velocity: it keeps growing by one per frame on the ground. */
  lemma VelocityNotResetOnLanding(b: Body)
    requires b.rect.Bottom() == Ground && b.gravity >= 0
    ensures Step(b, false).gravity == b.gravity + 1
    ensures Step(b, false).rect.Bottom() == Ground
  {
  }

  /** Space held on the ground lifts the player off in that same frame, 19 pixels up, showing the jump frame. */
  lemma JumpLiftsOff(b: Body)
    requires b.rect.Bottom() == Ground
    ensures Step(b, true).gravity == JumpVelocity + 1
    ensures Step(b, true).rect.Bottom() == Ground + JumpVelocity + 1
    ensures Step(b, true).image == Jump
  {
  }

  /** A frame keeps the player non-empty and not below the ground, with its image matching its position. */
  lemma StepGrounded(b: Body, space: bool)
    requires b.rect.NonEmpty()
    ensures Grounded(Step(b, space)) && Shows(Step(b, space))
  {
  }

  /**
   * However many frames run and whatever the input, the player's bottom never goes below the
   * ground line, and the image shown matches the position.
   */
  lemma {:induction false} StepsStayGrounded(b: Body, spaces: seq<bool>)
    requires Grounded(b)
    ensures Grounded(Steps(b, spaces))
    ensures spaces != [] ==> Shows(Steps(b, spaces))
  {
    if spaces != [] {
      StepsStayGrounded(b, spaces[..|spaces| - 1]);
      StepGrounded(Steps(b, spaces[..|spaces| - 1]), spaces[|spaces| - 1]);
    }
  }

  /** The player sprite, updated in place once per running frame. */
  class Player {
    var rect: Rect
    var gravity: int
    var index: Animation.Cursor
    var image: Image

    /** The player's current state as a value. */
    function State(): Body
      reads this
    {
      Body(rect, gravity, index, image)
    }

    ghost predicate Valid()
      reads this
    {
      Grounded(State())
    }

    /** A player of the given image size standing on the ground at x = StartX, showing walk frame 0. */
    constructor (w: int, h: int)
      requires w > 0 && h > 0
      ensures Valid() && Shows(State())
      ensures rect == AtMidbottom(StartX, Ground, w, h)
      ensures gravity == 0 && index == 0 && image == Walk(0)
    {
      rect := AtMidbottom(StartX, Ground, w, h);
      gravity := 0;
      index := 0;
      image := Walk(0);
    }

    /** Jump if space is held and the feet are on the ground. */
    method PlayerInput(space: bool)
      requires Valid()
      modifies this`gravity
      ensures Valid()
      ensures State() == Input(old(State()), space)
      ensures gravity == if space && rect.Bottom() >= Ground then JumpVelocity else old(gravity)
    {
      if space && rect.Bottom() >= Ground {
        gravity := JumpVelocity;
      }
    }

    /** Accelerate downwards by one, move, and clamp the bottom to the ground. */
    method ApplyGravity()
      requires Valid()
      modifies this`gravity, this`rect
      ensures Valid()
      ensures State() == Gravity(old(State()))
    {
      gravity := gravity + 1;
      rect := rect.(y := rect.y + gravity);
      if rect.Bottom() >= Ground {
        rect := rect.WithBottom(Ground);
      }
    }

    /** Pick the jump frame in the air, or tick the walk cursor and pick a walk frame on the ground. */
    method AnimationState()
      requires Valid()
      modifies this`index, this`image
      ensures Valid() && Shows(State())
      ensures State() == Animate(old(State()))
    {
      if rect.Bottom() < Ground {
        image := Jump;
      } else {
        index := Animation.Advance(index);
        image := Walk(Animation.FrameIndex(index));
      }
    }

    /** One frame of the player, in the fixed order input, gravity, animation. */
    method Update(space: bool)
      requires Valid()
      modifies this
      ensures Valid() && Shows(State())
      ensures State() == Step(old(State()), space)
    {
      PlayerInput(space);
      ApplyGravity();
      AnimationState();
    }
  }
}
