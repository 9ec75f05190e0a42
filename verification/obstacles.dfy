/**
 * Obstacles: flies and snails spawned off the right edge of the screen, scrolling left by a
 * fixed speed and dropping out of their group once fully past the left edge.
 */
module Obstacles {
  import opened Geometry
  import Animation

  datatype Kind = Fly | Snail

  /** Horizontal scroll per frame, in pixels. */
  const Speed := 5

  /** The inclusive range of spawn x coordinates (of the bottom-edge midpoint). */
  const SpawnMin := 900
  const SpawnMax := 1100

  /** The type name "fly" makes a fly; any other name makes a snail. */
  function KindOf(types: string): Kind
  {
    if types == "fly" then Fly else Snail
  }

  /** The y coordinate a kind of obstacle rests its bottom on: flies hover, snails crawl on the ground. */
  function BaseLine(k: Kind): int
  {
    match k
    case Fly => 200
    case Snail => 300
  }

  /** An obstacle is off screen, and leaves its group, once its right edge is at or left of x = 0. */
  predicate OffScreen(r: Rect)
  {
    r.Right() <= 0
  }

  /** Where a new obstacle of the given type appears: bottom on its kind's base line, midpoint at x. */
  function SpawnRect(types: string, x: int, w: int, h: int): (r: Rect)
    requires SpawnMin <= x <= SpawnMax && w > 0 && h > 0
    ensures r.NonEmpty() && r.w == w && r.h == h
    ensures r.Bottom() == (if types == "fly" then 200 else 300)
    ensures SpawnMin <= r.CenterX() <= SpawnMax
  {
    AtMidbottom(x, BaseLine(KindOf(types)), w, h)
  }

  /** The rectangle one scroll step further left. */
  function Scrolled(r: Rect): Rect
  {
    r.(x := r.x - Speed)
  }

  /** One obstacle sprite, updated in place once per running frame. */
  class Obstacle {
    const kind: Kind
    var rect: Rect
    var index: Animation.Cursor
    var image: nat

    ghost predicate Valid()
      reads this
    {
      rect.NonEmpty() && image == Animation.FrameIndex(index)
    }

    /** A new obstacle of the named type at spawn x coordinate `x`, showing its first frame. */
    constructor (types: string, x: int, w: int, h: int)
      requires SpawnMin <= x <= SpawnMax && w > 0 && h > 0
      ensures Valid()
      ensures kind == KindOf(types) && rect == SpawnRect(types, x, w, h)
      ensures index == 0 && image == 0
    {
      kind := KindOf(types);
      index := 0;
      image := 0;
      rect := AtMidbottom(x, BaseLine(KindOf(types)), w, h);
    }

    /** Tick the frame cursor and pick the frame it points at. */
    method AnimationState()
      requires Valid()
      modifies this`index, this`image
      ensures Valid()
      ensures index == Animation.Advance(old(index))
    {
      index := Animation.Advance(index);
      image := Animation.FrameIndex(index);
    }

    /** Whether this obstacle removes itself from its group. */
    method Destroy() returns (killed: bool)
      ensures killed <==> OffScreen(rect)
    {
      killed := OffScreen(rect);
    }

    /** Animate, scroll left by Speed, then report whether the obstacle is now off screen. */
    method Update() returns (killed: bool)
      requires Valid()
      modifies this`rect, this`index, this`image
      ensures Valid()
      ensures rect == Scrolled(old(rect)) && index == Animation.Advance(old(index))
      ensures killed <==> OffScreen(rect)
    {
      AnimationState();
      rect := Scrolled(rect);
      killed := Destroy();
    }
  }

  /** No obstacle occurs twice. */
  predicate Distinct(s: seq<Obstacle>)
  {
    forall i, j :: 0 <= i < j < |s| ==> s[i] != s[j]
  }

  /** The obstacles of `s`, in order, that are still on screen (right edge past x = 0). */
  function Survivors(s: seq<Obstacle>): seq<Obstacle>
    reads s
  {
    if s == [] then []
    else
      var last := s[|s| - 1];
      Survivors(s[..|s| - 1]) + if OffScreen(last.rect) then [] else [last]
  }

  /** The members of `s` whose flag in `gone` is unset, in order. */
  function Keep(s: seq<Obstacle>, gone: seq<bool>): seq<Obstacle>
    requires |gone| == |s|
  {
    if s == [] then []
    else Keep(s[..|s| - 1], gone[..|s| - 1]) + if gone[|s| - 1] then [] else [s[|s| - 1]]
  }

  /** Dropping exactly the members flagged as off screen leaves the survivors. */
  lemma {:induction false} KeepSurvivors(s: seq<Obstacle>, gone: seq<bool>)
    requires |gone| == |s|
    requires forall j :: 0 <= j < |s| ==> (gone[j] <==> OffScreen(s[j].rect))
    ensures Keep(s, gone) == Survivors(s)
  {
    if s != [] {
      KeepSurvivors(s[..|s| - 1], gone[..|s| - 1]);
    }
  }

  /** The survivors are exactly the members on screen, none repeated if none was. */
  lemma {:induction false} SurvivorsSpec(s: seq<Obstacle>)
    ensures forall i :: 0 <= i < |Survivors(s)| ==> Survivors(s)[i] in s && !OffScreen(Survivors(s)[i].rect)
    ensures forall i :: 0 <= i < |s| && !OffScreen(s[i].rect) ==> s[i] in Survivors(s)
    ensures |Survivors(s)| <= |s|
    ensures Distinct(s) ==> Distinct(Survivors(s))
  {
    if s != [] {
      var init := s[..|s| - 1];
      SurvivorsSpec(init);
      assert forall i :: 0 <= i < |s| - 1 ==> init[i] == s[i];
    }
  }

  /**
   * Filtering works piecewise and keeps the order: the survivors of a concatenation are the
   * survivors of the first part followed by those of the second.
   */
  lemma {:induction false} SurvivorsConcat(a: seq<Obstacle>, b: seq<Obstacle>)
    ensures Survivors(a + b) == Survivors(a) + Survivors(b)
  {
    if b != [] {
      var init := b[..|b| - 1];
      SurvivorsConcat(a, init);
      assert (a + b)[..|a + b| - 1] == a + init;
    } else {
      assert a + b == a;
    }
  }

  /** Filtering keeps a group of distinct, well-formed obstacles distinct and well-formed. */
  lemma SurvivorsValid(s: seq<Obstacle>)
    requires Distinct(s) && forall o :: o in s ==> o.Valid()
    ensures Distinct(Survivors(s)) && forall o :: o in Survivors(s) ==> o.Valid()
  {
    SurvivorsSpec(s);
    forall o | o in Survivors(s)
      ensures o.Valid()
    {
      var k :| 0 <= k < |Survivors(s)| && Survivors(s)[k] == o;
    }
  }

  /** The obstacles on screen; pygame's sprite group. */
  class ObstacleGroup {
    var members: seq<Obstacle>

    ghost predicate Valid()
      reads this, members
    {
      Distinct(members) && forall o :: o in members ==> o.Valid()
    }

    constructor ()
      ensures Valid() && members == []
    {
      members := [];
    }

    /** Add an obstacle; one already in the group is not added again. */
    method Add(o: Obstacle)
      requires Valid() && o.Valid()
      modifies this
      ensures Valid()
      ensures members == if o in old(members) then old(members) else old(members) + [o]
    {
      if o !in members {
        members := members + [o];
      }
    }

    /** Remove every obstacle. */
    method Empty()
      modifies this
      ensures Valid() && members == []
    {
      members := [];
    }

    /**
     * Update every member once; a member that ends up off screen leaves the group. The
     * update of one member touches no other member.
     */
    method UpdateAll()
      requires Valid()
      modifies this, members
      ensures Valid()
      ensures forall j :: 0 <= j < |old(members)| ==>
        old(members)[j].rect == Scrolled(old(members[j].rect)) &&
        old(members)[j].index == Animation.Advance(old(members[j].index))
      ensures members == Survivors(old(members))
    {
      var all := members;
      var kept := [];
      ghost var gone := [];
      var i := 0;
      while i < |all|
        invariant 0 <= i <= |all| && members == all && Distinct(all)
        invariant forall j :: 0 <= j < |all| ==>
          all[j].Valid() &&
          all[j].rect == (if j < i then Scrolled(old(all[j].rect)) else old(all[j].rect)) &&
          all[j].index == (if j < i then Animation.Advance(old(all[j].index)) else old(all[j].index))
        invariant |gone| == i && kept == Keep(all[..i], gone)
        invariant forall j :: 0 <= j < i ==> (gone[j] <==> OffScreen(all[j].rect))
      {
        var o := all[i];
        var killed := o.Update();
        if !killed {
          kept := kept + [o];
        }
        assert all[..i + 1][..i] == all[..i];
        gone := gone + [killed];
        i := i + 1;
      }
      assert all[..i] == all;
      KeepSurvivors(all, gone);
      SurvivorsValid(all);
      members := kept;
    }
  }
}
