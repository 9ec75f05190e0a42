/**
 * The frame cursor shared by the player's walk cycle and the obstacles' two-frame cycle.
 * The cursor advances by one tenth per call and wraps to zero once it reaches the number
 * of frames; it is held here as a whole number of tenths.
 */
module Animation {

  /** Every animated sprite in the game cycles through two images. */
  const FrameCount := 2

  /** Tenths in one full cycle: the cursor wraps when it reaches FrameCount. */
  const Period := 10 * FrameCount

  /** A cursor value in tenths, always below the wrap point. */
  type Cursor = c: int | 0 <= c < Period

  /** One animation tick: add a tenth, and restart at zero on reaching the frame count. */
  function Advance(c: Cursor): (d: Cursor)
    ensures d == (c + 1) % Period
    ensures d == 0 <==> c == Period - 1
  {
    if c + 1 >= Period then 0 else c + 1
  }

  /** The image shown for a cursor: its whole part, always a valid index into the two frames. */
  function FrameIndex(c: Cursor): (i: nat)
    ensures i < FrameCount
    ensures i == 0 <==> c < 10
  {
    c / 10
  }

  /** `n` ticks in a row, starting from `c`. */
  function AdvanceN(c: Cursor, n: nat): Cursor
  {
    if n == 0 then c else Advance(AdvanceN(c, n - 1))
  }

  /** After n ticks the cursor is the starting cursor plus n tenths, taken modulo the cycle. */
  lemma {:induction false} AdvanceNIsModular(c: Cursor, n: nat)
    ensures AdvanceN(c, n) == (c + n) % Period
  {
    if n > 0 {
      AdvanceNIsModular(c, n - 1);
      ModSucc(c + n - 1);
    }
  }

  /** Adding one to a number adds one to its remainder, wrapping at the cycle length. */
  lemma ModSucc(m: nat)
    ensures (m + 1) % Period == if m % Period + 1 == Period then 0 else m % Period + 1
  {
    var q, r := m / Period, m % Period;
    assert m == Period * q + r;
    if r + 1 < Period {
      assert m + 1 == Period * q + (r + 1);
    } else {
      assert m + 1 == Period * (q + 1);
    }
  }
}
