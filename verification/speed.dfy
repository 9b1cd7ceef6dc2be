/**
 The global speed multiplier (`Sprite.speed_mult`) and the mouse-wheel rule
 that adjusts it.
 */
module Speed {
  import opened Reals

  const MinMult: real := 0.1
  const MaxMult: real := 3.0
  /** The value a mode key or a middle click restores. */
  const NeutralMult: real := 1.0

  predicate InRange(mult: real) {
    MinMult <= mult <= MaxMult
  }

  /**
   One wheel event of `y` notches: `min(max(mult + 0.1 * y, 0.1), 3)`. The
   result is always in range; it is the plain sum when that is in range, and
   otherwise the nearer bound.
   */
  function Scroll(mult: real, y: int): (r: real)
    ensures InRange(r)
    ensures InRange(mult + 0.1 * y as real) ==> r == mult + 0.1 * y as real
    ensures mult + 0.1 * y as real < MinMult ==> r == MinMult
    ensures mult + 0.1 * y as real > MaxMult ==> r == MaxMult
  {
    RealMin(RealMax(mult + 0.1 * y as real, MinMult), MaxMult)
  }

  /** A run of wheel events, applied in order. */
  function Scrolls(mult: real, ys: seq<int>): real
    decreases |ys|
  {
    if ys == [] then mult else Scrolls(Scroll(mult, ys[0]), ys[1..])
  }

  /** However many wheel events occur, the multiplier stays in [0.1, 3] (after the first, whatever it started at). */
  lemma {:induction false} ScrollsStayInRange(mult: real, ys: seq<int>)
    requires InRange(mult) || |ys| > 0
    ensures InRange(Scrolls(mult, ys))
    decreases |ys|
  {
    if ys != [] {
      ScrollsStayInRange(Scroll(mult, ys[0]), ys[1..]);
    }
  }

  /**
   Each upward notch raises the multiplier by at least 0.1 until it reaches
   the cap: after `n` of them it is at least the start plus `0.1 * n`, capped
   at 3, and never below `0.1 * n`, capped at 3, whatever the start was.
   */
  lemma {:induction false} ScrollUpsClimb(mult: real, ys: seq<int>)
    requires |ys| > 0
    requires forall i :: 0 <= i < |ys| ==> ys[i] >= 1
    ensures Scrolls(mult, ys) >= RealMin(mult + 0.1 * |ys| as real, MaxMult)
    ensures Scrolls(mult, ys) >= RealMin(0.1 * |ys| as real, MaxMult)
    decreases |ys|
  {
    if |ys| > 1 {
      ScrollUpsClimb(mult, ys[..|ys| - 1]);
      ScrollsSnoc(mult, ys[..|ys| - 1], ys[|ys| - 1]);
      assert ys[..|ys| - 1] + [ys[|ys| - 1]] == ys;
    }
  }

  /** A run of wheel events followed by one more. */
  lemma {:induction false} ScrollsSnoc(mult: real, ys: seq<int>, y: int)
    ensures Scrolls(mult, ys + [y]) == Scroll(Scrolls(mult, ys), y)
    decreases |ys|
  {
    if ys == [] {
      assert ys + [y] == [y];
    } else {
      assert (ys + [y])[1..] == ys[1..] + [y];
      ScrollsSnoc(Scroll(mult, ys[0]), ys[1..], y);
    }
  }

  /** Thirty or more upward notches always end exactly at the cap 3, from any starting value. */
  lemma ScrollUpsSaturate(mult: real, ys: seq<int>)
    requires |ys| >= 30
    requires forall i :: 0 <= i < |ys| ==> ys[i] >= 1
    ensures Scrolls(mult, ys) == MaxMult
  {
    ScrollUpsClimb(mult, ys);
    ScrollsStayInRange(mult, ys);
  }
}
