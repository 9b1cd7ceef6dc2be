/**
 Sampling an angle from the circle with one angular interval cut out
 (`random_angle_with_cut` in main.py). The random draw is an argument:
 `u` is the value Python's `random()` returned, so `uniform(0, t)` is `t * u`.
 */
module AngleCut {
  import opened Angles
  import opened Results

  /** The two `ValueError`s the sampler raises. */
  datatype CutError =
    | NonPositiveLength    // length <= 0
    | NotShorterThanTurn   // length >= 2π

  /**
   `a` lies in the cut that starts at `start` and extends `length` radians in
   the direction angles increase: its offset past `start`, taken modulo a full
   turn, is below `length`.
   */
  predicate InCut(start: real, length: real, a: real) {
    Mod2Pi(a - start) < length
  }

  /**
   The length of the range the draw is scaled to (`total_length`), computed
   branch by branch as the program does; it is always the complement of the cut.
   */
  function AllowedLength(start: real, length: real): (total: real)
    requires 0.0 < length < TwoPi
    ensures total == TwoPi - length
  {
    var s := Mod2Pi(start);
    var end := s + length;
    if end > TwoPi then
      ModOfSecondTurn(end);
      s - Mod2Pi(end)
    else
      s + (TwoPi - end)
  }

  /**
   Where a draw `rv` from `[0, total_length)` lands: the wrap-around branch
   offsets it from the wrapped end of the cut; the straight branch spends the
   first `start` radians before the cut and the rest after it.
   */
  function PlaceDraw(start: real, length: real, rv: real): (a: real)
    requires 0.0 < length < TwoPi
    requires 0.0 <= rv < AllowedLength(start, length)
    ensures 0.0 <= a < TwoPi
    ensures !InCut(start, length, a)
  {
    var s := Mod2Pi(start);
    var end := s + length;
    var angle :=
      if end > TwoPi then
        ModOfSecondTurn(end);
        Mod2Pi(end) + rv
      else if rv < s then
        rv
      else
        end + (rv - s);
    ModOfInRange(angle);
    InCutIntervals(start, length, angle);
    Mod2Pi(angle)
  }

  /**
   The sampler. It fails exactly for the lengths it rejects, and otherwise
   returns an angle in [0, 2π) outside the cut: not in `[s, s + length)` for
   `s = start mod 2π` and, when the cut wraps past 2π, not in the wrapped part
   `[0, s + length - 2π)` either.
   */
  function RandomAngleWithCut(start: real, length: real, u: real): (res: Result<real, CutError>)
    requires 0.0 <= u < 1.0
    ensures res.Err? <==> length <= 0.0 || length >= TwoPi
    ensures res.Err? ==> res.error == (if length <= 0.0 then NonPositiveLength else NotShorterThanTurn)
    ensures res.Ok? ==> 0.0 <= res.value < TwoPi
    ensures res.Ok? ==>
              var s := Mod2Pi(start);
              && !(s <= res.value < s + length)
              && (s + length > TwoPi ==> !(res.value < s + length - TwoPi))
    ensures res.Ok? ==> !InCut(start, length, res.value)
  {
    if length <= 0.0 then
      Err(NonPositiveLength)
    else if length >= TwoPi then
      Err(NotShorterThanTurn)
    else
      var rv := Uniform(AllowedLength(start, length), u);
      PlaceDrawOutsideCut(start, length, rv);
      Ok(PlaceDraw(start, length, rv))
  }

  /**
   For an angle already in [0, 2π), membership in the cut is exactly
   membership in one of the two intervals the program reasons about.
   */
  lemma InCutIntervals(start: real, length: real, a: real)
    requires 0.0 < length < TwoPi
    requires 0.0 <= a < TwoPi
    ensures var s := Mod2Pi(start);
            InCut(start, length, a) <==>
              (s <= a < s + length) || (s + length > TwoPi && a < s + length - TwoPi)
  {
    var s := Mod2Pi(start);
    ModOfDifference(a, start);
    ModOfInRange(a);
    if a >= s {
      ModOfInRange(a - s);
    } else {
      ModOfPreviousTurn(a - s);
    }
  }

  /** Every draw lands in [0, 2π) and outside the cut. */
  lemma PlaceDrawOutsideCut(start: real, length: real, rv: real)
    requires 0.0 < length < TwoPi
    requires 0.0 <= rv < AllowedLength(start, length)
    ensures var a := PlaceDraw(start, length, rv);
            var s := Mod2Pi(start);
            && 0.0 <= a < TwoPi
            && !(s <= a < s + length)
            && (s + length > TwoPi ==> !(a < s + length - TwoPi))
            && !InCut(start, length, a)
  {
    var a := PlaceDraw(start, length, rv);
    InCutIntervals(start, length, a);
  }

  /**
   Every angle in [0, 2π) outside the cut is produced by some draw: the
   sampler covers the whole complement of the cut.
   */
  lemma EveryAllowedAngleIsReachable(start: real, length: real, a: real)
    requires 0.0 < length < TwoPi
    requires 0.0 <= a < TwoPi && !InCut(start, length, a)
    ensures exists u :: 0.0 <= u < 1.0 && RandomAngleWithCut(start, length, u) == Ok(a)
  {
    InCutIntervals(start, length, a);
    var s := Mod2Pi(start);
    var end := s + length;
    var total := AllowedLength(start, length);
    var rv;
    if end > TwoPi {
      ModOfSecondTurn(end);
      rv := a - Mod2Pi(end);
    } else if a < s {
      rv := a;
    } else {
      rv := a - length;
    }
    assert 0.0 <= rv < total;
    var u := rv / total;
    DivMul(rv, total);
    DivBounds(rv, total);
    assert Uniform(total, u) == rv;
    ModOfInRange(a);
    assert PlaceDraw(start, length, rv) == a;
    assert RandomAngleWithCut(start, length, u) == Ok(a);
  }

  /** Dividing a value in [0, t) by `t > 0` gives a value in [0, 1). */
  lemma DivBounds(x: real, t: real)
    requires 0.0 <= x < t
    ensures 0.0 <= x / t < 1.0
  {
    DivMul(x, t);
    ProductSign(x / t, t);
  }

  /** Sign facts of `q * t` for `t > 0`. */
  lemma ProductSign(q: real, t: real)
    requires t > 0.0
    ensures q < 0.0 ==> q * t < 0.0
    ensures q >= 1.0 ==> q * t >= t
  {
    if q < 0.0 {
      MulPos(-q, t);
    }
    if q >= 1.0 {
      MulNonNeg(q - 1.0, t);
      Distrib(q, 1.0, t);
    }
  }

  /**
   Distinct draws give distinct angles, so together with
   `EveryAllowedAngleIsReachable` the sampler is a one-to-one map from [0, 1)
   onto the complement of the cut.
   */
  lemma DistinctDrawsGiveDistinctAngles(start: real, length: real, u1: real, u2: real)
    requires 0.0 < length < TwoPi
    requires 0.0 <= u1 < 1.0 && 0.0 <= u2 < 1.0
    requires u1 != u2
    ensures RandomAngleWithCut(start, length, u1) != RandomAngleWithCut(start, length, u2)
  {
    var total := AllowedLength(start, length);
    UniformInjective(total, u1, u2);
    PlaceDrawInjective(start, length, Uniform(total, u1), Uniform(total, u2));
  }

  /** Distinct draws from the scaled range land on distinct angles. */
  lemma PlaceDrawInjective(start: real, length: real, rv1: real, rv2: real)
    requires 0.0 < length < TwoPi
    requires 0.0 <= rv1 < AllowedLength(start, length)
    requires 0.0 <= rv2 < AllowedLength(start, length)
    requires rv1 != rv2
    ensures PlaceDraw(start, length, rv1) != PlaceDraw(start, length, rv2)
  {
    PlaceDrawInTurn(start, length, rv1);
    PlaceDrawInTurn(start, length, rv2);
  }

  /** `uniform(0, t)` maps distinct `random()` values to distinct draws. */
  lemma UniformInjective(t: real, u1: real, u2: real)
    requires t > 0.0
    requires 0.0 <= u1 < 1.0 && 0.0 <= u2 < 1.0
    requires u1 != u2
    ensures Uniform(t, u1) != Uniform(t, u2)
  {
    ScaleInjective(t, u1, u2);
  }

  /** Scaling by a positive factor keeps distinct values distinct. */
  lemma ScaleInjective(t: real, u1: real, u2: real)
    requires t > 0.0 && u1 != u2
    ensures t * u1 != t * u2
  {
    Distrib(u1, u2, t);
    if u1 > u2 {
      MulPos(u1 - u2, t);
    } else {
      MulPos(u2 - u1, t);
    }
  }

  /** Before the final reduction, a draw already lies in [0, 2π) and is kept as is. */
  lemma PlaceDrawInTurn(start: real, length: real, rv: real)
    requires 0.0 < length < TwoPi
    requires 0.0 <= rv < AllowedLength(start, length)
    ensures var s := Mod2Pi(start);
            var end := s + length;
            PlaceDraw(start, length, rv) ==
              if end > TwoPi then end - TwoPi + rv
              else if rv < s then rv
              else rv + length
  {
    var s := Mod2Pi(start);
    var end := s + length;
    if end > TwoPi {
      ModOfSecondTurn(end);
      ModOfInRange(Mod2Pi(end) + rv);
    } else if rv < s {
      ModOfInRange(rv);
    } else {
      ModOfInRange(end + (rv - s));
    }
  }
}
