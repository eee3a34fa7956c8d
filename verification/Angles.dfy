/** Comparison of level-line angles (lsd.cpp: isaligned, angle_diff, angle_diff_signed). */
module Angles {
  import opened MathLib

  /** Label of pixels whose gradient is not defined. */
  const NOTDEF: real := -1024.0

  /** The test of isaligned on the angle `a` of a pixel: at most one wrap, taken only past 3pi/2. */
  predicate IsAligned(a: real, theta: real, prec: real) {
    if a == NOTDEF then
      false
    else
      var d := Abs(theta - a);
      var d := if d > THREE_HALVES_PI then Abs(d - TWO_PI) else d;
      d <= prec
  }

  /** The representative of `d` modulo TWO_PI in the half-open window (PI - TWO_PI, PI]. */
  function Wrap(d: real): (r: real)
    ensures PI - TWO_PI < r <= PI
    ensures exists k: int :: Turns(d, r, k)
  {
    var k := Ceil((d - PI) / TWO_PI);
    WrapWindow(d, k);
    assert Turns(d, d - k as real * TWO_PI, -k);
    d - k as real * TWO_PI
  }

  /** `r` is `d` after `k` additions of TWO_PI. */
  ghost predicate Turns(d: real, r: real, k: int) {
    r == d + k as real * TWO_PI
  }

  lemma WrapWindow(d: real, k: int)
    requires k == Ceil((d - PI) / TWO_PI)
    ensures PI - TWO_PI < d - k as real * TWO_PI <= PI
  {
    var q := (d - PI) / TWO_PI;
    assert q * TWO_PI == d - PI;
    MulMono(q, k as real, TWO_PI);
    MulMonoStrict(k as real - 1.0, q, TWO_PI);
  }

  /** The window holds one representative only. */
  lemma WrapUnique(d: real, r: real, k: int)
    requires Turns(d, r, k)
    requires PI - TWO_PI < r <= PI
    ensures r == Wrap(d)
  {
    var c := Ceil((d - PI) / TWO_PI);
    WrapWindow(d, c);
    var n := k + c;
    assert r - Wrap(d) == n as real * TWO_PI;
    if n >= 1 {
      MulMono(1.0, n as real, TWO_PI);
    } else if n <= -1 {
      MulMono(n as real, -1.0, TWO_PI);
    }
  }

  /** Difference of two directions: full turns are added and taken away one by one. */
  method AngleDiffSigned(a0: real, b: real) returns (a: real)
    ensures a == Wrap(a0 - b)
  {
    a := a0 - b;
    ghost var k := 0;
    while a <= -PI
      invariant Turns(a0 - b, a, k)
      invariant k > 0 ==> a <= TWO_PI - PI
      decreases -a
    {
      a := a + TWO_PI;
      k := k + 1;
    }
    while a > PI
      invariant Turns(a0 - b, a, k)
      invariant a > PI - TWO_PI
      decreases a
    {
      a := a - TWO_PI;
      k := k - 1;
    }
    WrapUnique(a0 - b, a, k);
  }

  /** The size of that difference, without its sign. */
  method AngleDiff(a0: real, b: real) returns (a: real)
    ensures a == Abs(Wrap(a0 - b))
  {
    a := AngleDiffSigned(a0, b);
    if a < 0.0 {
      a := -a;
    }
  }

  /** The angles a pixel can carry, and the angles a rectangle can carry: get_theta returns an
      atan2 value, to which PI may have been added. */
  predicate PixelAngle(a: real) { -PI <= a <= PI }
  predicate RectAngle(theta: real) { -PI <= theta <= 2.0 * PI }

  /** The one-wrap test and the fully normalised difference give the same verdict. */
  ghost predicate Agree(a: real, theta: real, prec: real) {
    IsAligned(a, theta, prec) <==> Abs(Wrap(theta - a)) <= prec
  }

  /** What the normalisation amounts to on the differences that occur. */
  lemma WrapCases(x: real)
    requires -2.0 * PI <= x <= 3.0 * PI
    ensures Wrap(x) == if x <= PI - TWO_PI then x + TWO_PI else if x <= PI then x else x - TWO_PI
  {
    if x <= PI - TWO_PI {
      WrapUnique(x, x + TWO_PI, 1);
    } else if x <= PI {
      WrapUnique(x, x, 0);
    } else {
      WrapUnique(x, x - TWO_PI, -1);
    }
  }

  /** On the angles that occur, isaligned agrees with angle_diff for a tolerance below the gap
      between the two literals (about pi/2), and again from THREE_HALVES_PI on. */
  lemma OneWrapSuffices(a: real, theta: real, prec: real)
    requires PixelAngle(a) && RectAngle(theta)
    requires 0.0 <= prec < TWO_PI - THREE_HALVES_PI || prec >= THREE_HALVES_PI
    ensures Agree(a, theta, prec)
  {
    WrapCases(theta - a);
  }

  /** ... and for no tolerance in between: a difference of exactly THREE_HALVES_PI is not wrapped. */
  lemma OneWrapFails(prec: real)
    requires TWO_PI - THREE_HALVES_PI <= prec < THREE_HALVES_PI
    ensures RectAngle(THREE_HALVES_PI) && !Agree(0.0, THREE_HALVES_PI, prec)
  {
    WrapCases(THREE_HALVES_PI);
  }

  /** The exact range of tolerances for which the shortcut of isaligned is sound. */
  lemma OneWrapExactly(prec: real)
    requires prec >= 0.0
    ensures (forall a, theta | PixelAngle(a) && RectAngle(theta) :: Agree(a, theta, prec))
            <==> (prec < TWO_PI - THREE_HALVES_PI || prec >= THREE_HALVES_PI)
  {
    if prec < TWO_PI - THREE_HALVES_PI || prec >= THREE_HALVES_PI {
      forall a, theta | PixelAngle(a) && RectAngle(theta)
        ensures Agree(a, theta, prec)
      {
        OneWrapSuffices(a, theta, prec);
      }
    } else {
      OneWrapFails(prec);
      assert PixelAngle(0.0);
    }
  }
}
