/** The axis that get_theta chooses carries a positive spread, so the rectangle of a region
    has positive length (lsd.cpp: get_theta, region2rect). */
module PrincipalAxis {
  import opened MathLib
  import opened Pixels
  import opened Rectangle
  import opened Region
  import opened RegionRect

  /** The inertia seen along (dx,dy), as a quadratic form. */
  function SpreadForm(i: Inertia, dx: real, dy: real): real {
    i.yy * (dx * dx) - 2.0 * i.xy * (dx * dy) + i.xx * (dy * dy)
  }

  /** Weighted sum of the squared projections. */
  ghost function Spread(g: ImageDouble, s: seq<Point>, x: real, y: real, dx: real, dy: real): real
    requires InImage(g, s)
  {
    if s == [] then
      0.0
    else
      var e := s[|s| - 1];
      Spread(g, s[..|s| - 1], x, y, dx, dy) + Sqr(ProjAlong(e, x, y, dx, dy)) * g.At(e)
  }

  lemma {:induction false} SpreadIsForm(g: ImageDouble, s: seq<Point>, x: real, y: real, dx: real, dy: real)
    requires InImage(g, s)
    ensures Spread(g, s, x, y, dx, dy) == SpreadForm(InertiaOf(g, s, x, y), dx, dy)
  {
    hide SpreadForm, AddPoint, Sqr, ProjAlong;
    if s == [] {
      FormOfNothing(dx, dy);
    } else {
      var t, e := s[..|s| - 1], s[|s| - 1];
      SpreadIsForm(g, t, x, y, dx, dy);
      FormStep(InertiaOf(g, t, x, y), e, g.At(e), x, y, dx, dy);
    }
  }

  lemma FormOfNothing(dx: real, dy: real)
    ensures SpreadForm(Inertia(0.0, 0.0, 0.0), dx, dy) == 0.0
  {
  }

  lemma FormStep(i: Inertia, e: Point, w: real, x: real, y: real, dx: real, dy: real)
    ensures SpreadForm(AddPoint(i, e, w, x, y), dx, dy)
            == SpreadForm(i, dx, dy) + Sqr(ProjAlong(e, x, y, dx, dy)) * w
  {
    var a, b := e.x as real - x, e.y as real - y;
    FormAlgebra(i, a, b, w, dx, dy);
  }

  lemma FormAlgebra(i: Inertia, a: real, b: real, w: real, dx: real, dy: real)
    ensures SpreadForm(Inertia(i.xx + Sqr(b) * w, i.yy + Sqr(a) * w, i.xy - a * b * w), dx, dy)
            == SpreadForm(i, dx, dy) + Sqr(a * dx + b * dy) * w
  {
  }

  lemma {:induction false} NoProjectionNoSpread(g: ImageDouble, s: seq<Point>, x: real, y: real, dx: real, dy: real)
    requires InImage(g, s) && forall e | e in s :: ProjAlong(e, x, y, dx, dy) == 0.0
    ensures Spread(g, s, x, y, dx, dy) == 0.0
  {
    hide ProjAlong;
    if s != [] {
      NoProjectionNoSpread(g, s[..|s| - 1], x, y, dx, dy);
      assert s[|s| - 1] in s;
      assert Sqr(0.0) == 0.0;
    }
  }

  lemma DiscriminantNonNeg(i: Inertia)
    ensures Discriminant(i) >= 0.0
  {
    SqrLaw(i.xx - i.yy);
    SqrLaw(2.0 * i.xy);
    assert Sqr(2.0 * i.xy) == 4.0 * i.xy * i.xy;
  }

  /** Lambda solves the characteristic equation, and is at most half the trace. */
  lemma LambdaIsEigenvalue(m: Libm, i: Inertia)
    requires m.Lawful()
    ensures var l := Lambda(m, i);
            (l - i.xx) * (l - i.yy) == i.xy * i.xy && 2.0 * l <= i.xx + i.yy
  {
    var d2 := Discriminant(i);
    DiscriminantNonNeg(i);
    SqrtLaw(m, d2);
    Characteristic(i.xx, i.yy, i.xy, m.sqrt(d2), d2, Lambda(m, i));
  }

  lemma Characteristic(xx: real, yy: real, xy: real, d: real, d2: real, l: real)
    requires d2 == Sqr(xx - yy) + 4.0 * xy * xy && Sqr(d) == d2 && l == 0.5 * (xx + yy - d)
    ensures (l - xx) * (l - yy) == xy * xy
  {
    var h := yy - xx;
    assert l - xx == 0.5 * (h - d) && l - yy == 0.5 * (-h - d);
    assert (0.5 * (h - d)) * (0.5 * (-h - d)) == 0.25 * (d * d - h * h);
    assert h * h == Sqr(xx - yy);
  }

  /** Along an eigenvector the form is the other eigenvalue times the squared length. */
  lemma FormOnAxis(i: Inertia, l: real)
    requires (l - i.xx) * (l - i.yy) == i.xy * i.xy
    ensures SpreadForm(i, i.xy, l - i.xx) == Product(i.xx + i.yy - l, Sqr(i.xy) + Sqr(l - i.xx))
    ensures SpreadForm(i, l - i.yy, i.xy) == Product(i.xx + i.yy - l, Sqr(l - i.yy) + Sqr(i.xy))
  {
    FormOnAxisAlgebra(l - i.xx, l - i.yy, i.xy, l);
  }

  lemma FormOnAxisAlgebra(p: real, q: real, z: real, l: real)
    requires p * q == z * z
    ensures (l - q) * (z * z) - 2.0 * z * (z * p) + (l - p) * (p * p) == (l - p - q) * (z * z + p * p)
    ensures (l - q) * (q * q) - 2.0 * z * (q * z) + (l - p) * (z * z) == (l - p - q) * (q * q + z * z)
  {
    assert q * (p * p) == p * (p * q);
    assert p * (q * q) == q * (p * q);
    assert p * (z * z) == p * (p * q);
    assert q * (z * z) == q * (p * q);
  }

  /** Scaling the direction scales the form. */
  lemma FormScaled(i: Inertia, r: real, a: real, b: real, p: real, q: real)
    requires p == r * a && q == r * b
    ensures SpreadForm(i, p, q) == Sqr(r) * SpreadForm(i, a, b)
  {
    assert p * p == (r * r) * (a * a) && p * q == (r * r) * (a * b) && q * q == (r * r) * (b * b);
  }

  /** The chosen vector vanishes only for an isotropic region. */
  lemma ZeroAxis(m: Libm, i: Inertia)
    requires m.Lawful() && i.xx >= 0.0 && i.yy >= 0.0 && AxisVector(m, i) == (0.0, 0.0)
    ensures i.xy == 0.0 && i.xx == i.yy
  {
    LambdaIsEigenvalue(m, i);
  }

  lemma IsotropicForm(i: Inertia, dx: real, dy: real)
    requires i.xy == 0.0 && i.xx == i.yy && dx * dx + dy * dy == 1.0
    ensures SpreadForm(i, dx, dy) == i.xx
  {
    assert i.xx * (dx * dx) + i.xx * (dy * dy) == i.xx * (dx * dx + dy * dy);
  }

  /** The spread along the chosen axis is positive. */
  lemma AxisSpread(m: Libm, i: Inertia)
    requires m.Lawful() && i.xx >= 0.0 && i.yy >= 0.0 && i.xx + i.yy > 0.0
    ensures var t := AxisAngle(m, i); SpreadForm(i, m.cos(t), m.sin(t)) > 0.0
  {
    hide SpreadForm, Lambda, Sqr, AxisVector, AxisAngle;
    var t, v := AxisAngle(m, i), AxisVector(m, i);
    var a, b := m.cos(t), m.sin(t);
    if v == (0.0, 0.0) {
      ZeroAxis(m, i);
      UnitCircle(m, t);
      IsotropicForm(i, a, b);
    } else {
      var r := m.Norm(v.0, v.1);
      AxisPolar(m, i);
      FormScaled(i, r, a, b, v.0, v.1);
      FormOnVector(m, i);
      PositiveFactor(Sqr(r), SpreadForm(i, a, b), SpreadForm(i, v.0, v.1), r);
    }
  }

  /** The larger eigenvalue. */
  function Greatest(m: Libm, i: Inertia): real {
    i.xx + i.yy - Lambda(m, i)
  }

  /** A form with these coefficients is a square, up to a factor. */
  lemma SquareForm(p: real, z: real, q: real, a: real, b: real)
    requires p >= 0.0 && q >= 0.0 && p * q == z * z
    ensures p * (a * a) + 2.0 * z * (a * b) + q * (b * b) >= 0.0
  {
    var f := p * (a * a) + 2.0 * z * (a * b) + q * (b * b);
    if p > 0.0 {
      CompletedSquare(p, z, q, a, b);
      SqrLaw(p * a + z * b);
      if f < 0.0 {
        MulPos(p, -f);
      }
    } else {
      SqrLaw(z);
      SqrLaw(b);
      assert z == 0.0;
      MulNonNeg(q, Sqr(b));
    }
  }

  lemma CompletedSquare(p: real, z: real, q: real, a: real, b: real)
    requires p * q == z * z
    ensures p * (p * (a * a) + 2.0 * z * (a * b) + q * (b * b)) == Sqr(p * a + z * b)
  {
    assert p * (q * (b * b)) == (p * q) * (b * b);
  }

  /** No direction has more spread than the larger eigenvalue. */
  lemma SpreadAtMost(m: Libm, i: Inertia, a: real, b: real)
    requires m.Lawful() && a * a + b * b == 1.0
    ensures SpreadForm(i, a, b) <= Greatest(m, i)
  {
    hide Libm.Lawful;
    var l := Lambda(m, i);
    LambdaIsEigenvalue(m, i);
    hide Lambda;
    BothBelow(i.xx - l, i.yy - l, i.xy);
    SquareForm(i.xx - l, i.xy, i.yy - l, a, b);
    SpreadGap(i, l, a, b);
  }

  lemma BothBelow(p: real, q: real, z: real)
    requires p * q == z * z && p + q >= 0.0
    ensures p >= 0.0 && q >= 0.0
  {
    SqrLaw(z);
    if p < 0.0 {
      MulPos(-p, q);
    } else if q < 0.0 {
      MulPos(p, -q);
    }
  }

  lemma SpreadGap(i: Inertia, l: real, a: real, b: real)
    requires a * a + b * b == 1.0
    ensures (i.xx + i.yy - l) - SpreadForm(i, a, b)
            == (i.xx - l) * (a * a) + 2.0 * i.xy * (a * b) + (i.yy - l) * (b * b)
  {
    assert (i.xx + i.yy - l) * (a * a + b * b) == i.xx + i.yy - l;
  }

  /** The chosen axis reaches it. */
  lemma AxisReaches(m: Libm, i: Inertia)
    requires m.Lawful() && i.xx >= 0.0 && i.yy >= 0.0
    ensures var t := AxisAngle(m, i); SpreadForm(i, m.cos(t), m.sin(t)) == Greatest(m, i)
  {
    hide SpreadForm, Sqr, AxisVector, AxisAngle;
    var t, v := AxisAngle(m, i), AxisVector(m, i);
    var a, b := m.cos(t), m.sin(t);
    if v == (0.0, 0.0) {
      ZeroAxis(m, i);
      UnitCircle(m, t);
      IsotropicForm(i, a, b);
      IsotropicLambda(m, i);
    } else {
      var r := m.Norm(v.0, v.1);
      AxisPolar(m, i);
      FormScaled(i, r, a, b, v.0, v.1);
      UnitCircle(m, t);
      FormIsGreatest(m, i);
      SameFactor(r, a, b, v.0, v.1, SpreadForm(i, a, b), Greatest(m, i), SpreadForm(i, v.0, v.1));
    }
  }

  lemma IsotropicLambda(m: Libm, i: Inertia)
    requires m.Lawful() && i.xy == 0.0 && i.xx == i.yy
    ensures Greatest(m, i) == i.xx
  {
    assert Discriminant(i) == Sqr(0.0);
    SqrtOfSquare(m, 0.0);
  }

  lemma FormIsGreatest(m: Libm, i: Inertia)
    requires m.Lawful()
    ensures var v := AxisVector(m, i); SpreadForm(i, v.0, v.1) == Product(Greatest(m, i), Sqr(v.0) + Sqr(v.1))
  {
    hide SpreadForm, Lambda, Sqr, Product, Libm.Lawful;
    LambdaIsEigenvalue(m, i);
    FormOnAxis(i, Lambda(m, i));
  }

  lemma SameFactor(r: real, a: real, b: real, p: real, q: real, f: real, g: real, n: real)
    requires p == r * a && q == r * b && a * a + b * b == 1.0 && (p != 0.0 || q != 0.0)
    requires n == Sqr(r) * f && n == Product(g, Sqr(p) + Sqr(q))
    ensures f == g
  {
    assert Sqr(p) + Sqr(q) == Sqr(r) * (a * a + b * b);
    assert Sqr(r) * f == Sqr(r) * g;
    assert r != 0.0;
    SqrLaw(r);
    Cancel(Sqr(r), f, g);
  }

  /** Along the axis of a region's rectangle its pixels spread at least as far as in any other direction, in
      the sum of weighted squares: it is the axis of least inertia. */
  lemma AxisIsBest(m: Libm, g: ImageDouble, s: seq<Point>, regAngle: real, prec: real, p: real, rec: Rect,
                   dx: real, dy: real)
    requires m.Lawful() && Heavy(g, s) && Fits(m, g, s, regAngle, prec, p, rec) && dx * dx + dy * dy == 1.0
    ensures Spread(g, s, rec.x, rec.y, dx, dy) <= Spread(g, s, rec.x, rec.y, rec.dx, rec.dy)
  {
    hide SpreadForm, Spread, InertiaOf, Weight, MomentX, MomentY, IsTheta, AxisAngle, Greatest, HasExtent;
    var i := InertiaOf(g, s, rec.x, rec.y);
    InertiaPositive(g, s, rec.x, rec.y);
    AxisReaches(m, i);
    SpreadAtMost(m, i, dx, dy);
    FormHalfTurn(m, i, AxisAngle(m, i));
    ThetaCases(m, i, regAngle, prec, rec.theta);
    SpreadIsForm(g, s, rec.x, rec.y, rec.dx, rec.dy);
    SpreadIsForm(g, s, rec.x, rec.y, dx, dy);
  }

  lemma AxisPolar(m: Libm, i: Inertia)
    requires m.Lawful()
    ensures var t, v := AxisAngle(m, i), AxisVector(m, i);
            var r := m.Norm(v.0, v.1);
            v.0 == r * m.cos(t) && v.1 == r * m.sin(t)
  {
    hide AxisVector;
    var v := AxisVector(m, i);
    assert AxisAngle(m, i) == m.atan2(v.1, v.0);
    assert m.Polar(v.1, v.0);
  }

  lemma FormOnVector(m: Libm, i: Inertia)
    requires m.Lawful() && i.xx + i.yy > 0.0 && AxisVector(m, i) != (0.0, 0.0)
    ensures var v := AxisVector(m, i); SpreadForm(i, v.0, v.1) > 0.0
  {
    hide SpreadForm, Lambda, Sqr, Product, Libm.Lawful;
    var l, v := Lambda(m, i), AxisVector(m, i);
    LambdaIsEigenvalue(m, i);
    FormOnAxis(i, l);
    SqrLaw(v.0);
    SqrLaw(v.1);
    var a, b := i.xx + i.yy - l, Sqr(v.0) + Sqr(v.1);
    ProductPos(a, b, Product(a, b));
  }

  lemma PositiveFactor(k: real, f: real, n: real, r: real)
    requires n == k * f && n > 0.0 && k == Sqr(r)
    ensures f > 0.0
  {
    SqrLaw(r);
    if f <= 0.0 {
      MulNonNeg(k, -f);
    }
  }

  /** Half a turn does not change the spread. */
  lemma FormHalfTurn(m: Libm, i: Inertia, t: real)
    requires m.Lawful()
    ensures SpreadForm(i, m.cos(t + PI), m.sin(t + PI)) == SpreadForm(i, m.cos(t), m.sin(t))
  {
    assert m.HalfTurn(t);
    FormNegated(i, m.cos(t), m.sin(t));
  }

  lemma FormNegated(i: Inertia, dx: real, dy: real)
    ensures SpreadForm(i, -dx, -dy) == SpreadForm(i, dx, dy)
  {
  }

  /** The rectangle of two or more distinct pixels that carry weight has positive length. */
  lemma PositiveLength(m: Libm, g: ImageDouble, s: seq<Point>, regAngle: real, prec: real, p: real, rec: Rect)
    requires m.Lawful() && Heavy(g, s) && Distinct(s) && |s| >= 2
    requires Fits(m, g, s, regAngle, prec, p, rec)
    ensures rec.Length() > 0.0
  {
    hide SpreadForm, Spread, InertiaOf, Weight, MomentX, MomentY, IsTheta, AxisAngle;
    var i := InertiaOf(g, s, rec.x, rec.y);
    assert s[0] in s && s[1] in s && s[0] != s[1];
    InertiaPositive(g, s, rec.x, rec.y);
    AxisSpread(m, i);
    FormHalfTurn(m, i, AxisAngle(m, i));
    ThetaCases(m, i, regAngle, prec, rec.theta);
    SpreadIsForm(g, s, rec.x, rec.y, rec.dx, rec.dy);
    SpreadMeansLength(m, g, s, regAngle, prec, p, rec);
  }

  lemma ThetaCases(m: Libm, i: Inertia, regAngle: real, prec: real, theta: real)
    requires IsTheta(m, i, regAngle, prec, theta)
    ensures theta == AxisAngle(m, i) || theta == AxisAngle(m, i) + PI
  {
  }

  lemma SpreadMeansLength(m: Libm, g: ImageDouble, s: seq<Point>, regAngle: real, prec: real, p: real, rec: Rect)
    requires m.Lawful() && InImage(g, s) && Fits(m, g, s, regAngle, prec, p, rec)
    requires Spread(g, s, rec.x, rec.y, rec.dx, rec.dy) > 0.0
    ensures rec.Length() > 0.0
  {
    hide Spread, Placed, ProjAlong, Weight;
    PlacedIsUnit(m, g, s, regAngle, prec, p, rec);
    var lo, hi, left, right :|
      && Spans(lo, hi, Alongs(s, rec.x, rec.y, rec.dx, rec.dy))
      && Spans(left, right, Acrosses(s, rec.x, rec.y, rec.dx, rec.dy))
      && rec == Stretch(rec, lo, hi, left, right);
    StretchedIsOriented(rec, lo, hi, left, right);
    if hi - lo <= 0.0 {
      AllZero(s, rec, lo, hi);
      NoProjectionNoSpread(g, s, rec.x, rec.y, rec.dx, rec.dy);
    }
  }

  lemma AllZero(s: seq<Point>, rec: Rect, lo: real, hi: real)
    requires Spans(lo, hi, Alongs(s, rec.x, rec.y, rec.dx, rec.dy)) && hi - lo <= 0.0
    ensures forall e | e in s :: ProjAlong(e, rec.x, rec.y, rec.dx, rec.dy) == 0.0
  {
    hide ProjAlong;
    var vals := Alongs(s, rec.x, rec.y, rec.dx, rec.dy);
    forall e | e in s
      ensures ProjAlong(e, rec.x, rec.y, rec.dx, rec.dy) == 0.0
    {
      var k :| 0 <= k < |s| && s[k] == e;
      assert vals[k] in vals;
    }
  }
}
