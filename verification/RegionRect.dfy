/** Rectangular approximation of a region (lsd.cpp: get_theta, region2rect). */
module RegionRect {
  import opened MathLib
  import opened Pixels
  import opened Angles
  import opened Rectangle
  import opened Region

  /** The checks of the arguments and inside the functions; each stops the program. */
  datatype Error = RegionTooSmall | NegativePrec | ZeroWeights | NullInertia | InvalidInput | OutputTooBig

  datatype Result<+T> = Success(value: T) | Failure(error: Error)

  ghost function Weight(g: ImageDouble, s: seq<Point>): real
    requires InImage(g, s)
  {
    if s == [] then 0.0 else Weight(g, s[..|s| - 1]) + g.At(s[|s| - 1])
  }

  ghost function MomentX(g: ImageDouble, s: seq<Point>): real
    requires InImage(g, s)
  {
    if s == [] then 0.0 else var e := s[|s| - 1]; MomentX(g, s[..|s| - 1]) + e.x as real * g.At(e)
  }

  ghost function MomentY(g: ImageDouble, s: seq<Point>): real
    requires InImage(g, s)
  {
    if s == [] then 0.0 else var e := s[|s| - 1]; MomentY(g, s[..|s| - 1]) + e.y as real * g.At(e)
  }

  /** Second moments about (x,y). */
  datatype Inertia = Inertia(xx: real, yy: real, xy: real)

  function AddPoint(i: Inertia, e: Point, w: real, x: real, y: real): Inertia {
    Inertia(i.xx + Sqr(e.y as real - y) * w,
            i.yy + Sqr(e.x as real - x) * w,
            i.xy - (e.x as real - x) * (e.y as real - y) * w)
  }

  ghost function InertiaOf(g: ImageDouble, s: seq<Point>, x: real, y: real): Inertia
    requires InImage(g, s)
  {
    if s == [] then
      Inertia(0.0, 0.0, 0.0)
    else
      AddPoint(InertiaOf(g, s[..|s| - 1], x, y), s[|s| - 1], g.At(s[|s| - 1]), x, y)
  }

  function Discriminant(i: Inertia): real {
    Sqr(i.xx - i.yy) + 4.0 * i.xy * i.xy
  }

  /** The smallest eigenvalue of the inertia matrix, line 1596. */
  function Lambda(m: Libm, i: Inertia): real {
    0.5 * (i.xx + i.yy - m.sqrt(Discriminant(i)))
  }

  /** A vector along the axis of smallest inertia, the arguments of atan2 in line 1599. */
  function AxisVector(m: Libm, i: Inertia): (real, real) {
    if Abs(i.xx) > Abs(i.yy) then (i.xy, Lambda(m, i) - i.xx) else (Lambda(m, i) - i.yy, i.xy)
  }

  /** Direction of the axis of smallest inertia, without orientation. */
  function AxisAngle(m: Libm, i: Inertia): real {
    m.atan2(AxisVector(m, i).1, AxisVector(m, i).0)
  }

  /** theta is the axis, turned by half a turn exactly when it would disagree with the region. */
  predicate IsTheta(m: Libm, i: Inertia, regAngle: real, prec: real, theta: real) {
    var axis := AxisAngle(m, i);
    theta == if Abs(Wrap(axis - regAngle)) <= prec then axis else axis + PI
  }

  /** The inertia matrix of a region about (x,y), lines 1584-1591. */
  method InertiaMatrix(reg: array<Point>, regSize: nat, x: real, y: real, g: ImageDouble) returns (acc: Inertia)
    requires regSize <= reg.Length && InImage(g, reg[..regSize])
    ensures acc == InertiaOf(g, reg[..regSize], x, y)
  {
    acc := Inertia(0.0, 0.0, 0.0);
    var i := 0;
    while i < regSize
      invariant 0 <= i <= regSize
      invariant acc == InertiaOf(g, reg[..i], x, y)
    {
      assert reg[..i + 1][..i] == reg[..i] && reg[..regSize][i] == reg[i];
      acc := AddPoint(acc, reg[i], g.At(reg[i]), x, y);
      i := i + 1;
    }
  }

  method GetTheta(m: Libm, reg: array<Point>, regSize: nat, x: real, y: real, g: ImageDouble,
                  regAngle: real, prec: real) returns (r: Result<real>)
    requires regSize <= reg.Length && InImage(g, reg[..regSize])
    ensures r.Success? ==> IsTheta(m, InertiaOf(g, reg[..regSize], x, y), regAngle, prec, r.value)
    ensures r.Failure? <==>
              regSize <= 1 || prec < 0.0 || InertiaOf(g, reg[..regSize], x, y) == Inertia(0.0, 0.0, 0.0)
  {
    if regSize <= 1 {
      return Failure(RegionTooSmall);
    }
    if prec < 0.0 {
      return Failure(NegativePrec);
    }

    var inertia := InertiaMatrix(reg, regSize, x, y, g);
    if inertia == Inertia(0.0, 0.0, 0.0) {
      return Failure(NullInertia);
    }

    // the axis, pointing the way of the region
    var theta := AxisAngle(m, inertia);
    var diff := AngleDiff(theta, regAngle);
    if diff > prec {
      theta := theta + PI;
    }
    return Success(theta);
  }

  function ProjAlong(e: Point, x: real, y: real, dx: real, dy: real): real {
    (e.x as real - x) * dx + (e.y as real - y) * dy
  }

  function ProjAcross(e: Point, x: real, y: real, dx: real, dy: real): real {
    -(e.x as real - x) * dy + (e.y as real - y) * dx
  }

  /** Projections of a region on the axis through (x,y) with direction (dx,dy), and across it. */
  ghost function Alongs(s: seq<Point>, x: real, y: real, dx: real, dy: real): seq<real> {
    seq(|s|, i requires 0 <= i < |s| => ProjAlong(s[i], x, y, dx, dy))
  }

  ghost function Acrosses(s: seq<Point>, x: real, y: real, dx: real, dy: real): seq<real> {
    seq(|s|, i requires 0 <= i < |s| => ProjAcross(s[i], x, y, dx, dy))
  }

  /** [lo,hi] is the smallest interval that holds 0 and all the values. */
  ghost predicate Spans(lo: real, hi: real, vals: seq<real>) {
    && lo <= 0.0 <= hi
    && (forall v | v in vals :: lo <= v <= hi)
    && (lo == 0.0 || lo in vals)
    && (hi == 0.0 || hi in vals)
  }

  /** `rec` is the rectangle of region `s`: centered on the weighted mean, along the axis of
      smallest inertia, from the first to the last projection, at least one pixel wide. */
  ghost predicate Fits(m: Libm, g: ImageDouble, s: seq<Point>, regAngle: real, prec: real, p: real, rec: Rect)
    requires InImage(g, s)
  {
    Placed(m, g, s, regAngle, prec, p, rec) && HasExtent(s, rec)
  }

  ghost predicate Placed(m: Libm, g: ImageDouble, s: seq<Point>, regAngle: real, prec: real, p: real, rec: Rect)
    requires InImage(g, s)
  {
    && Weight(g, s) > 0.0
    && rec.x == MomentX(g, s) / Weight(g, s)
    && rec.y == MomentY(g, s) / Weight(g, s)
    && IsTheta(m, InertiaOf(g, s, rec.x, rec.y), regAngle, prec, rec.theta)
    && rec.dx == m.cos(rec.theta) && rec.dy == m.sin(rec.theta)
    && rec.prec == prec && rec.p == p
  }

  ghost predicate HasExtent(s: seq<Point>, rec: Rect) {
    exists lo, hi, left, right ::
      && Spans(lo, hi, Alongs(s, rec.x, rec.y, rec.dx, rec.dy))
      && Spans(left, right, Acrosses(s, rec.x, rec.y, rec.dx, rec.dy))
      && rec == Stretch(rec, lo, hi, left, right)
  }

  function Moved(c: real, l: real, d: real): real {
    c + l * d
  }

  /** `rec` with its ends and its width set from the two spans. */
  function Stretch(rec: Rect, lo: real, hi: real, left: real, right: real): Rect {
    rec.(x1 := Moved(rec.x, lo, rec.dx), y1 := Moved(rec.y, lo, rec.dy),
         x2 := Moved(rec.x, hi, rec.dx), y2 := Moved(rec.y, hi, rec.dy),
         width := if right - left < 1.0 then 1.0 else right - left)
  }

  /** Sums of weights and of weighted coordinates, lines 1635-1642. */
  method WeightedSums(reg: array<Point>, regSize: nat, g: ImageDouble) returns (x: real, y: real, sum: real)
    requires regSize <= reg.Length && InImage(g, reg[..regSize])
    ensures sum == Weight(g, reg[..regSize])
    ensures x == MomentX(g, reg[..regSize]) && y == MomentY(g, reg[..regSize])
  {
    x, y, sum := 0.0, 0.0, 0.0;
    var i := 0;
    while i < regSize
      invariant 0 <= i <= regSize
      invariant sum == Weight(g, reg[..i]) && x == MomentX(g, reg[..i]) && y == MomentY(g, reg[..i])
    {
      assert reg[..i + 1][..i] == reg[..i] && reg[..regSize][i] == reg[i];
      var w := g.At(reg[i]);
      x := x + reg[i].x as real * w;
      y := y + reg[i].y as real * w;
      sum := sum + w;
      i := i + 1;
    }
  }

  /** What the internal checks of get_theta and region2rect look for. */
  ghost predicate Degenerate(g: ImageDouble, s: seq<Point>)
    requires InImage(g, s)
  {
    || |s| <= 1
    || Weight(g, s) <= 0.0
    || InertiaOf(g, s, MomentX(g, s) / Weight(g, s), MomentY(g, s) / Weight(g, s)) == Inertia(0.0, 0.0, 0.0)
  }

  method RegionToRect(m: Libm, reg: array<Point>, regSize: nat, g: ImageDouble,
                      regAngle: real, prec: real, p: real) returns (r: Result<Rect>)
    requires regSize <= reg.Length && InImage(g, reg[..regSize])
    ensures r.Success? ==> Fits(m, g, reg[..regSize], regAngle, prec, p, r.value)
    ensures r.Failure? <==> prec < 0.0 || Degenerate(g, reg[..regSize])
    ensures r.Success? ==> regSize >= 2
  {
    if regSize <= 1 {
      return Failure(RegionTooSmall);
    }

    var x, y, sum := WeightedSums(reg, regSize, g);
    if sum <= 0.0 {
      return Failure(ZeroWeights);
    }
    x, y := x / sum, y / sum;

    var t := GetTheta(m, reg, regSize, x, y, g, regAngle, prec);
    if t.Failure? {
      return Failure(t.error);
    }

    var rec := Rect(0.0, 0.0, 0.0, 0.0, 0.0, x, y, t.value, m.cos(t.value), m.sin(t.value), prec, p);
    var lMin, lMax, wMin, wMax := Extent(reg, regSize, x, y, rec.dx, rec.dy);
    StretchFits(m, g, reg[..regSize], regAngle, rec, lMin, lMax, wMin, wMax);
    return Success(Stretch(rec, lMin, lMax, wMin, wMax));
  }

  lemma StretchFits(m: Libm, g: ImageDouble, s: seq<Point>, regAngle: real,
                    rec: Rect, lo: real, hi: real, left: real, right: real)
    requires InImage(g, s) && Placed(m, g, s, regAngle, rec.prec, rec.p, rec)
    requires Spans(lo, hi, Alongs(s, rec.x, rec.y, rec.dx, rec.dy))
    requires Spans(left, right, Acrosses(s, rec.x, rec.y, rec.dx, rec.dy))
    ensures Fits(m, g, s, regAngle, rec.prec, rec.p, Stretch(rec, lo, hi, left, right))
  {
    hide Spans, Alongs, Acrosses, IsTheta, InertiaOf, Weight, MomentX, MomentY;
    var fitted := Stretch(rec, lo, hi, left, right);
    assert fitted == Stretch(fitted, lo, hi, left, right);
  }

  lemma SpansUnique(lo: real, hi: real, lo': real, hi': real, vals: seq<real>)
    requires Spans(lo, hi, vals) && Spans(lo', hi', vals)
    ensures lo == lo' && hi == hi'
  {
  }

  /** A region has one rectangle only. */
  lemma FitsUnique(m: Libm, g: ImageDouble, s: seq<Point>, regAngle: real, prec: real, p: real, r1: Rect, r2: Rect)
    requires InImage(g, s)
    requires Fits(m, g, s, regAngle, prec, p, r1) && Fits(m, g, s, regAngle, prec, p, r2)
    ensures r1 == r2
  {
    hide Spans, Alongs, Acrosses, IsTheta, InertiaOf, Weight, MomentX, MomentY, Stretch;
    SameTheta(m, InertiaOf(g, s, r1.x, r1.y), regAngle, prec, r1.theta, r2.theta);
    var lo, hi, left, right :|
      && Spans(lo, hi, Alongs(s, r1.x, r1.y, r1.dx, r1.dy))
      && Spans(left, right, Acrosses(s, r1.x, r1.y, r1.dx, r1.dy))
      && r1 == Stretch(r1, lo, hi, left, right);
    var lo', hi', left', right' :|
      && Spans(lo', hi', Alongs(s, r2.x, r2.y, r2.dx, r2.dy))
      && Spans(left', right', Acrosses(s, r2.x, r2.y, r2.dx, r2.dy))
      && r2 == Stretch(r2, lo', hi', left', right');
    SpansUnique(lo, hi, lo', hi', Alongs(s, r1.x, r1.y, r1.dx, r1.dy));
    SpansUnique(left, right, left', right', Acrosses(s, r1.x, r1.y, r1.dx, r1.dy));
    SameStretch(r1, r2, lo, hi, left, right);
  }

  /** Stretching sets the ends and the width and looks at nothing but the rest. */
  lemma SameStretch(r1: Rect, r2: Rect, lo: real, hi: real, left: real, right: real)
    requires r1.x == r2.x && r1.y == r2.y && r1.theta == r2.theta && r1.dx == r2.dx && r1.dy == r2.dy
    requires r1.prec == r2.prec && r1.p == r2.p
    ensures Stretch(r1, lo, hi, left, right) == Stretch(r2, lo, hi, left, right)
  {
    hide Moved;
  }

  /** The rectangle faces the way of its region whenever its line allows it: if one of the two directions of the
      axis agrees with the region angle, its own angle does, and otherwise none does. */
  lemma FacesRegion(m: Libm, g: ImageDouble, s: seq<Point>, regAngle: real, prec: real, p: real, rec: Rect)
    requires InImage(g, s) && Fits(m, g, s, regAngle, prec, p, rec)
    ensures var axis := AxisAngle(m, InertiaOf(g, s, rec.x, rec.y));
            Abs(Wrap(axis - regAngle)) <= prec || Abs(Wrap(axis + PI - regAngle)) <= prec
            <==> Abs(Wrap(rec.theta - regAngle)) <= prec
  {
    hide HasExtent, Wrap;
  }

  lemma SameTheta(m: Libm, i: Inertia, regAngle: real, prec: real, t1: real, t2: real)
    requires IsTheta(m, i, regAngle, prec, t1) && IsTheta(m, i, regAngle, prec, t2)
    ensures t1 == t2
  {
  }

  /** Smallest and largest projections, lines 1664-1674. */
  method Extent(reg: array<Point>, regSize: nat, x: real, y: real, dx: real, dy: real)
    returns (lMin: real, lMax: real, wMin: real, wMax: real)
    requires regSize <= reg.Length
    ensures Spans(lMin, lMax, Alongs(reg[..regSize], x, y, dx, dy))
    ensures Spans(wMin, wMax, Acrosses(reg[..regSize], x, y, dx, dy))
  {
    lMin, lMax, wMin, wMax := 0.0, 0.0, 0.0, 0.0;
    var i := 0;
    while i < regSize
      invariant 0 <= i <= regSize
      invariant Spans(lMin, lMax, Alongs(reg[..i], x, y, dx, dy))
      invariant Spans(wMin, wMax, Acrosses(reg[..i], x, y, dx, dy))
    {
      var l, w := ProjAlong(reg[i], x, y, dx, dy), ProjAcross(reg[i], x, y, dx, dy);
      assert Alongs(reg[..i + 1], x, y, dx, dy) == Alongs(reg[..i], x, y, dx, dy) + [l];
      assert Acrosses(reg[..i + 1], x, y, dx, dy) == Acrosses(reg[..i], x, y, dx, dy) + [w];
      SpansStep(lMin, lMax, Alongs(reg[..i], x, y, dx, dy), l);
      SpansStep(wMin, wMax, Acrosses(reg[..i], x, y, dx, dy), w);
      if l > lMax { lMax := l; }
      if l < lMin { lMin := l; }
      if w > wMax { wMax := w; }
      if w < wMin { wMin := w; }
      i := i + 1;
    }
  }

  lemma SpansStep(lo: real, hi: real, vals: seq<real>, v: real)
    requires Spans(lo, hi, vals)
    ensures Spans(if v < lo then v else lo, if v > hi then v else hi, vals + [v])
  {
    var all := vals + [v];
    assert all[|vals|] == v;
    assert forall e | e in vals :: e in all;
  }

  /** The gradient norms of a region weigh something. */
  ghost predicate Heavy(g: ImageDouble, s: seq<Point>) {
    InImage(g, s) && forall p | p in s :: g.At(p) > 0.0
  }

  lemma {:induction false} WeightPositive(g: ImageDouble, s: seq<Point>)
    requires Heavy(g, s)
    ensures Weight(g, s) >= 0.0
    ensures s != [] ==> Weight(g, s) > 0.0
  {
    if s != [] {
      var e := s[|s| - 1];
      WeightPositive(g, s[..|s| - 1]);
      assert g.At(e) > 0.0;
    }
  }

  lemma WeightedSquare(d: real, w: real)
    requires w > 0.0
    ensures Sqr(d) * w >= 0.0
    ensures d != 0.0 ==> Sqr(d) * w > 0.0
  {
    SqrLaw(d);
    MulNonNeg(Sqr(d), w);
    if d != 0.0 {
      MulPos(Sqr(d), w);
    }
  }

  /** A point never takes inertia away; off the center it adds some. */
  lemma AddPointGrows(i: Inertia, e: Point, w: real, x: real, y: real)
    requires w > 0.0
    ensures var j := AddPoint(i, e, w, x, y);
            && j.xx >= i.xx && j.yy >= i.yy
            && (e.x as real != x || e.y as real != y ==> j.xx + j.yy > i.xx + i.yy)
  {
    WeightedSquare(e.y as real - y, w);
    WeightedSquare(e.x as real - x, w);
  }

  /** Every point off the center contributes, and nothing cancels. */
  lemma {:induction false} InertiaPositive(g: ImageDouble, s: seq<Point>, x: real, y: real)
    requires Heavy(g, s)
    ensures var i := InertiaOf(g, s, x, y);
            && i.xx >= 0.0 && i.yy >= 0.0
            && ((exists q | q in s :: q.x as real != x || q.y as real != y) ==> i.xx + i.yy > 0.0)
  {
    if s != [] {
      var t, e := s[..|s| - 1], s[|s| - 1];
      InertiaPositive(g, t, x, y);
      AddPointGrows(InertiaOf(g, t, x, y), e, g.At(e), x, y);
      forall q | q in s && q != e
        ensures q in t
      {
        assert s == t + [e];
      }
    }
  }

  /** With two distinct pixels that carry weight, no internal check can fire. */
  lemma ChecksNeverFire(g: ImageDouble, s: seq<Point>)
    requires Heavy(g, s) && Distinct(s) && |s| >= 2
    ensures !Degenerate(g, s)
  {
    WeightPositive(g, s);
    InertiaPositive(g, s, MomentX(g, s) / Weight(g, s), MomentY(g, s) / Weight(g, s));
    assert s[0] in s && s[1] in s && s[0] != s[1];
  }

  /** What the rest of the detector relies on: the rectangle of a region is well formed. */
  lemma FittedIsOriented(m: Libm, g: ImageDouble, s: seq<Point>, regAngle: real, prec: real, p: real, rec: Rect)
    requires m.Lawful() && InImage(g, s) && Fits(m, g, s, regAngle, prec, p, rec)
    ensures rec.Oriented() && rec.width >= 1.0 && RectAngle(rec.theta)
  {
    PlacedIsUnit(m, g, s, regAngle, prec, p, rec);
    ExtentIsOriented(s, rec);
  }

  lemma PlacedIsUnit(m: Libm, g: ImageDouble, s: seq<Point>, regAngle: real, prec: real, p: real, rec: Rect)
    requires m.Lawful() && InImage(g, s) && Placed(m, g, s, regAngle, prec, p, rec)
    ensures rec.dx * rec.dx + rec.dy * rec.dy == 1.0 && RectAngle(rec.theta)
  {
    UnitCircle(m, rec.theta);
    AxisRange(m, InertiaOf(g, s, rec.x, rec.y));
  }

  lemma ExtentIsOriented(s: seq<Point>, rec: Rect)
    requires rec.dx * rec.dx + rec.dy * rec.dy == 1.0 && HasExtent(s, rec)
    ensures rec.Oriented() && rec.width >= 1.0
  {
    var lo, hi, left, right :|
      && Spans(lo, hi, Alongs(s, rec.x, rec.y, rec.dx, rec.dy))
      && Spans(left, right, Acrosses(s, rec.x, rec.y, rec.dx, rec.dy))
      && rec == Stretch(rec, lo, hi, left, right);
    StretchedIsOriented(rec, lo, hi, left, right);
  }

  lemma AxisRange(m: Libm, i: Inertia)
    requires m.Lawful()
    ensures PixelAngle(AxisAngle(m, i))
  {
  }

  lemma StretchedIsOriented(rec: Rect, lo: real, hi: real, left: real, right: real)
    requires rec.dx * rec.dx + rec.dy * rec.dy == 1.0 && lo <= hi
    requires rec == Stretch(rec, lo, hi, left, right)
    ensures rec.Oriented() && rec.width >= 1.0 && rec.Length() == hi - lo
  {
    assert rec.x2 - rec.x1 == (hi - lo) * rec.dx;
    assert rec.y2 - rec.y1 == (hi - lo) * rec.dy;
    UnitProjection(hi - lo, rec.dx, rec.dy);
  }
}
