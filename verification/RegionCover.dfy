/** When the rectangle of a region covers it, as the documentation says (lsd.cpp: region2rect). */
module RegionCover {
  import opened MathLib
  import opened Pixels
  import opened Rectangle
  import opened Region
  import opened RegionRect
  import opened PrincipalAxis
  import opened Gradient

  /** Every pixel of the region lies in the rectangle. */
  ghost predicate Covers(rec: Rect, s: seq<Point>) {
    forall e | e in s :: rec.Contains(e.x as real, e.y as real)
  }

  /** Seen from the rectangle, a pixel lies where its projections say. */
  lemma Projected(rec: Rect, lo: real, e: Point)
    requires rec.dx * rec.dx + rec.dy * rec.dy == 1.0
    requires rec.x1 == rec.x + lo * rec.dx && rec.y1 == rec.y + lo * rec.dy
    ensures rec.Along(e.x as real, e.y as real) == ProjAlong(e, rec.x, rec.y, rec.dx, rec.dy) - lo
    ensures rec.Across(e.x as real, e.y as real) == ProjAcross(e, rec.x, rec.y, rec.dx, rec.dy)
  {
    ProjectedAlgebra(e.x as real, e.y as real, rec.x, rec.y, rec.x1, rec.y1, lo, rec.dx, rec.dy);
  }

  lemma ProjectedAlgebra(px: real, py: real, x: real, y: real, x1: real, y1: real, lo: real, dx: real, dy: real)
    requires dx * dx + dy * dy == 1.0 && x1 == x + lo * dx && y1 == y + lo * dy
    ensures (px - x1) * dx + (py - y1) * dy == (px - x) * dx + (py - y) * dy - lo
    ensures (py - y1) * dx - (px - x1) * dy == -(px - x) * dy + (py - y) * dx
  {
    UnitProjection(lo, dx, dy);
    var a, b, p, q := px - x, py - y, lo * dx, lo * dy;
    assert (a - p) * dx + (b - q) * dy == a * dx + b * dy - (p * dx + q * dy);
    assert (b - q) * dx - (a - p) * dy == -a * dy + b * dx - (q * dx - p * dy);
    assert q * dx == p * dy;
  }

  /** Along the axis the rectangle always covers its region. Across it, it does exactly if the total
      spread is below 1 with at most 0.5 on each side, or else if it is the same on both sides. */
  lemma CoversExactly(m: Libm, g: ImageDouble, s: seq<Point>, regAngle: real, prec: real, p: real, rec: Rect,
                      left: real, right: real)
    requires m.Lawful() && InImage(g, s) && Fits(m, g, s, regAngle, prec, p, rec)
    requires Spans(left, right, Acrosses(s, rec.x, rec.y, rec.dx, rec.dy))
    ensures forall e | e in s :: 0.0 <= rec.Along(e.x as real, e.y as real) <= rec.Length()
    ensures Covers(rec, s) <==> if right - left < 1.0 then -0.5 <= left && right <= 0.5 else left + right == 0.0
  {
    hide Placed, ProjAlong, ProjAcross, Rect.Along, Rect.Across, Rect.Length, Spans, Alongs, Acrosses, Covers;
    PlacedIsUnit(m, g, s, regAngle, prec, p, rec);
    var lo, hi, l, r :|
      && Spans(lo, hi, Alongs(s, rec.x, rec.y, rec.dx, rec.dy))
      && Spans(l, r, Acrosses(s, rec.x, rec.y, rec.dx, rec.dy))
      && rec == Stretch(rec, lo, hi, l, r);
    SpansUnique(left, right, l, r, Acrosses(s, rec.x, rec.y, rec.dx, rec.dy));
    Between(rec, lo, hi, left, right, s);
    CoversAcross(rec, lo, hi, left, right, s);
  }

  lemma Between(rec: Rect, lo: real, hi: real, left: real, right: real, s: seq<Point>)
    requires rec.dx * rec.dx + rec.dy * rec.dy == 1.0 && rec == Stretch(rec, lo, hi, left, right)
    requires Spans(lo, hi, Alongs(s, rec.x, rec.y, rec.dx, rec.dy))
    requires Spans(left, right, Acrosses(s, rec.x, rec.y, rec.dx, rec.dy))
    ensures forall e | e in s :: 0.0 <= rec.Along(e.x as real, e.y as real) <= rec.Length()
    ensures forall e | e in s :: left <= rec.Across(e.x as real, e.y as real) <= right
  {
    hide *;
    Stretched(rec, lo, hi, left, right, Alongs(s, rec.x, rec.y, rec.dx, rec.dy));
    forall e | e in s
      ensures 0.0 <= rec.Along(e.x as real, e.y as real) <= rec.Length()
      ensures left <= rec.Across(e.x as real, e.y as real) <= right
    {
      Projected(rec, lo, e);
      WithinSpans(rec, lo, hi, left, right, s, e);
    }
  }

  lemma Stretched(rec: Rect, lo: real, hi: real, left: real, right: real, vals: seq<real>)
    requires rec.dx * rec.dx + rec.dy * rec.dy == 1.0 && rec == Stretch(rec, lo, hi, left, right) && Spans(lo, hi, vals)
    ensures rec.x1 == rec.x + lo * rec.dx && rec.y1 == rec.y + lo * rec.dy && rec.Length() == hi - lo
  {
    assert lo <= hi;
    hide Spans, Rect.Length;
    StretchedIsOriented(rec, lo, hi, left, right);
  }

  lemma WithinSpans(rec: Rect, lo: real, hi: real, left: real, right: real, s: seq<Point>, e: Point)
    requires Spans(lo, hi, Alongs(s, rec.x, rec.y, rec.dx, rec.dy)) && e in s
    requires Spans(left, right, Acrosses(s, rec.x, rec.y, rec.dx, rec.dy))
    ensures lo <= ProjAlong(e, rec.x, rec.y, rec.dx, rec.dy) <= hi
    ensures left <= ProjAcross(e, rec.x, rec.y, rec.dx, rec.dy) <= right
  {
    hide ProjAlong, ProjAcross;
    var al, ac := Alongs(s, rec.x, rec.y, rec.dx, rec.dy), Acrosses(s, rec.x, rec.y, rec.dx, rec.dy);
    var k :| 0 <= k < |s| && s[k] == e;
    assert al[k] in al && ac[k] in ac;
  }

  lemma CoversAcross(rec: Rect, lo: real, hi: real, left: real, right: real, s: seq<Point>)
    requires rec.dx * rec.dx + rec.dy * rec.dy == 1.0 && rec == Stretch(rec, lo, hi, left, right)
    requires Spans(lo, hi, Alongs(s, rec.x, rec.y, rec.dx, rec.dy))
    requires Spans(left, right, Acrosses(s, rec.x, rec.y, rec.dx, rec.dy))
    ensures Covers(rec, s) <==> if right - left < 1.0 then -0.5 <= left && right <= 0.5 else left + right == 0.0
  {
    hide ProjAlong, ProjAcross, Rect.Along, Rect.Across, Rect.Length, Alongs, Acrosses;
    Between(rec, lo, hi, left, right, s);
    assert rec.width == if right - left < 1.0 then 1.0 else right - left;
    if Covers(rec, s) {
      SideWithin(rec, lo, hi, left, right, s, left);
      SideWithin(rec, lo, hi, left, right, s, right);
    }
  }

  /** A side of the spread that a pixel reaches is within half the width, if the rectangle covers. */
  lemma SideWithin(rec: Rect, lo: real, hi: real, left: real, right: real, s: seq<Point>, side: real)
    requires rec.dx * rec.dx + rec.dy * rec.dy == 1.0 && rec == Stretch(rec, lo, hi, left, right) && Covers(rec, s)
    requires side == 0.0 || side in Acrosses(s, rec.x, rec.y, rec.dx, rec.dy)
    ensures -rec.width / 2.0 <= side <= rec.width / 2.0
  {
    hide ProjAlong, ProjAcross, Rect.Along, Rect.Across, Rect.Length;
    var ac := Acrosses(s, rec.x, rec.y, rec.dx, rec.dy);
    if side != 0.0 {
      var k :| 0 <= k < |ac| && ac[k] == side;
      assert s[k] in s;
      Projected(rec, lo, s[k]);
    }
  }

  /** Weighted sum of the projections on a direction. */
  ghost function Torque(g: ImageDouble, s: seq<Point>, x: real, y: real, dx: real, dy: real): real
    requires InImage(g, s)
  {
    if s == [] then 0.0
    else Torque(g, s[..|s| - 1], x, y, dx, dy) + Product(ProjAlong(s[|s| - 1], x, y, dx, dy), g.At(s[|s| - 1]))
  }

  function Lever(a: real, b: real, w: real, x: real, y: real, dx: real, dy: real): real {
    (a - x * w) * dx + (b - y * w) * dy
  }

  lemma {:induction false} TorqueIs(g: ImageDouble, s: seq<Point>, x: real, y: real, dx: real, dy: real)
    requires InImage(g, s)
    ensures Torque(g, s, x, y, dx, dy) == Lever(MomentX(g, s), MomentY(g, s), Weight(g, s), x, y, dx, dy)
  {
    if s == [] {
      NoLever(x, y, dx, dy);
    } else {
      hide Lever, Product, ProjAlong;
      var t, e := s[..|s| - 1], s[|s| - 1];
      TorqueIs(g, t, x, y, dx, dy);
      LeverStep(MomentX(g, t), MomentY(g, t), Weight(g, t), x, y, dx, dy, e, g.At(e));
    }
  }

  lemma NoLever(x: real, y: real, dx: real, dy: real)
    ensures Lever(0.0, 0.0, 0.0, x, y, dx, dy) == 0.0
  {
  }

  lemma LeverStep(a: real, b: real, w: real, x: real, y: real, dx: real, dy: real, e: Point, v: real)
    ensures Lever(a + e.x as real * v, b + e.y as real * v, w + v, x, y, dx, dy)
            == Lever(a, b, w, x, y, dx, dy) + Product(ProjAlong(e, x, y, dx, dy), v)
  {
    LeverAlgebra(a, b, w, x, y, dx, dy, e.x as real, e.y as real, v);
  }

  lemma LeverAlgebra(a: real, b: real, w: real, x: real, y: real, dx: real, dy: real, ex: real, ey: real, v: real)
    ensures (a - x * w) * dx + (b - y * w) * dy + ((ex - x) * dx + (ey - y) * dy) * v
            == ((a + ex * v) - x * (w + v)) * dx + ((b + ey * v) - y * (w + v)) * dy
  {
  }

  /** The rectangle is centered on the center of gravity: in every direction the pixels balance. */
  lemma CenterBalances(m: Libm, g: ImageDouble, s: seq<Point>, regAngle: real, prec: real, p: real, rec: Rect,
                       dx: real, dy: real)
    requires InImage(g, s) && Fits(m, g, s, regAngle, prec, p, rec)
    ensures Torque(g, s, rec.x, rec.y, dx, dy) == 0.0
  {
    hide Torque, IsTheta, HasExtent, MomentX, MomentY, Weight, Lever, InertiaOf;
    TorqueIs(g, s, rec.x, rec.y, dx, dy);
    TimesBack(MomentX(g, s), Weight(g, s));
    TimesBack(MomentY(g, s), Weight(g, s));
    Balanced(MomentX(g, s), MomentY(g, s), Weight(g, s), rec.x, rec.y, dx, dy);
  }

  lemma Balanced(a: real, b: real, w: real, x: real, y: real, dx: real, dy: real)
    requires x * w == a && y * w == b
    ensures Lever(a, b, w, x, y, dx, dy) == 0.0
  {
  }

  /** If all pixels weigh and balance, they are not all on one side. */
  lemma {:induction false} TorqueSign(g: ImageDouble, s: seq<Point>, x: real, y: real, dx: real, dy: real)
    requires Heavy(g, s) && forall e | e in s :: ProjAlong(e, x, y, dx, dy) > 0.0
    ensures Torque(g, s, x, y, dx, dy) >= 0.0 && (s != [] ==> Torque(g, s, x, y, dx, dy) > 0.0)
  {
    hide ProjAlong;
    if s != [] {
      TorqueSign(g, s[..|s| - 1], x, y, dx, dy);
      var e := s[|s| - 1];
      assert e in s;
      MulPos(ProjAlong(e, x, y, dx, dy), g.At(e));
    }
  }

  lemma ProjNegated(e: Point, x: real, y: real, dx: real, dy: real)
    ensures ProjAlong(e, x, y, -dx, -dy) == -ProjAlong(e, x, y, dx, dy)
  {
  }

  /** Balanced pixels are not all on one side. */
  lemma SomeNotAhead(g: ImageDouble, s: seq<Point>, x: real, y: real, dx: real, dy: real) returns (i: nat)
    requires Heavy(g, s) && s != [] && Torque(g, s, x, y, dx, dy) == 0.0
    ensures i < |s| && ProjAlong(s[i], x, y, dx, dy) <= 0.0
  {
    hide ProjAlong, Torque;
    if forall q | q in s :: ProjAlong(q, x, y, dx, dy) > 0.0 {
      TorqueSign(g, s, x, y, dx, dy);
    }
    var q :| q in s && ProjAlong(q, x, y, dx, dy) <= 0.0;
    i :| i < |s| && s[i] == q;
  }

  /** So the span of their projections is reached by pixels. */
  lemma SpanIsReached(g: ImageDouble, s: seq<Point>, x: real, y: real, dx: real, dy: real, lo: real, hi: real)
    returns (e: Point, f: Point)
    requires Heavy(g, s) && s != [] && Spans(lo, hi, Alongs(s, x, y, dx, dy))
    requires Torque(g, s, x, y, dx, dy) == 0.0 && Torque(g, s, x, y, -dx, -dy) == 0.0
    ensures e in s && ProjAlong(e, x, y, dx, dy) == lo && f in s && ProjAlong(f, x, y, dx, dy) == hi
  {
    hide ProjAlong, Torque, Heavy;
    var i := SomeNotAhead(g, s, x, y, dx, dy);
    var j := SomeNotAhead(g, s, x, y, -dx, -dy);
    ProjNegated(s[j], x, y, dx, dy);
    e := Attained(s, x, y, dx, dy, lo, hi, lo, i);
    f := Attained(s, x, y, dx, dy, lo, hi, hi, j);
  }

  lemma Attained(s: seq<Point>, x: real, y: real, dx: real, dy: real, lo: real, hi: real, v: real, i: nat)
    returns (e: Point)
    requires Spans(lo, hi, Alongs(s, x, y, dx, dy)) && i < |s|
    requires (v == lo && ProjAlong(s[i], x, y, dx, dy) <= 0.0) || (v == hi && ProjAlong(s[i], x, y, dx, dy) >= 0.0)
    ensures e in s && ProjAlong(e, x, y, dx, dy) == v
  {
    hide ProjAlong;
    var vals := Alongs(s, x, y, dx, dy);
    assert vals[i] in vals;
    if v in vals {
      var k :| 0 <= k < |s| && vals[k] == v;
      e := s[k];
    } else {
      e := s[i];
    }
  }

  /** The rectangle is no larger than its pixels make it: some pixel lies at each of its two ends, and its width is
      the distance across between two pixels, or 1 if no two are further apart. */
  lemma RectangleIsTight(m: Libm, g: ImageDouble, s: seq<Point>, regAngle: real, prec: real, p: real, rec: Rect)
    returns (first: Point, last: Point, low: Point, high: Point)
    requires m.Lawful() && Heavy(g, s) && s != [] && Fits(m, g, s, regAngle, prec, p, rec)
    ensures first in s && rec.Along(first.x as real, first.y as real) == 0.0
    ensures last in s && rec.Along(last.x as real, last.y as real) == rec.Length()
    ensures low in s && high in s
    ensures forall e | e in s ::
              rec.Across(low.x as real, low.y as real) <= rec.Across(e.x as real, e.y as real)
              <= rec.Across(high.x as real, high.y as real)
    ensures var d := rec.Across(high.x as real, high.y as real) - rec.Across(low.x as real, low.y as real);
            rec.width == if d < 1.0 then 1.0 else d
  {
    hide Placed, ProjAlong, ProjAcross, Rect.Along, Rect.Across, Rect.Length, Spans, Alongs, Acrosses, Torque, Stretch;
    PlacedIsUnit(m, g, s, regAngle, prec, p, rec);
    var lo, hi, left, right :|
      && Spans(lo, hi, Alongs(s, rec.x, rec.y, rec.dx, rec.dy))
      && Spans(left, right, Acrosses(s, rec.x, rec.y, rec.dx, rec.dy))
      && rec == Stretch(rec, lo, hi, left, right);
    CenterBalances(m, g, s, regAngle, prec, p, rec, rec.dx, rec.dy);
    CenterBalances(m, g, s, regAngle, prec, p, rec, -rec.dx, -rec.dy);
    CenterBalances(m, g, s, regAngle, prec, p, rec, -rec.dy, rec.dx);
    CenterBalances(m, g, s, regAngle, prec, p, rec, rec.dy, -rec.dx);
    first, last := SpanIsReached(g, s, rec.x, rec.y, rec.dx, rec.dy, lo, hi);
    AcrossIsAlong(s, rec.x, rec.y, rec.dx, rec.dy);
    low, high := SpanIsReached(g, s, rec.x, rec.y, -rec.dy, rec.dx, left, right);
    Stretched(rec, lo, hi, left, right, Alongs(s, rec.x, rec.y, rec.dx, rec.dy));
    StretchedWidth(rec, lo, hi, left, right);
    Projected(rec, lo, first);
    Projected(rec, lo, last);
    Projected(rec, lo, low);
    Projected(rec, lo, high);
    Between(rec, lo, hi, left, right, s);
  }

  lemma StretchedWidth(rec: Rect, lo: real, hi: real, left: real, right: real)
    requires rec == Stretch(rec, lo, hi, left, right)
    ensures rec.width == if right - left < 1.0 then 1.0 else right - left
  {
    hide Moved;
  }

  /** Across is along the direction turned by a right angle. */
  lemma AcrossIsAlong(s: seq<Point>, x: real, y: real, dx: real, dy: real)
    ensures Acrosses(s, x, y, dx, dy) == Alongs(s, x, y, -dy, dx)
    ensures forall e :: ProjAlong(e, x, y, -dy, dx) == ProjAcross(e, x, y, dx, dy)
  {
  }

  /* A region that sticks out: a row of three pixels with one beside its middle, all of weight 1. */

  const ROW: seq<Point> := [Point(0, 0), Point(1, 0), Point(2, 0), Point(1, 1)]

  /** Gradient norms of an image of 4x3 pixels: 1 wherever there is a window, 0 on the border. */
  ghost function Even(): (g: ImageDouble)
    ensures g.Valid() && g.xsize == 4 && g.ysize == 3
    ensures forall p | g.Has(p) :: g.At(p) == if Inner(p, 4, 3) then 1.0 else 0.0
  {
    Drawn(4, 3, p => if Inner(p, 4, 3) then 1.0 else 0.0)
  }

  /** The sums of a region after one more pixel. */
  lemma SumsAppend(g: ImageDouble, s: seq<Point>, e: Point, x: real, y: real)
    requires InImage(g, s) && g.Has(e)
    ensures InImage(g, s + [e])
    ensures Weight(g, s + [e]) == Weight(g, s) + g.At(e)
    ensures MomentX(g, s + [e]) == MomentX(g, s) + e.x as real * g.At(e)
    ensures MomentY(g, s + [e]) == MomentY(g, s) + e.y as real * g.At(e)
    ensures InertiaOf(g, s + [e], x, y) == AddPoint(InertiaOf(g, s, x, y), e, g.At(e), x, y)
  {
    hide AddPoint, Pix;
    var t := s + [e];
    assert t[..|t| - 1] == s && t[|t| - 1] == e;
  }

  /** Weight and moments of a region, and its inertia about (1, 1/4). */
  ghost predicate Sums(g: ImageDouble, s: seq<Point>, w: real, mx: real, my: real, i: Inertia) {
    && InImage(g, s) && Weight(g, s) == w && MomentX(g, s) == mx && MomentY(g, s) == my
    && InertiaOf(g, s, 1.0, 0.25) == i
  }

  lemma SumsStep(s: seq<Point>, k: nat, n: nat, w: real, mx: real, my: real, i: Inertia,
                 w': real, mx': real, my': real, i': Inertia)
    requires k < |s| && n == k + 1 && Inner(s[k], 4, 3) && Sums(Even(), s[..k], w, mx, my, i)
    requires w' == w + 1.0 && mx' == mx + s[k].x as real && my' == my + s[k].y as real
    requires i' == AddPoint(i, s[k], 1.0, 1.0, 0.25)
    ensures Sums(Even(), s[..n], w', mx', my', i')
  {
    hide Even, AddPoint, Weight, MomentX, MomentY, InertiaOf;
    SumsAppend(Even(), s[..k], s[k], 1.0, 0.25);
    assert s[..k + 1] == s[..k] + [s[k]];
  }

  lemma RowHeavy()
    ensures Heavy(Even(), ROW) && Distinct(ROW) && forall e | e in ROW :: Inner(e, 4, 3)
  {
    hide Even;
    forall e | e in ROW
      ensures Inner(e, 4, 3)
    {
      var k :| 0 <= k < |ROW| && ROW[k] == e;
    }
  }

  lemma RowSums()
    ensures Sums(Even(), ROW, 4.0, 4.0, 1.0, Inertia(0.75, 2.0, 0.0))
  {
    hide Even, Sums;
    RowSteps(ROW, Inertia(0.0, 0.0, 0.0), Inertia(0.0625, 1.0, -0.25), Inertia(0.125, 1.0, -0.25),
             Inertia(0.1875, 2.0, 0.0), Inertia(0.75, 2.0, 0.0));
  }

  lemma RowSteps(s: seq<Point>, i0: Inertia, i1: Inertia, i2: Inertia, i3: Inertia, i4: Inertia)
    requires |s| == 4 && s[0] == Point(0, 0) && s[1] == Point(1, 0) && s[2] == Point(2, 0) && s[3] == Point(1, 1)
    requires i0 == Inertia(0.0, 0.0, 0.0) && i1 == AddPoint(i0, s[0], 1.0, 1.0, 0.25)
    requires i2 == AddPoint(i1, s[1], 1.0, 1.0, 0.25) && i3 == AddPoint(i2, s[2], 1.0, 1.0, 0.25)
    requires i4 == AddPoint(i3, s[3], 1.0, 1.0, 0.25)
    ensures Sums(Even(), s, 4.0, 4.0, 1.0, i4)
  {
    NoSums();
    assert Inner(s[0], 4, 3) && Inner(s[1], 4, 3) && Inner(s[2], 4, 3) && Inner(s[3], 4, 3);
    hide *;
    assert s[..0] == [] && s[..4] == s;
    SumsStep(s, 0, 1, 0.0, 0.0, 0.0, i0, 1.0, 0.0, 0.0, i1);
    SumsStep(s, 1, 2, 1.0, 0.0, 0.0, i1, 2.0, 1.0, 0.0, i2);
    SumsStep(s, 2, 3, 2.0, 1.0, 0.0, i2, 3.0, 3.0, 0.0, i3);
    SumsStep(s, 3, 4, 3.0, 3.0, 0.0, i3, 4.0, 4.0, 1.0, i4);
  }

  lemma NoSums()
    ensures Sums(Even(), [], 0.0, 0.0, 0.0, Inertia(0.0, 0.0, 0.0))
  {
    hide Even;
  }

  lemma RowAxis(m: Libm)
    requires m.Lawful()
    ensures var t := AxisAngle(m, Inertia(0.75, 2.0, 0.0)); m.cos(t) == -1.0 && m.sin(t) == 0.0
  {
    var i := Inertia(0.75, 2.0, 0.0);
    assert Discriminant(i) == Sqr(1.25);
    SqrtOfSquare(m, 1.25);
    assert AxisVector(m, i) == (-1.25, 0.0);
    AxisPolar(m, i);
    assert Sqr(-1.25) + Sqr(0.0) == Sqr(1.25);
    var t := AxisAngle(m, i);
    assert 1.25 * m.cos(t) == -1.25 && 1.25 * m.sin(t) == 0.0;
  }

  /** The rectangle of that region exists, and the fourth pixel lies outside. */
  lemma RowSticksOut(m: Libm, regAngle: real, prec: real, p: real, rec: Rect)
    requires m.Lawful()
    ensures InImage(Even(), ROW) && !Degenerate(Even(), ROW) && forall e | e in ROW :: Inner(e, 4, 3)
    ensures Fits(m, Even(), ROW, regAngle, prec, p, rec) ==> !rec.Contains(1.0, 1.0) && !Covers(rec, ROW)
  {
    hide Even, AxisAngle, Libm.Lawful;
    RowHeavy();
    RowSums();
    ChecksNeverFire(Even(), ROW);
    if Fits(m, Even(), ROW, regAngle, prec, p, rec) {
      var i := Inertia(0.75, 2.0, 0.0);
      RowAxis(m);
      ThetaCases(m, i, regAngle, prec, rec.theta);
      Turned(m, AxisAngle(m, i));
      assert rec.x == 1.0 && rec.y == 0.25 && rec.dy == 0.0 && (rec.dx == 1.0 || rec.dx == -1.0);
      RowOutside(rec);
    }
  }

  lemma Turned(m: Libm, t: real)
    requires m.Lawful()
    ensures m.cos(t + PI) == -m.cos(t) && m.sin(t + PI) == -m.sin(t)
  {
    assert m.HalfTurn(t);
  }

  lemma RowOutside(rec: Rect)
    requires HasExtent(ROW, rec) && rec.x == 1.0 && rec.y == 0.25 && rec.dy == 0.0 && (rec.dx == 1.0 || rec.dx == -1.0)
    ensures !rec.Contains(1.0, 1.0) && !Covers(rec, ROW)
  {
    hide Spans, Alongs, Acrosses, Rect.Along;
    var lo, hi, left, right :|
      && Spans(lo, hi, Alongs(ROW, rec.x, rec.y, rec.dx, rec.dy))
      && Spans(left, right, Acrosses(ROW, rec.x, rec.y, rec.dx, rec.dy))
      && rec == Stretch(rec, lo, hi, left, right);
    var k := 0.25 * rec.dx;
    RowAcrosses(rec, k, left, right);
    assert rec.width == 1.0;
    Projected(rec, lo, Point(1, 1));
    assert ROW[3] in ROW;
  }

  lemma RowAcrosses(rec: Rect, k: real, left: real, right: real)
    requires rec.x == 1.0 && rec.y == 0.25 && rec.dy == 0.0 && k == 0.25 * rec.dx && (k == 0.25 || k == -0.25)
    requires Spans(left, right, Acrosses(ROW, rec.x, rec.y, rec.dx, rec.dy))
    ensures right - left == 1.0
  {
    var ac := Acrosses(ROW, rec.x, rec.y, rec.dx, rec.dy);
    assert ac[0] == -k && ac[1] == -k && ac[2] == -k && ac[3] == 3.0 * k;
    assert ac[0] in ac && ac[3] in ac;
  }
}
