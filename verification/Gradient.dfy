/** Gradient angles, gradient norms and the list of pixels by falling norm (lsd.cpp: ll_angle). */
module Gradient {
  import opened MathLib
  import opened Pixels
  import opened Angles
  import opened PixelOrder

  /** Pixels with a 2x2 window inside the image. */
  predicate Inner(p: Point, xsize: nat, ysize: nat) {
    0 <= p.x < xsize - 1 && 0 <= p.y < ysize - 1
  }

  /** Gradient of the 2x2 window A B / C D. */
  function GradX(im: ImageDouble, p: Point): real
    requires im.Valid() && Inner(p, im.xsize, im.ysize)
  {
    (im.At(Point(p.x + 1, p.y + 1)) - im.At(p)) + (im.At(Point(p.x + 1, p.y)) - im.At(Point(p.x, p.y + 1)))
  }

  function GradY(im: ImageDouble, p: Point): real
    requires im.Valid() && Inner(p, im.xsize, im.ysize)
  {
    (im.At(Point(p.x + 1, p.y + 1)) - im.At(p)) - (im.At(Point(p.x + 1, p.y)) - im.At(Point(p.x, p.y + 1)))
  }

  function Norm(m: Libm, im: ImageDouble, p: Point): real
    requires im.Valid() && Inner(p, im.xsize, im.ysize)
  {
    m.sqrt((Sqr(GradX(im, p)) + Sqr(GradY(im, p))) / 4.0)
  }

  function LevelAngle(m: Libm, im: ImageDouble, p: Point, threshold: real): real
    requires im.Valid() && Inner(p, im.xsize, im.ysize)
  {
    if Norm(m, im, p) <= threshold then NOTDEF else m.atan2(GradX(im, p), -GradY(im, p))
  }

  lemma NormNonNeg(m: Libm, im: ImageDouble, p: Point)
    requires m.Lawful() && im.Valid() && Inner(p, im.xsize, im.ysize)
    ensures Norm(m, im, p) >= 0.0
  {
    SqrLaw(GradX(im, p));
    SqrLaw(GradY(im, p));
    SqrtLaw(m, (Sqr(GradX(im, p)) + Sqr(GradY(im, p))) / 4.0);
  }

  lemma SqrtUnique(m: Libm, x: real, r: real)
    requires m.Lawful() && r >= 0.0 && Sqr(r) == x
    ensures m.sqrt(x) == r
  {
    SqrtOfSquare(m, r);
  }

  /** Half of a root is the root of a quarter. */
  lemma HalfNorm(m: Libm, a: real, b: real)
    requires m.Lawful()
    ensures m.sqrt((Sqr(a) + Sqr(b)) / 4.0) == m.Norm(-b, a) / 2.0
    ensures m.Norm(-b, a) >= 0.0 && Sqr(m.Norm(-b, a)) == Sqr(a) + Sqr(b)
  {
    NormLaw(m, -b, a);
    assert Sqr(-b) == Sqr(b);
    var r := m.Norm(-b, a);
    assert Sqr(r / 2.0) == Sqr(r) / 4.0;
    hide Libm.Norm, Libm.Lawful, Sqr;
    SqrtUnique(m, (Sqr(a) + Sqr(b)) / 4.0, r / 2.0);
  }

  /** The direction t is at a right angle to (gx,gy), whose length is n, always on the same side of it. */
  ghost predicate Across(m: Libm, t: real, gx: real, gy: real, n: real) {
    gx * m.cos(t) + gy * m.sin(t) == 0.0 && gx * m.sin(t) - gy * m.cos(t) == n && Sqr(n) == Sqr(gx) + Sqr(gy)
  }

  /** The level line: with A B / C D the gray levels of the window, the gradient is (B+D - (A+C), C+D - (A+B)), a
      pixel has an angle if and only if half its length is above the threshold, and the angle is across it. */
  lemma LevelLine(m: Libm, im: ImageDouble, p: Point, threshold: real)
    requires m.Lawful() && im.Valid() && Inner(p, im.xsize, im.ysize) && threshold >= 0.0
    ensures var a, b := im.At(p), im.At(Point(p.x + 1, p.y));
            var c, d := im.At(Point(p.x, p.y + 1)), im.At(Point(p.x + 1, p.y + 1));
            var n, t := Norm(m, im, p), LevelAngle(m, im, p, threshold);
            && n >= 0.0 && Sqr(2.0 * n) == Sqr((b + d) - (a + c)) + Sqr((c + d) - (a + b))
            && (t != NOTDEF <==> n > threshold)
            && (t != NOTDEF ==> Across(m, t, (b + d) - (a + c), (c + d) - (a + b), 2.0 * n))
  {
    CornerDifferences(im, p);
    AngleOfGradient(m, im, p, threshold);
    hide *;
  }

  lemma CornerDifferences(im: ImageDouble, p: Point)
    requires im.Valid() && Inner(p, im.xsize, im.ysize)
    ensures var a, b := im.At(p), im.At(Point(p.x + 1, p.y));
            var c, d := im.At(Point(p.x, p.y + 1)), im.At(Point(p.x + 1, p.y + 1));
            GradX(im, p) == (b + d) - (a + c) && GradY(im, p) == (c + d) - (a + b)
  {
    hide Pix;
  }

  lemma AngleOfGradient(m: Libm, im: ImageDouble, p: Point, threshold: real)
    requires m.Lawful() && im.Valid() && Inner(p, im.xsize, im.ysize) && threshold >= 0.0
    ensures var gx, gy, n, t := GradX(im, p), GradY(im, p), Norm(m, im, p), LevelAngle(m, im, p, threshold);
            && n >= 0.0 && Sqr(2.0 * n) == Sqr(gx) + Sqr(gy)
            && (t != NOTDEF <==> n > threshold)
            && (t != NOTDEF ==> Across(m, t, gx, gy, 2.0 * n))
  {
    hide GradX, GradY, Sqr, Libm.Lawful, Across, Libm.Norm;
    var gx, gy := GradX(im, p), GradY(im, p);
    HalfNorm(m, gx, gy);
    var r, n, t := m.Norm(-gy, gx), Norm(m, im, p), m.atan2(gx, -gy);
    assert n == r / 2.0 && 2.0 * n == r;
    PolarLaw(m, gx, -gy);
    var l := LevelAngle(m, im, p, threshold);
    assert l == if n <= threshold then NOTDEF else t;
    if n > threshold {
      IsAcross(m, t, gx, gy, r);
    }
  }

  lemma IsAcross(m: Libm, t: real, gx: real, gy: real, r: real)
    requires r > 0.0 && r * m.cos(t) == -gy && r * m.sin(t) == gx && Sqr(r) == Sqr(gx) + Sqr(gy)
    ensures Across(m, t, gx, gy, r)
  {
    RightAngle(gx, gy, r, m.cos(t), m.sin(t));
  }

  lemma RightAngle(gx: real, gy: real, r: real, a: real, b: real)
    requires r > 0.0 && r * a == -gy && r * b == gx && Sqr(r) == Sqr(gx) + Sqr(gy)
    ensures gx * a + gy * b == 0.0 && gx * b - gy * a == r
  {
    assert gx * a + gy * b == (r * b) * a - (r * a) * b;
    var v := gx * b - gy * a;
    assert r * v == gx * (r * b) - gy * (r * a);
    if v < r {
      MulMonoStrict(v, r, r);
    } else if v > r {
      MulMonoStrict(r, v, r);
    }
  }

  /** The gray level at (x,y) of a linear ramp. */
  function Ramp(a: real, b: real, c: real, x: real, y: real): real {
    a * x + b * y + c
  }

  /** On a linear ramp the norm is the slope, and the angle runs along the lines of equal level with the lighter side
      on a fixed hand. */
  lemma RampAngle(m: Libm, im: ImageDouble, p: Point, threshold: real, a: real, b: real, c: real)
    requires m.Lawful() && im.Valid() && Inner(p, im.xsize, im.ysize) && threshold >= 0.0
    requires forall q | im.Has(q) :: im.At(q) == Ramp(a, b, c, q.x as real, q.y as real)
    ensures var n, t := Norm(m, im, p), LevelAngle(m, im, p, threshold);
            && n >= 0.0 && Sqr(n) == Sqr(a) + Sqr(b)
            && (t != NOTDEF <==> n > threshold)
            && (t != NOTDEF ==> Across(m, t, a, b, n))
  {
    AngleOfGradient(m, im, p, threshold);
    RampGradient(im, p, a, b, c);
    hide *;
    RampStep(m, LevelAngle(m, im, p, threshold), a, b, Norm(m, im, p));
  }

  lemma RampStep(m: Libm, t: real, a: real, b: real, n: real)
    ensures Sqr(2.0 * n) == Sqr(2.0 * a) + Sqr(2.0 * b) <==> Sqr(n) == Sqr(a) + Sqr(b)
    ensures Across(m, t, 2.0 * a, 2.0 * b, 2.0 * n) <==> Across(m, t, a, b, n)
  {
    var u, v := m.cos(t), m.sin(t);
    assert (2.0 * a) * u + (2.0 * b) * v == 2.0 * (a * u + b * v);
    assert (2.0 * a) * v - (2.0 * b) * u == 2.0 * (a * v - b * u);
    assert Sqr(2.0 * n) == 4.0 * Sqr(n) && Sqr(2.0 * a) == 4.0 * Sqr(a) && Sqr(2.0 * b) == 4.0 * Sqr(b);
  }

  lemma RampGradient(im: ImageDouble, p: Point, a: real, b: real, c: real)
    requires im.Valid() && Inner(p, im.xsize, im.ysize)
    requires forall q | im.Has(q) :: im.At(q) == Ramp(a, b, c, q.x as real, q.y as real)
    ensures GradX(im, p) == 2.0 * a && GradY(im, p) == 2.0 * b
  {
    CornerDifferences(im, p);
    hide Pix, ImageDouble.At, GradX, GradY, Ramp;
    RampDifferences(a, b, c, p.x as real, p.y as real);
  }

  lemma RampDifferences(a: real, b: real, c: real, x: real, y: real)
    ensures (Ramp(a, b, c, x + 1.0, y) + Ramp(a, b, c, x + 1.0, y + 1.0))
            - (Ramp(a, b, c, x, y) + Ramp(a, b, c, x, y + 1.0)) == 2.0 * a
    ensures (Ramp(a, b, c, x, y + 1.0) + Ramp(a, b, c, x + 1.0, y + 1.0))
            - (Ramp(a, b, c, x, y) + Ramp(a, b, c, x + 1.0, y)) == 2.0 * b
  {
  }

  /** Column by column, everything before (x,y). */
  predicate Seen(q: Point, x: int, y: int) {
    q.x < x || (q.x == x && q.y < y)
  }

  /** The two boundary lines are undefined, as far as (x,y) tells. */
  ghost predicate Border(g: seq<real>, w: nat, h: nat, x: int, y: int)
    requires |g| == w * h
  {
    forall q | InGrid(q, w, h) && ((q.y == h - 1 && q.x < x) || (q.x == w - 1 && q.y < y)) ::
      Pix(g, w, h, q) == NOTDEF
  }

  lemma BorderStep(g: seq<real>, w: nat, h: nat, x: int, y: int, p: Point, x': int, y': int)
    requires |g| == w * h && Border(g, w, h, x, y) && InGrid(p, w, h)
    requires (p == Point(x, h - 1) && x' == x + 1 && y' == y) || (p == Point(w - 1, y) && x' == x && y' == y + 1)
    ensures 0 <= Adr(p, w) < |g| && Border(g[Adr(p, w) := NOTDEF], w, h, x', y')
  {
    AdrBounds(p, w, h);
    forall q | InGrid(q, w, h) && ((q.y == h - 1 && q.x < x') || (q.x == w - 1 && q.y < y'))
      ensures Pix(g[Adr(p, w) := NOTDEF], w, h, q) == NOTDEF
    {
      PixUpdate(g, w, h, p, NOTDEF, q);
    }
  }

  /** Angle and norm images, right on the boundary and up to (x,y). */
  ghost predicate Filled(m: Libm, im: ImageDouble, threshold: real, g: seq<real>, md: seq<real>, x: int, y: int) {
    && im.Valid() && |g| == |md| == im.xsize * im.ysize
    && forall q | im.Has(q) ::
         if !Inner(q, im.xsize, im.ysize) then
           Pix(g, im.xsize, im.ysize, q) == NOTDEF && Pix(md, im.xsize, im.ysize, q) == 0.0
         else
           Seen(q, x, y) ==> Pix(g, im.xsize, im.ysize, q) == LevelAngle(m, im, q, threshold)
                             && Pix(md, im.xsize, im.ysize, q) == Norm(m, im, q)
  }

  /** The angles of an image, ... */
  ghost function AnglesOf(m: Libm, im: ImageDouble, threshold: real): (g: ImageDouble)
    requires im.Valid()
    ensures g.Valid() && g.xsize == im.xsize && g.ysize == im.ysize
  {
    Drawn(im.xsize, im.ysize, p => if im.Valid() && Inner(p, im.xsize, im.ysize) then LevelAngle(m, im, p, threshold)
                                   else NOTDEF)
  }

  /** ... and its gradient norms. */
  ghost function NormsOf(m: Libm, im: ImageDouble): (md: ImageDouble)
    requires im.Valid()
    ensures md.Valid() && md.xsize == im.xsize && md.ysize == im.ysize
  {
    Drawn(im.xsize, im.ysize, p => if im.Valid() && Inner(p, im.xsize, im.ysize) then Norm(m, im, p) else 0.0)
  }

  /** Filled images are those of the gradient, and no others. */
  lemma FilledExactly(m: Libm, im: ImageDouble, threshold: real, g: ImageDouble, md: ImageDouble)
    requires im.Valid() && g.Valid() && md.Valid()
    requires g.xsize == md.xsize == im.xsize && g.ysize == md.ysize == im.ysize
    ensures Filled(m, im, threshold, g.data, md.data, im.xsize, 0)
            <==> g == AnglesOf(m, im, threshold) && md == NormsOf(m, im)
  {
    hide Norm, LevelAngle, Pix;
    var w, h := im.xsize, im.ysize;
    var g1, md1 := AnglesOf(m, im, threshold), NormsOf(m, im);
    assert forall p | im.Has(p) && Inner(p, w, h) :: Seen(p, w, 0);
    assert forall p | im.Has(p) :: Pix(g1.data, w, h, p) == g1.At(p) && Pix(md1.data, w, h, p) == md1.At(p);
    if Filled(m, im, threshold, g.data, md.data, w, 0) {
      SameData(g.data, g1.data, w, h);
      SameData(md.data, md1.data, w, h);
    }
  }

  lemma MaxGradUnique(m: Libm, im: ImageDouble, threshold: real, a: real, b: real)
    requires im.Valid() && threshold >= 0.0
    requires IsMaxGrad(m, im, threshold, a, im.xsize, 0) && IsMaxGrad(m, im, threshold, b, im.xsize, 0)
    ensures a == b
  {
    hide Norm;
  }

  lemma FilledStart(m: Libm, im: ImageDouble, threshold: real, g: seq<real>, md: seq<real>)
    requires im.Valid() && |g| == |md| == im.xsize * im.ysize
    requires Border(g, im.xsize, im.ysize, im.xsize, im.ysize) && forall i | 0 <= i < |md| :: md[i] == 0.0
    ensures Filled(m, im, threshold, g, md, 0, 0)
  {
    forall q | im.Has(q)
      ensures Pix(md, im.xsize, im.ysize, q) == 0.0
    {
      AdrBounds(q, im.xsize, im.ysize);
    }
  }

  lemma FilledStep(m: Libm, im: ImageDouble, threshold: real, g: seq<real>, md: seq<real>, p: Point)
    requires Filled(m, im, threshold, g, md, p.x, p.y) && Inner(p, im.xsize, im.ysize)
    ensures 0 <= Adr(p, im.xsize) < |g|
    ensures Filled(m, im, threshold, g[Adr(p, im.xsize) := LevelAngle(m, im, p, threshold)],
                   md[Adr(p, im.xsize) := Norm(m, im, p)], p.x, p.y + 1)
  {
    hide LevelAngle, Norm, Pix;
    AdrBounds(p, im.xsize, im.ysize);
    forall q | im.Has(q)
      ensures var a := Adr(p, im.xsize);
              && Pix(g[a := LevelAngle(m, im, p, threshold)], im.xsize, im.ysize, q)
                 == (if q == p then LevelAngle(m, im, p, threshold) else Pix(g, im.xsize, im.ysize, q))
              && Pix(md[a := Norm(m, im, p)], im.xsize, im.ysize, q)
                 == (if q == p then Norm(m, im, p) else Pix(md, im.xsize, im.ysize, q))
    {
      PixUpdate(g, im.xsize, im.ysize, p, LevelAngle(m, im, p, threshold), q);
      PixUpdate(md, im.xsize, im.ysize, p, Norm(m, im, p), q);
    }
  }

  lemma NextFilled(m: Libm, im: ImageDouble, threshold: real, g: seq<real>, md: seq<real>, x: int, y: int)
    requires Filled(m, im, threshold, g, md, x, y) && y >= im.ysize - 1
    ensures Filled(m, im, threshold, g, md, x + 1, 0)
  {
    hide LevelAngle, Norm, Pix;
  }

  /** The largest norm above the threshold among the pixels before (x,y); 0 if there is none. */
  ghost predicate IsMaxGrad(m: Libm, im: ImageDouble, threshold: real, maxGrad: real, x: int, y: int)
    requires im.Valid()
  {
    && maxGrad >= 0.0
    && (forall q | Inner(q, im.xsize, im.ysize) && Seen(q, x, y) ::
          Norm(m, im, q) > threshold ==> threshold < Norm(m, im, q) <= maxGrad)
    && (maxGrad > 0.0 ==>
          exists q | Inner(q, im.xsize, im.ysize) && Seen(q, x, y) :: threshold < Norm(m, im, q) == maxGrad)
  }

  /** The last row and the last column get no angle, lines 800-801. */
  method MarkBorder(g: array<real>, w: nat, h: nat)
    requires g.Length == w * h && w > 0 && h > 0
    modifies g
    ensures Border(g[..], w, h, w, h)
  {
    hide Pix, Border;
    EmptyBorder(g[..], w, h);
    var x, y := 0, 0;
    while x < w
      invariant 0 <= x <= w && Border(g[..], w, h, x, 0)
    {
      BorderStep(g[..], w, h, x, 0, Point(x, h - 1), x + 1, 0);
      ghost var u := g[..];
      g[(h - 1) * w + x] := NOTDEF;
      assert g[..] == u[Adr(Point(x, h - 1), w) := NOTDEF];
      x := x + 1;
    }
    while y < h
      invariant 0 <= y <= h && Border(g[..], w, h, w, y)
    {
      BorderStep(g[..], w, h, w, y, Point(w - 1, y), w, y + 1);
      ghost var u := g[..];
      g[w * y + w - 1] := NOTDEF;
      assert g[..] == u[Adr(Point(w - 1, y), w) := NOTDEF];
      y := y + 1;
    }
  }

  method ComputeGradient(m: Libm, im: ImageDouble, threshold: real)
    returns (g: ImageDouble, modgrad: ImageDouble, maxGrad: real)
    requires m.Lawful() && im.Valid() && threshold >= 0.0
    ensures g.Valid() && modgrad.Valid() && g.xsize == modgrad.xsize == im.xsize && g.ysize == modgrad.ysize == im.ysize
    ensures Filled(m, im, threshold, g.data, modgrad.data, im.xsize, 0)
    ensures IsMaxGrad(m, im, threshold, maxGrad, im.xsize, 0)
  {
    hide LevelAngle, Norm, Pix, Libm.Lawful, GradX, GradY, Filled, IsMaxGrad, Border;
    var w, h := im.xsize, im.ysize;
    var gd, md := new real[w * h](_ => 0.0), new real[w * h](_ => 0.0);
    MarkBorder(gd, w, h);
    FilledStart(m, im, threshold, gd[..], md[..]);

    // norm and angle of every pixel with a window
    maxGrad := 0.0;
    NoMaxGrad(m, im, threshold);
    var x := 0;
    while x < w - 1
      invariant 0 <= x <= w && (x == w ==> w == 0) && Filled(m, im, threshold, gd[..], md[..], x, 0)
      invariant IsMaxGrad(m, im, threshold, maxGrad, x, 0)
    {
      var y := 0;
      while y < h - 1
        invariant 0 <= y <= h - 1 && Filled(m, im, threshold, gd[..], md[..], x, y)
        invariant IsMaxGrad(m, im, threshold, maxGrad, x, y)
      {
        var p := Point(x, y);
        FilledStep(m, im, threshold, gd[..], md[..], p);
        NormNonNeg(m, im, p);
        MaxGradStep(m, im, threshold, maxGrad, p);
        var norm, angle := WindowGradient(m, im, p, threshold);
        ghost var u, v := gd[..], md[..];

        md[Adr(p, w)] := norm;
        gd[Adr(p, w)] := angle;
        if norm > threshold && norm > maxGrad {
          maxGrad := norm;
        }
        assert gd[..] == u[Adr(p, w) := angle] && md[..] == v[Adr(p, w) := norm];
        y := y + 1;
      }
      NextFilled(m, im, threshold, gd[..], md[..], x, y);
      NextMaxGrad(m, im, threshold, maxGrad, x, y);
      x := x + 1;
    }
    LastColumn(m, im, threshold, gd[..], md[..], maxGrad, x);
    g, modgrad := ImageDouble(gd[..], w, h), ImageDouble(md[..], w, h);
  }

  /** Lines 820-835 for one pixel. */
  method WindowGradient(m: Libm, im: ImageDouble, p: Point, threshold: real) returns (norm: real, angle: real)
    requires im.Valid() && Inner(p, im.xsize, im.ysize)
    ensures norm == Norm(m, im, p) && angle == LevelAngle(m, im, p, threshold)
  {
    var com1 := im.At(Point(p.x + 1, p.y + 1)) - im.At(p);
    var com2 := im.At(Point(p.x + 1, p.y)) - im.At(Point(p.x, p.y + 1));
    var gx, gy := com1 + com2, com1 - com2;
    norm := m.sqrt((Sqr(gx) + Sqr(gy)) / 4.0);
    angle := if norm <= threshold then NOTDEF else m.atan2(gx, -gy);
  }

  lemma EmptyBorder(g: seq<real>, w: nat, h: nat)
    requires |g| == w * h
    ensures Border(g, w, h, 0, 0)
  {
  }

  lemma NoMaxGrad(m: Libm, im: ImageDouble, threshold: real)
    requires im.Valid()
    ensures IsMaxGrad(m, im, threshold, 0.0, 0, 0)
  {
  }

  lemma MaxGradStep(m: Libm, im: ImageDouble, threshold: real, maxGrad: real, p: Point)
    requires im.Valid() && Inner(p, im.xsize, im.ysize) && IsMaxGrad(m, im, threshold, maxGrad, p.x, p.y)
    ensures var norm := Norm(m, im, p);
            IsMaxGrad(m, im, threshold, if norm > threshold && norm > maxGrad then norm else maxGrad, p.x, p.y + 1)
  {
    hide Norm;
    var norm := Norm(m, im, p);
    if norm > threshold && norm > maxGrad {
      assert Seen(p, p.x, p.y + 1);
    } else if maxGrad > 0.0 {
      var q :| Inner(q, im.xsize, im.ysize) && Seen(q, p.x, p.y) && threshold < Norm(m, im, q) == maxGrad;
      assert Seen(q, p.x, p.y + 1);
    }
  }

  lemma NextMaxGrad(m: Libm, im: ImageDouble, threshold: real, maxGrad: real, x: int, y: int)
    requires im.Valid() && IsMaxGrad(m, im, threshold, maxGrad, x, y) && y >= im.ysize - 1
    ensures IsMaxGrad(m, im, threshold, maxGrad, x + 1, 0)
  {
    hide Norm;
    if maxGrad > 0.0 {
      var q :| Inner(q, im.xsize, im.ysize) && Seen(q, x, y) && threshold < Norm(m, im, q) == maxGrad;
      assert Seen(q, x + 1, 0);
    }
  }

  lemma LastColumn(m: Libm, im: ImageDouble, threshold: real, g: seq<real>, md: seq<real>, maxGrad: real, x: int)
    requires Filled(m, im, threshold, g, md, x, 0) && IsMaxGrad(m, im, threshold, maxGrad, x, 0)
    requires im.xsize - 1 <= x <= im.xsize
    ensures Filled(m, im, threshold, g, md, im.xsize, 0) && IsMaxGrad(m, im, threshold, maxGrad, im.xsize, 0)
  {
    hide Norm, LevelAngle, Pix;
    if maxGrad > 0.0 {
      var q :| Inner(q, im.xsize, im.ysize) && Seen(q, x, 0) && threshold < Norm(m, im, q) == maxGrad;
      assert Seen(q, im.xsize, 0);
    }
  }

  /** Bin of a norm, lines 849-850. Without a defined pixel max_grad is 0, the quotient is not
      finite and the cast gives whatever the machine delivers. */
  function BinOf(m: Libm, norm: real, nBins: nat, maxGrad: real): (i: nat)
    requires nBins > 0 && norm >= 0.0 && maxGrad >= 0.0
    ensures i < nBins
  {
    var i := if maxGrad == 0.0 then m.badCast(norm) else BinFloor(norm, nBins, maxGrad);
    if i >= nBins then nBins - 1 else i
  }

  function BinFloor(norm: real, nBins: nat, maxGrad: real): (i: nat)
    requires norm >= 0.0 && maxGrad > 0.0
    ensures i as real * maxGrad <= norm * nBins as real < (i as real + 1.0) * maxGrad
  {
    FloorOfQuotient(norm * nBins as real, maxGrad, (norm * nBins as real / maxGrad).Floor);
    MulNonNeg(norm, nBins as real);
    QuotientNonNeg(norm * nBins as real, maxGrad);
    (norm * nBins as real / maxGrad).Floor
  }

  lemma FloorOfQuotient(a: real, d: real, f: int)
    requires d > 0.0 && f == (a / d).Floor
    ensures f as real * d <= a < (f as real + 1.0) * d
  {
    QuotientBetween(a, d, a / d, f as real, f as real + 1.0);
  }

  lemma QuotientBetween(a: real, d: real, q: real, lo: real, hi: real)
    requires d > 0.0 && q == a / d && lo <= q < hi
    ensures lo * d <= a < hi * d
  {
    assert q * d == a;
    MulMono(lo, q, d);
    MulMonoStrict(q, hi, d);
  }

  ghost predicate NormImage(md: ImageDouble) {
    md.Valid() && forall p | md.Has(p) :: md.At(p) >= 0.0
  }

  /** The bins of a sequence of pixels. */
  ghost function Keys(m: Libm, md: ImageDouble, nBins: nat, maxGrad: real, s: seq<Point>): seq<nat>
    requires NormImage(md) && nBins > 0 && maxGrad >= 0.0 && forall p | p in s :: md.Has(p)
  {
    seq(|s|, i requires 0 <= i < |s| => BinOf(m, md.At(s[i]), nBins, maxGrad))
  }

  /** The pool holds the pixels of `s` in order of arrival, chained per bin. */
  ghost predicate Binned(pool: seq<Coor>, first: seq<int>, last: seq<int>, s: seq<Point>, keys: seq<nat>) {
    && |s| == |keys| <= |pool| && |first| == |last|
    && (forall k | 0 <= k < |s| :: pool[k].x == s[k].x && pool[k].y == s[k].y && keys[k] < |first|)
    && (forall b | 0 <= b < |first| ::
          Chained(pool, Bucket(keys, b)) && Heads(first[b], Bucket(keys, b)) && Tails(last[b], Bucket(keys, b)))
  }

  /** A pixel opens its bin ... */
  lemma OpenBin(pool: seq<Coor>, first: seq<int>, last: seq<int>, s: seq<Point>, keys: seq<nat>, p: Point, b: nat)
    requires Binned(pool, first, last, s, keys) && |s| < |pool| && b < |first| && last[b] == NULL
    ensures Binned(pool[|s| := Coor(p.x, p.y, NULL)], first[b := |s|], last[b := |s|], s + [p], keys + [b])
  {
    var c, keys' := |s|, keys + [b];
    assert keys'[..c] == keys;
    forall b' | 0 <= b' < |first|
      ensures Chained(pool[c := Coor(p.x, p.y, NULL)], Bucket(keys', b'))
    {
      BucketMembers(keys, b');
      Untouched(pool, Bucket(keys, b'), c, Coor(p.x, p.y, NULL));
    }
  }

  /** ... or is hung behind the last one of it. */
  lemma ExtendBin(pool: seq<Coor>, first: seq<int>, last: seq<int>, s: seq<Point>, keys: seq<nat>, p: Point, b: nat)
    requires Binned(pool, first, last, s, keys) && |s| < |pool| && b < |first| && last[b] != NULL
    ensures 0 <= last[b] < |s|
    ensures var linked := pool[last[b] := pool[last[b]].(next := |s|)];
            Binned(linked[|s| := Coor(p.x, p.y, NULL)], first, last[b := |s|], s + [p], keys + [b])
  {
    hide Chained, Bucket;
    var c, e := |s|, Coor(p.x, p.y, NULL);
    BucketMembers(keys, b);
    var l := last[b];
    assert l in Bucket(keys, b);
    forall b' | 0 <= b' < |first|
      ensures Chained(pool[l := pool[l].(next := c)][c := e], Bucket(keys + [b], b'))
      ensures Bucket(keys + [b], b') == if b' == b then Bucket(keys, b) + [c] else Bucket(keys, b')
    {
      BucketStep(keys, b, b');
      ExtendOne(pool, keys, c, e, l, b, b');
    }
  }

  lemma BucketStep(keys: seq<nat>, b: nat, b': nat)
    ensures Bucket(keys + [b], b') == if b' == b then Bucket(keys, b) + [|keys|] else Bucket(keys, b')
  {
    assert (keys + [b])[..|keys|] == keys;
  }

  lemma ExtendOne(pool: seq<Coor>, keys: seq<nat>, c: nat, e: Coor, l: nat, b: nat, b': nat)
    requires |keys| == c < |pool| && e.next == NULL && l < c && keys[l] == b && Chained(pool, Bucket(keys, b'))
    requires Bucket(keys, b) != [] && Tails(l, Bucket(keys, b))
    ensures var q := pool[l := pool[l].(next := c)][c := e];
            Chained(q, if b' == b then Bucket(keys, b) + [c] else Bucket(keys, b'))
  {
    hide Bucket;
    BucketMembers(keys, b');
    if b' == b {
      ExtendChain(pool, Bucket(keys, b), c, e);
    } else {
      Untouched(pool, Bucket(keys, b'), l, pool[l].(next := c));
      Untouched(pool[l := pool[l].(next := c)], Bucket(keys, b'), c, e);
    }
  }

  lemma ExtendChain(pool: seq<Coor>, a: seq<nat>, c: nat, e: Coor)
    requires Chained(pool, a) && a != [] && c < |pool| && e.next == NULL
    requires forall i, j | 0 <= i < j < |a| :: a[i] < a[j]
    requires forall i | 0 <= i < |a| :: a[i] < c
    ensures var l := a[|a| - 1];
            Chained(pool[l := pool[l].(next := c)][c := e], a + [c])
  {
  }

  /** Hanging the bins behind each other, from the highest to the lowest. */
  ghost predicate Linked(pool: seq<Coor>, keys: seq<nat>, nBins: nat, low: nat, start: int, end: int) {
    && low <= nBins
    && Chained(pool, Order(keys, nBins, low))
    && Heads(start, Order(keys, nBins, low)) && Tails(end, Order(keys, nBins, low))
    && forall b | 0 <= b < low :: Chained(pool, Bucket(keys, b))
  }

  lemma LinkStep(pool: seq<Coor>, keys: seq<nat>, nBins: nat, low: nat, start: int, end: int)
    requires 0 < low && Linked(pool, keys, nBins, low, start, end)
    requires Order(keys, nBins, low) != [] && Bucket(keys, low - 1) != []
    ensures 0 <= end < |pool|
    ensures var c := Bucket(keys, low - 1);
            Linked(pool[end := pool[end].(next := c[0])], keys, nBins, low - 1, start, c[|c| - 1])
  {
    var o, c := Order(keys, nBins, low), Bucket(keys, low - 1);
    assert Order(keys, nBins, low - 1) == o + c;
    hide Order, Bucket, Chained, Listed, InListOrder, Distinct;
    OrderSorted(keys, nBins, low);
    BucketMembers(keys, low - 1);
    assert end in o;
    OrderDistinct(keys, o);
    ChainedInPool(pool, o, |o| - 1);
    Join(pool, o, c);
    forall b | 0 <= b < low - 1
      ensures Chained(pool[end := pool[end].(next := c[0])], Bucket(keys, b))
    {
      BucketMembers(keys, b);
      Untouched(pool, Bucket(keys, b), end, pool[end].(next := c[0]));
    }
  }

  lemma ChainedInPool(pool: seq<Coor>, c: seq<nat>, i: nat)
    requires Chained(pool, c) && i < |c|
    ensures c[i] < |pool|
  {
  }

  lemma LinkNothing(pool: seq<Coor>, keys: seq<nat>, nBins: nat, low: nat, start: int, end: int)
    requires 0 < low && Linked(pool, keys, nBins, low, start, end) && Bucket(keys, low - 1) == []
    ensures Linked(pool, keys, nBins, low - 1, start, end)
  {
    assert Order(keys, nBins, low) + [] == Order(keys, nBins, low);
  }

  lemma LinkFirst(pool: seq<Coor>, first: seq<int>, last: seq<int>, s: seq<Point>, keys: seq<nat>, low: nat)
    requires Binned(pool, first, last, s, keys) && low < |first| && Order(keys, |first|, low + 1) == []
    ensures Linked(pool, keys, |first|, low, first[low], last[low])
  {
    assert [] + Bucket(keys, low) == Bucket(keys, low);
  }

  /** Columns 0..x-1 in full, and y pixels of column x. */
  ghost function ScanTo(x: nat, y: nat, h: nat): seq<Point> {
    Scan(x, h) + Column(x, y)
  }

  lemma ScanSteps(x: nat, y: nat, h: nat)
    requires y <= h
    ensures y < h ==> ScanTo(x, y + 1, h) == ScanTo(x, y, h) + [Point(x, y)]
    ensures ScanTo(x, h, h) == ScanTo(x + 1, 0, h)
    ensures |ScanTo(x, y, h)| == x * h + y
    ensures forall p | p in ScanTo(x, y, h) :: InGrid(p, x + 1, h)
  {
    assert Scan(x, h) + Column(x, h) == Scan(x + 1, h);
    assert Scan(x + 1, h) + Column(x + 1, 0) == Scan(x + 1, h);
    ScanMembers(x, h);
    forall p | p in ScanTo(x, y, h)
      ensures InGrid(p, x + 1, h)
    {
      assert p in Scan(x, h) || p in Column(x, y);
    }
  }

  lemma ScanFits(x: nat, y: nat, w: nat, h: nat)
    requires x < w - 1 && y < h - 1
    ensures x * (h - 1) + y < w * h
  {
    assert (x + 1) * (h - 1) == x * (h - 1) + (h - 1);
    MulBound(x + 1, w, h - 1);
    assert w * (h - 1) == w * h - w;
  }

  lemma EmptyBins(pool: seq<Coor>, first: seq<int>, last: seq<int>)
    requires |first| == |last| && forall b | 0 <= b < |first| :: first[b] == NULL && last[b] == NULL
    ensures Binned(pool, first, last, [], [])
  {
  }

  /** One pixel goes into its bin, lines 849-860. */
  method AddToBin(list: array<Coor>, first: array<int>, last: array<int>, count: nat, x: int, y: int, i: nat,
                  ghost s: seq<Point>, ghost keys: seq<nat>)
    requires first != last && first.Length == last.Length && i < first.Length
    requires Binned(list[..], first[..], last[..], s, keys) && count == |s| < list.Length
    modifies list, first, last
    ensures Binned(list[..], first[..], last[..], s + [Point(x, y)], keys + [i])
  {
    ghost var pool, f, l := list[..], first[..], last[..];
    if last[i] == NULL {
      OpenBin(pool, f, l, s, keys, Point(x, y), i);
      first[i], last[i] := count, count;
    } else {
      ExtendBin(pool, f, l, s, keys, Point(x, y), i);
      list[last[i]] := list[last[i]].(next := count);
      last[i] := count;
    }
    list[count] := Coor(x, y, NULL);
    if l[i] == NULL {
      assert list[..] == pool[count := Coor(x, y, NULL)] && first[..] == f[i := count] && last[..] == l[i := count];
    } else {
      assert list[..] == pool[l[i] := pool[l[i]].(next := count)][count := Coor(x, y, NULL)];
      assert first[..] == f && last[..] == l[i := count];
    }
  }

  /** The bins are chained from the highest down, lines 868-880. */
  method LinkBins(list: array<Coor>, first: array<int>, last: array<int>, nBins: nat,
                  ghost s: seq<Point>, ghost keys: seq<nat>) returns (start: int)
    requires first != last && first.Length == last.Length == nBins > 0
    requires Binned(list[..], first[..], last[..], s, keys)
    modifies list
    ensures Chained(list[..], Order(keys, nBins, 0)) && Heads(start, Order(keys, nBins, 0))
    ensures forall k | 0 <= k < list.Length :: list[k].x == old(list[k].x) && list[k].y == old(list[k].y)
  {
    hide Chained, Linked, Binned, Bucket, Order;
    EndsOf(list[..], first[..], last[..], s, keys);
    TopOrder(keys, nBins);
    var i := nBins - 1;
    while i > 0 && first[i] == NULL
      invariant 0 <= i < nBins && Order(keys, nBins, i + 1) == [] && list[..] == old(list[..])
    {
      EmptyBucket(keys, nBins, i);
      i := i - 1;
    }
    LinkFirst(list[..], first[..], last[..], s, keys, i);
    start := first[i];
    var end := last[i];
    LinkedStart(list[..], keys, nBins, i, start, end);
    if start != NULL {
      while i > 0
        invariant 0 <= i < nBins && Linked(list[..], keys, nBins, i, start, end)
        invariant Order(keys, nBins, i) != []
        invariant forall k | 0 <= k < list.Length :: list[k].x == old(list[k].x) && list[k].y == old(list[k].y)
      {
        i := i - 1;
        if first[i] != NULL {
          LinkStep(list[..], keys, nBins, i + 1, start, end);
          ghost var pool := list[..];
          list[end] := list[end].(next := first[i]);
          assert list[..] == pool[end := pool[end].(next := first[i])];
          end := last[i];
        } else {
          LinkNothing(list[..], keys, nBins, i + 1, start, end);
        }
        OrderGrows(keys, nBins, i);
      }
    }
    LinkedStart(list[..], keys, nBins, 0, start, end);
  }

  /** first[] and last[] tell which bins are empty. */
  lemma EndsOf(pool: seq<Coor>, first: seq<int>, last: seq<int>, s: seq<Point>, keys: seq<nat>)
    requires Binned(pool, first, last, s, keys)
    ensures forall b | 0 <= b < |first| :: Heads(first[b], Bucket(keys, b)) && Tails(last[b], Bucket(keys, b))
  {
    hide Chained, Bucket;
  }

  lemma TopOrder(keys: seq<nat>, nBins: nat)
    ensures Order(keys, nBins, nBins) == []
  {
  }

  lemma EmptyBucket(keys: seq<nat>, nBins: nat, i: nat)
    requires i < nBins && Order(keys, nBins, i + 1) == [] && Bucket(keys, i) == []
    ensures Order(keys, nBins, i) == []
  {
  }

  lemma OrderGrows(keys: seq<nat>, nBins: nat, i: nat)
    requires i < nBins && Order(keys, nBins, i + 1) != []
    ensures Order(keys, nBins, i) != []
  {
  }

  lemma LinkedStart(pool: seq<Coor>, keys: seq<nat>, nBins: nat, low: nat, start: int, end: int)
    requires Linked(pool, keys, nBins, low, start, end)
    ensures start != NULL <==> Order(keys, nBins, low) != []
    ensures Chained(pool, Order(keys, nBins, low)) && Heads(start, Order(keys, nBins, low))
  {
    hide Order, Bucket;
  }

  /** Scanning state: the pixels before (x,y) are in their bins. */
  ghost predicate ScanBinned(m: Libm, md: ImageDouble, nBins: nat, maxGrad: real, pool: seq<Coor>,
                             first: seq<int>, last: seq<int>, x: nat, y: nat)
  {
    && NormImage(md) && |first| == nBins > 0 && maxGrad >= 0.0 && y <= md.ysize - 1 && |pool| == md.xsize * md.ysize
    && var s := ScanTo(x, y, md.ysize - 1);
       && (forall p | p in s :: md.Has(p))
       && Binned(pool, first, last, s, Keys(m, md, nBins, maxGrad, s))
  }

  lemma ScanBinnedStep(m: Libm, md: ImageDouble, nBins: nat, maxGrad: real, x: nat, y: nat)
    requires NormImage(md) && nBins > 0 && maxGrad >= 0.0 && y < md.ysize - 1 && x < md.xsize - 1
    requires forall p | p in ScanTo(x, y, md.ysize - 1) :: md.Has(p)
    ensures var h := md.ysize - 1;
            var s, p := ScanTo(x, y, h), Point(x, y);
            && md.Has(p) && |s| == x * h + y < md.xsize * md.ysize
            && ScanTo(x, y + 1, h) == s + [p]
            && (forall q | q in s + [p] :: md.Has(q))
            && Keys(m, md, nBins, maxGrad, s + [p])
               == Keys(m, md, nBins, maxGrad, s) + [BinOf(m, md.At(p), nBins, maxGrad)]
  {
    hide BinOf;
    ScanSteps(x, y, md.ysize - 1);
    ScanFits(x, y, md.xsize, md.ysize);
    var s, p := ScanTo(x, y, md.ysize - 1), Point(x, y);
    forall q | q in s + [p]
      ensures md.Has(q)
    {
      assert q in s || q == p;
    }
  }

  /** The bucket sort of ll_angle, lines 842-881. */
  method SortPixels(m: Libm, md: ImageDouble, nBins: nat, maxGrad: real)
    returns (list: array<Coor>, start: int, ghost s: seq<Point>, ghost keys: seq<nat>)
    requires NormImage(md) && nBins > 0 && maxGrad >= 0.0
    ensures fresh(list) && list.Length == md.xsize * md.ysize
    ensures s == Scan(md.xsize - 1, md.ysize - 1) && (forall p | p in s :: md.Has(p))
    ensures keys == Keys(m, md, nBins, maxGrad, s) && |s| <= list.Length
    ensures Chained(list[..], Order(keys, nBins, 0)) && Heads(start, Order(keys, nBins, 0))
    ensures forall k | 0 <= k < |s| :: list[k].x == s[k].x && list[k].y == s[k].y
  {
    hide Binned, Keys, BinOf, ScanTo, Scan, Chained, Order, NormImage;
    NormImageValid(md);
    var h := md.ysize - 1;
    list := new Coor[md.xsize * md.ysize](_ => Coor(0, 0, NULL));
    var first, last := new int[nBins](_ => NULL), new int[nBins](_ => NULL);
    s, keys := ScanTo(0, 0, h), [];
    ScanStart(m, md, nBins, maxGrad, list[..], first[..], last[..]);
    var count, x := 0, 0;
    while x < md.xsize - 1
      invariant fresh(list) && fresh(first) && fresh(last) && first != last && last.Length == nBins
      invariant 0 <= x <= md.xsize - 1 && count == x * h && list.Length == md.xsize * md.ysize
      invariant ScanBinned(m, md, nBins, maxGrad, list[..], first[..], last[..], x, 0)
    {
      var y := 0;
      while y < md.ysize - 1
        invariant fresh(list) && fresh(first) && fresh(last) && first != last && last.Length == nBins
        invariant 0 <= y <= h && count == x * h + y && list.Length == md.xsize * md.ysize
        invariant ScanBinned(m, md, nBins, maxGrad, list[..], first[..], last[..], x, y)
      {
        ScanBinnedStep(m, md, nBins, maxGrad, x, y);
        NormAt(md, Point(x, y));
        var norm := md.At(Point(x, y));

        var i := BinOf(m, norm, nBins, maxGrad);
        s := ScanTo(x, y, h);
        AddToBin(list, first, last, count, x, y, i, s, Keys(m, md, nBins, maxGrad, s));
        count := count + 1;
        y := y + 1;
      }
      NextScan(m, md, nBins, maxGrad, list[..], first[..], last[..], x);
      x := x + 1;
    }
    s := ScanTo(x, 0, h);
    keys := Keys(m, md, nBins, maxGrad, s);
    BinnedPixels(list[..], first[..], last[..], s, keys);
    ScanAll(md.xsize - 1, h);
    start := LinkBins(list, first, last, nBins, s, keys);
  }

  lemma NormImageValid(md: ImageDouble)
    requires NormImage(md)
    ensures md.Valid()
  {
  }

  lemma NormAt(md: ImageDouble, p: Point)
    requires NormImage(md) && md.Has(p)
    ensures md.At(p) >= 0.0
  {
  }

  lemma ScanStart(m: Libm, md: ImageDouble, nBins: nat, maxGrad: real, pool: seq<Coor>, first: seq<int>, last: seq<int>)
    requires NormImage(md) && nBins > 0 && maxGrad >= 0.0 && |pool| == md.xsize * md.ysize
    requires |first| == |last| == nBins && forall b | 0 <= b < nBins :: first[b] == NULL && last[b] == NULL
    ensures ScanBinned(m, md, nBins, maxGrad, pool, first, last, 0, 0)
  {
    assert ScanTo(0, 0, md.ysize - 1) == [];
    EmptyBins(pool, first, last);
  }

  lemma NextScan(m: Libm, md: ImageDouble, nBins: nat, maxGrad: real, pool: seq<Coor>,
                 first: seq<int>, last: seq<int>, x: nat)
    requires md.ysize > 0 && ScanBinned(m, md, nBins, maxGrad, pool, first, last, x, md.ysize - 1)
    ensures ScanBinned(m, md, nBins, maxGrad, pool, first, last, x + 1, 0)
    ensures x * (md.ysize - 1) + (md.ysize - 1) == (x + 1) * (md.ysize - 1)
  {
    hide Binned, Keys, ScanTo;
    ScanSteps(x, md.ysize - 1, md.ysize - 1);
  }

  lemma ScanAll(w: nat, h: nat)
    ensures ScanTo(w, 0, h) == Scan(w, h)
  {
    assert Scan(w, h) + Column(w, 0) == Scan(w, h);
  }

  lemma BinnedPixels(pool: seq<Coor>, first: seq<int>, last: seq<int>, s: seq<Point>, keys: seq<nat>)
    requires Binned(pool, first, last, s, keys)
    ensures |s| <= |pool| && forall k | 0 <= k < |s| :: pool[k].x == s[k].x && pool[k].y == s[k].y
  {
  }

  /** The pixels in the order of the list. */
  ghost function Pick(s: seq<Point>, o: seq<nat>): seq<Point>
    requires forall i | 0 <= i < |o| :: o[i] < |s|
  {
    seq(|o|, i requires 0 <= i < |o| => s[o[i]])
  }

  /** Sorting loses and repeats nothing: the list is a permutation of the pixels with a window. */
  lemma ListIsPermutation(m: Libm, md: ImageDouble, nBins: nat, maxGrad: real, s: seq<Point>, keys: seq<nat>)
    requires NormImage(md) && nBins > 0 && maxGrad >= 0.0
    requires s == Scan(md.xsize - 1, md.ysize - 1) && (forall p | p in s :: md.Has(p))
    requires keys == Keys(m, md, nBins, maxGrad, s)
    ensures var o := Order(keys, nBins, 0);
            && (forall i | 0 <= i < |o| :: o[i] < |s|)
            && Distinct(Pick(s, o))
            && forall p :: p in Pick(s, o) <==> Inner(p, md.xsize, md.ysize)
  {
    hide BinOf, Order, Listed, Scan, NormImage, InListOrder, Distinct, Pick;
    var o := Order(keys, nBins, 0);
    NormImageValid(md);
    OrderSorted(keys, nBins, 0);
    OrderDistinct(keys, o);
    ScanMembers(md.xsize - 1, md.ysize - 1);
    PickAll(s, o);
  }

  /** The pixels of the list in its order. */
  ghost function SortedPixels(m: Libm, md: ImageDouble, nBins: nat, maxGrad: real): (px: seq<Point>)
    requires NormImage(md) && nBins > 0 && maxGrad >= 0.0
    ensures Distinct(px) && forall p :: p in px <==> Inner(p, md.xsize, md.ysize)
    ensures forall i | 0 <= i < |px| :: Inner(px[i], md.xsize, md.ysize)
  {
    var s := Scan(md.xsize - 1, md.ysize - 1);
    ScanMembers(md.xsize - 1, md.ysize - 1);
    ListIsPermutation(m, md, nBins, maxGrad, s, Keys(m, md, nBins, maxGrad, s));
    var px := Pick(s, Order(Keys(m, md, nBins, maxGrad, s), nBins, 0));
    assert forall i | 0 <= i < |px| :: px[i] in px;
    px
  }

  /** One pixel stands before another in the list exactly if its bin is higher, or the bins are equal and the scan,
      column by column, comes to it first. */
  lemma ListedInOrder(m: Libm, md: ImageDouble, nBins: nat, maxGrad: real, i: nat, j: nat)
    requires NormImage(md) && nBins > 0 && maxGrad >= 0.0 && i < j < |SortedPixels(m, md, nBins, maxGrad)|
    ensures var px := SortedPixels(m, md, nBins, maxGrad);
            var a, b := BinOf(m, md.At(px[i]), nBins, maxGrad), BinOf(m, md.At(px[j]), nBins, maxGrad);
            a > b || (a == b && Seen(px[i], px[j].x, px[j].y))
  {
    hide Order, Scan, BinOf;
    var w, h := md.xsize - 1, md.ysize - 1;
    var s := Scan(w, h);
    ScanMembers(w, h);
    var keys := Keys(m, md, nBins, maxGrad, s);
    ListIsPermutation(m, md, nBins, maxGrad, s, keys);
    ListIsSorted(keys, nBins, i, j);
    var o := Order(keys, nBins, 0);
    var px := SortedPixels(m, md, nBins, maxGrad);
    assert px[i] == s[o[i]] && px[j] == s[o[j]];
    if keys[o[i]] == keys[o[j]] {
      ScanInOrder(w, h, o[i], o[j]);
    }
  }

  lemma {:induction false} ScanInOrder(w: nat, h: nat, i: nat, j: nat)
    requires i < j < |Scan(w, h)|
    ensures Seen(Scan(w, h)[i], Scan(w, h)[j].x, Scan(w, h)[j].y)
  {
    var s, c := Scan(w - 1, h), Column(w - 1, h);
    SplitAt(s, c, i);
    SplitAt(s, c, j);
    ScanMembers(w - 1, h);
    if j < |s| {
      ScanInOrder(w - 1, h, i, j);
    }
  }

  lemma PickAll(s: seq<Point>, o: seq<nat>)
    requires Distinct(s) && Distinct(o) && forall e :: e in o <==> 0 <= e < |s|
    ensures forall i | 0 <= i < |o| :: o[i] < |s|
    ensures Distinct(Pick(s, o)) && forall p :: p in Pick(s, o) <==> p in s
  {
    forall i | 0 <= i < |o|
      ensures o[i] < |s|
    {
      assert o[i] in o;
    }
    var t := Pick(s, o);
    forall p | p in s
      ensures p in t
    {
      var e :| 0 <= e < |s| && s[e] == p;
      assert e in o;
      var i :| 0 <= i < |o| && o[i] == e;
      assert t[i] == p;
    }
    forall i, j | 0 <= i < j < |t|
      ensures t[i] != t[j]
    {
      assert o[i] != o[j];
    }
  }

  lemma OrderDistinct(keys: seq<nat>, o: seq<nat>)
    requires InListOrder(keys, o)
    ensures Distinct(o)
  {
    forall i, j | 0 <= i < j < |o|
      ensures o[i] != o[j]
    {
      assert Listed(keys, o[i], o[j]);
    }
  }

  /** Falling bins, and inside a bin the order of the scan. */
  lemma ListIsSorted(keys: seq<nat>, nBins: nat, i: nat, j: nat)
    requires i < j < |Order(keys, nBins, 0)|
    ensures var o := Order(keys, nBins, 0);
            o[i] < |keys| && o[j] < |keys| && keys[o[i]] >= keys[o[j]] && (keys[o[i]] == keys[o[j]] ==> o[i] < o[j])
  {
    OrderSorted(keys, nBins, 0);
    assert Listed(keys, Order(keys, nBins, 0)[i], Order(keys, nBins, 0)[j]);
  }

  lemma BinBounds(m: Libm, norm: real, nBins: nat, maxGrad: real)
    requires nBins > 0 && 0.0 <= norm <= maxGrad && maxGrad > 0.0
    ensures var b := BinOf(m, norm, nBins, maxGrad) as real;
            b * maxGrad <= norm * nBins as real <= (b + 1.0) * maxGrad
  {
    var f, b := BinFloor(norm, nBins, maxGrad), BinOf(m, norm, nBins, maxGrad);
    assert b == if f >= nBins then nBins - 1 else f;
    hide BinFloor, BinOf;
    if f >= nBins {
      ClampedBin(norm, nBins as real, maxGrad, f as real);
      assert b as real == nBins as real - 1.0 && b as real + 1.0 == nBins as real;
    } else {
      assert b == f;
    }
  }

  lemma ClampedBin(norm: real, n: real, maxGrad: real, f: real)
    requires n >= 1.0 && 0.0 <= norm <= maxGrad && f >= n && f * maxGrad <= norm * n
    ensures (n - 1.0) * maxGrad <= norm * n <= n * maxGrad
  {
    MulMono(n - 1.0, f, maxGrad);
    MulMono(norm, maxGrad, n);
  }

  ghost function PixelBin(m: Libm, im: ImageDouble, nBins: nat, maxGrad: real, p: Point): nat
    requires m.Lawful() && im.Valid() && nBins > 0 && maxGrad >= 0.0 && Inner(p, im.xsize, im.ysize)
  {
    NormNonNeg(m, im, p);
    BinOf(m, Norm(m, im, p), nBins, maxGrad)
  }

  /** Up to the size of a bin the list falls in the gradient norm itself. */
  lemma NearlySorted(m: Libm, im: ImageDouble, threshold: real, maxGrad: real, nBins: nat, p: Point, q: Point)
    requires m.Lawful() && im.Valid() && nBins > 0 && maxGrad > 0.0
    requires Inner(p, im.xsize, im.ysize) && Inner(q, im.xsize, im.ysize)
    requires IsMaxGrad(m, im, threshold, maxGrad, im.xsize, 0)
    requires PixelBin(m, im, nBins, maxGrad, p) >= PixelBin(m, im, nBins, maxGrad, q)
    ensures Norm(m, im, q) - Norm(m, im, p) <= maxGrad / nBins as real
  {
    hide Norm, Libm.Lawful, IsMaxGrad, BinOf;
    NormNonNeg(m, im, p);
    NormNonNeg(m, im, q);
    NormBelowMax(m, im, threshold, maxGrad, p);
    NormBelowMax(m, im, threshold, maxGrad, q);
    var a, b := Norm(m, im, p), Norm(m, im, q);
    BinBounds(m, a, nBins, maxGrad);
    BinBounds(m, b, nBins, maxGrad);
    BinGap(a, b, nBins as real, maxGrad, BinOf(m, a, nBins, maxGrad) as real, BinOf(m, b, nBins, maxGrad) as real);
  }

  lemma NormBelowMax(m: Libm, im: ImageDouble, threshold: real, maxGrad: real, p: Point)
    requires im.Valid() && Inner(p, im.xsize, im.ysize) && maxGrad > 0.0
    requires IsMaxGrad(m, im, threshold, maxGrad, im.xsize, 0)
    ensures Norm(m, im, p) <= maxGrad
  {
    hide Norm;
    assert Seen(p, im.xsize, 0);
  }

  lemma BinGap(a: real, b: real, n: real, g: real, i: real, j: real)
    requires n > 0.0 && g > 0.0 && i >= j && i * g <= a * n && b * n <= (j + 1.0) * g
    ensures b - a <= g / n
  {
    MulMono(j, i, g);
    assert (b - a) * n <= g;
    QuotientBound(b - a, n, g, g / n);
  }

  lemma QuotientBound(x: real, n: real, g: real, q: real)
    requires n > 0.0 && x * n <= g && q == g / n
    ensures x <= q
  {
    assert q * n == g;
    if x > q {
      MulMonoStrict(q, x, n);
    }
  }

  /** ... so a pixel of the list has a norm at most the size of a bin below that of any later one. */
  lemma ListNearlySorted(m: Libm, im: ImageDouble, threshold: real, maxGrad: real, nBins: nat, i: nat, j: nat)
    requires m.Lawful() && im.Valid() && nBins > 0 && maxGrad > 0.0 && NormImage(NormsOf(m, im))
    requires IsMaxGrad(m, im, threshold, maxGrad, im.xsize, 0)
    requires i < j < |SortedPixels(m, NormsOf(m, im), nBins, maxGrad)|
    ensures var px := SortedPixels(m, NormsOf(m, im), nBins, maxGrad);
            Norm(m, im, px[j]) - Norm(m, im, px[i]) <= maxGrad / nBins as real
  {
    hide Libm.Lawful, Norm, Order, Scan, IsMaxGrad, BinOf;
    var md := NormsOf(m, im);
    var s := Scan(md.xsize - 1, md.ysize - 1);
    ScanMembers(md.xsize - 1, md.ysize - 1);
    var keys := Keys(m, md, nBins, maxGrad, s);
    ListIsPermutation(m, md, nBins, maxGrad, s, keys);
    ListIsSorted(keys, nBins, i, j);
    var px := SortedPixels(m, md, nBins, maxGrad);
    NearlySorted(m, im, threshold, maxGrad, nBins, px[i], px[j]);
  }

  method LlAngle(m: Libm, im: ImageDouble, threshold: real, nBins: nat)
    returns (g: ImageDouble, modgrad: ImageDouble, list: array<Coor>, start: int,
             ghost s: seq<Point>, ghost keys: seq<nat>, ghost maxGrad: real)
    requires m.Lawful() && im.Valid() && threshold >= 0.0 && nBins > 0
    ensures g.Valid() && modgrad.Valid() && g.xsize == modgrad.xsize == im.xsize && g.ysize == modgrad.ysize == im.ysize
    ensures Filled(m, im, threshold, g.data, modgrad.data, im.xsize, 0)
    ensures IsMaxGrad(m, im, threshold, maxGrad, im.xsize, 0) && maxGrad >= 0.0 && NormImage(modgrad)
    ensures s == Scan(im.xsize - 1, im.ysize - 1) && (forall p | p in s :: modgrad.Has(p))
    ensures keys == Keys(m, modgrad, nBins, maxGrad, s)
    ensures fresh(list) && |s| <= list.Length == im.xsize * im.ysize
    ensures Chained(list[..], Order(keys, nBins, 0)) && Heads(start, Order(keys, nBins, 0))
    ensures forall k | 0 <= k < |s| :: list[k].x == s[k].x && list[k].y == s[k].y
  {
    hide Libm.Lawful, Filled, Chained, Order, Keys, Scan, Heads;
    var mg;
    g, modgrad, mg := ComputeGradient(m, im, threshold);
    FilledNorms(m, im, threshold, g, modgrad);
    maxGrad := mg;
    list, start, s, keys := SortPixels(m, modgrad, nBins, mg);
  }

  lemma FilledNorms(m: Libm, im: ImageDouble, threshold: real, g: ImageDouble, md: ImageDouble)
    requires m.Lawful() && md.Valid() && md.xsize == im.xsize && md.ysize == im.ysize
    requires Filled(m, im, threshold, g.data, md.data, im.xsize, 0)
    ensures NormImage(md)
  {
    hide Norm, LevelAngle;
    forall p | md.Has(p)
      ensures md.At(p) >= 0.0
    {
      if Inner(p, im.xsize, im.ysize) {
        NormNonNeg(m, im, p);
        assert Seen(p, im.xsize, 0);
      }
    }
  }
}
