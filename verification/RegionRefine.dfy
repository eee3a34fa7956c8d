/** Shrinking and regrowing a region until its rectangle is dense enough
    (lsd.cpp: reduce_region_radius, refine). */
module RegionRefine {
  import opened MathLib
  import opened Pixels
  import opened Angles
  import opened Rectangle
  import opened Binomial
  import opened Region
  import opened RegionRect

  /** Density criterion. The quotient size/(length*width) is compared with the threshold by
      multiplying out; for a segment of length 0 the quotient is infinite and the criterion holds. */
  predicate Dense(m: Libm, rec: Rect, size: int, densityTh: real) {
    size as real >= densityTh * (Dist(m, rec.x1, rec.y1, rec.x2, rec.y2) * rec.width)
  }

  /** It is the number of pixels per area of the rectangle. */
  lemma DenseIsDensity(m: Libm, rec: Rect, size: int, densityTh: real)
    requires m.Lawful() && rec.Oriented()
    ensures rec.Length() == 0.0 ==> Dense(m, rec, size, densityTh) == (size >= 0)
    ensures rec.Length() > 0.0 ==>
              rec.Length() * rec.width > 0.0
              && (Dense(m, rec, size, densityTh) <==> size as real / (rec.Length() * rec.width) >= densityTh)
  {
    hide Libm.Lawful, Rect.Oriented;
    assert rec.width > 0.0 && rec.Length() >= 0.0 by { OrientedSigns(rec); }
    LengthIsDist(m, rec);
    hide Rect.Length, Dist;
    if rec.Length() > 0.0 {
      MulPos(rec.Length(), rec.width);
      QuotientAtLeast(size as real, rec.Length() * rec.width, densityTh);
    }
  }

  lemma OrientedSigns(rec: Rect)
    requires rec.Oriented()
    ensures rec.width > 0.0 && rec.Length() >= 0.0
  {
  }

  lemma QuotientAtLeast(a: real, d: real, t: real)
    requires d > 0.0
    ensures a >= t * d <==> a / d >= t
  {
    var q := a / d;
    assert q * d == a;
    if q >= t {
      MulMono(t, q, d);
    } else {
      MulMonoStrict(q, t, d);
    }
  }

  function PointDist(m: Libm, a: Point, b: Point): real {
    Dist(m, a.x as real, a.y as real, b.x as real, b.y as real)
  }

  /** Distinct pixels are at least one apart. */
  lemma PixelsApart(m: Libm, a: Point, b: Point)
    requires m.Lawful()
    ensures a == b ==> PointDist(m, a, b) == 0.0
    ensures a != b ==> PointDist(m, a, b) >= 1.0
  {
    IntSqr(b.x - a.x);
    IntSqr(b.y - a.y);
    var d2 := SqrDist(a.x as real, a.y as real, b.x as real, b.y as real);
    SqrtLaw(m, d2);
    if a == b {
      assert d2 == 0.0;
      SqrOrder(0.0, m.sqrt(d2));
    } else {
      SqrOrder(m.sqrt(d2), 1.0);
    }
  }

  lemma IntSqr(n: int)
    ensures Sqr(n as real) >= 0.0
    ensures n != 0 ==> Sqr(n as real) >= 1.0
  {
    SqrLaw(n as real);
    if n > 0 {
      SqrOrder(n as real, 1.0);
    } else if n < 0 {
      SqrOrder(-(n as real), 1.0);
    }
  }

  /** Swap removal: the last point takes the place of the removed one. */
  lemma SwapRemoval<T>(s: seq<T>, i: int)
    requires Distinct(s) && 0 <= i < |s|
    ensures var t := s[i := s[|s| - 1]][..|s| - 1];
            Distinct(t) && Elems(t) == Elems(s) - {s[i]}
  {
    var n := |s| - 1;
    var t := s[i := s[n]][..n];
    forall e | e in Elems(s) - {s[i]}
      ensures e in Elems(t)
    {
      var k :| 0 <= k < |s| && s[k] == e;
      assert if k < n then t[k] == e else t[i] == e;
    }
  }

  /** What is left of `s` is exactly what lies within `rad` of the seed, the seed still first. */
  ghost predicate Within(m: Libm, s: seq<Point>, t: seq<Point>, rad: real) {
    && s != [] && t != [] && t[0] == s[0] && Distinct(t)
    && forall q :: q in t <==> q in s && PointDist(m, s[0], q) <= rad
  }

  /** One round of swap removal as a function, from position i on: a point beyond `rad` is replaced by
      the last one, which is tested next. */
  ghost function Sifted(m: Libm, seed: Point, s: seq<Point>, i: nat, rad: real): seq<Point>
    decreases |s| - i
  {
    if i >= |s| then s
    else if PointDist(m, seed, s[i]) > rad then Sifted(m, seed, s[i := s[|s| - 1]][..|s| - 1], i, rad)
    else Sifted(m, seed, s, i + 1, rad)
  }

  /** State of a round: s[..i] is checked, and what left the region lay too far away and lost its mark. */
  ghost predicate Sifting(m: Libm, s0: seq<Point>, s: seq<Point>, i: int, rad: real, u0: set<Point>, u: set<Point>) {
    && s0 != [] && s != [] && s[0] == s0[0] && Distinct(s) && 0 <= i <= |s| <= |s0|
    && Elems(s) <= Elems(s0)
    && (forall k | 0 <= k < i :: PointDist(m, s0[0], s[k]) <= rad)
    && (forall q | q in Elems(s0) - Elems(s) :: PointDist(m, s0[0], q) > rad)
    && u == u0 - (Elems(s0) - Elems(s))
    && Sifted(m, s0[0], s, i, rad) == Sifted(m, s0[0], s0, 0, rad)
  }

  lemma SiftRemove(m: Libm, s0: seq<Point>, s: seq<Point>, i: int, rad: real, u0: set<Point>, u: set<Point>)
    requires Sifting(m, s0, s, i, rad, u0, u) && i < |s|
    requires m.Lawful() && rad >= 0.0 && PointDist(m, s0[0], s[i]) > rad
    ensures Sifting(m, s0, s[i := s[|s| - 1]][..|s| - 1], i, rad, u0, u - {s[i]})
  {
    PixelsApart(m, s0[0], s[i]);
    SwapRemoval(s, i);
    assert s[i] in Elems(s);
  }

  lemma SiftKeep(m: Libm, s0: seq<Point>, s: seq<Point>, i: int, rad: real, u0: set<Point>, u: set<Point>)
    requires Sifting(m, s0, s, i, rad, u0, u) && i < |s| && PointDist(m, s0[0], s[i]) <= rad
    ensures Sifting(m, s0, s, i + 1, rad, u0, u)
  {
  }

  lemma SiftDone(m: Libm, s0: seq<Point>, s: seq<Point>, rad: real, u0: set<Point>, u: set<Point>)
    requires Sifting(m, s0, s, |s|, rad, u0, u)
    ensures Within(m, s0, s, rad) && s == Sifted(m, s0[0], s0, 0, rad) && u == u0 - (Elems(s0) - Elems(s))
  {
    forall q
      ensures q in s <==> q in s0 && PointDist(m, s0[0], q) <= rad
    {
      if q in s0 && q !in s {
        assert q in Elems(s0) - Elems(s);
      } else if q in s {
        assert q in Elems(s);
      }
    }
  }

  lemma SiftStart(m: Libm, g: ImageDouble, s: seq<Point>, rad: real, u: set<Point>)
    requires m.Lawful() && rad >= 0.0 && InImage(g, s) && Distinct(s) && s != []
    ensures Sifting(m, s, s, 0, rad, u, u)
  {
    assert Elems(s) - Elems(s) == {};
    assert u - {} == u;
  }

  /** The pixel to be checked lies in the image. */
  lemma SiftedPixel(m: Libm, g: ImageDouble, s0: seq<Point>, s: seq<Point>, i: int, rad: real, u0: set<Point>,
                    u: set<Point>)
    requires InImage(g, s0) && Sifting(m, s0, s, i, rad, u0, u) && i < |s|
    ensures g.Has(s[i]) && PointDist(m, s0[0], s[i]) == Dist(m, s0[0].x as real, s0[0].y as real,
                                                             s[i].x as real, s[i].y as real)
  {
    hide Dist, Sifted;
    assert s[i] in Elems(s);
  }

  /** One round of swap removal, lines 1908-1919. */
  method RemoveFar(m: Libm, reg: array<Point>, regSize0: nat, used: array<Mark>, g: ImageDouble,
                   xc: real, yc: real, rad: real)
    returns (regSize: nat)
    requires m.Lawful() && rad >= 0.0
    requires 0 < regSize0 <= reg.Length && used.Length == g.xsize * g.ysize
    requires xc == reg[0].x as real && yc == reg[0].y as real
    requires InImage(g, reg[..regSize0]) && Distinct(reg[..regSize0])
    modifies reg, used
    ensures 0 < regSize <= regSize0
    ensures reg[..regSize] == Sifted(m, old(reg[0]), old(reg[..regSize0]), 0, rad)
    ensures Within(m, old(reg[..regSize0]), reg[..regSize], rad)
    ensures Marked(used[..], g.xsize, g.ysize)
            == Marked(old(used[..]), g.xsize, g.ysize) - (Elems(old(reg[..regSize0])) - Elems(reg[..regSize]))
  {
    hide Dist, Marked, Within, Distinct, Libm.Lawful, Sifted, Sifting, InImage, Adr, Elems;
    ghost var s0, u0 := reg[..regSize0], Marked(used[..], g.xsize, g.ysize);
    SiftStart(m, g, s0, rad, u0);
    regSize := regSize0;
    var i := 0;
    while i < regSize
      invariant 0 <= i <= regSize <= regSize0
      invariant Sifting(m, s0, reg[..regSize], i, rad, u0, Marked(used[..], g.xsize, g.ysize))
      decreases regSize - i
    {
      ghost var s, u := reg[..regSize], used[..];
      assert reg[i] == s[i];
      SiftedPixel(m, g, s0, s, i, rad, u0, Marked(u, g.xsize, g.ysize));
      if Dist(m, xc, yc, reg[i].x as real, reg[i].y as real) > rad {
        SiftRemove(m, s0, s, i, rad, u0, Marked(u, g.xsize, g.ysize));
        UnmarkOne(u, g.xsize, g.ysize, s[i]);

        used[Adr(reg[i], g.xsize)] := NOTUSED;
        reg[i] := reg[regSize - 1];
        regSize := regSize - 1;
        assert used[..] == u[Adr(s[i], g.xsize) := NOTUSED];
        assert reg[..regSize] == s[i := s[|s| - 1]][..|s| - 1];
      } else {
        SiftKeep(m, s0, s, i, rad, u0, Marked(u, g.xsize, g.ysize));
        i := i + 1;
      }
    }
    SiftDone(m, s0, reg[..regSize], rad, u0, Marked(used[..], g.xsize, g.ysize));
  }

  /** Radius of the region after k rounds: 3/4 of the previous one each time. */
  ghost function Radius(m: Libm, seed: Point, rec: Rect, k: nat): real {
    if k == 0 then
      var rad1 := Dist(m, seed.x as real, seed.y as real, rec.x1, rec.y1);
      var rad2 := Dist(m, seed.x as real, seed.y as real, rec.x2, rec.y2);
      if rad1 > rad2 then rad1 else rad2
    else
      0.75 * Radius(m, seed, rec, k - 1)
  }

  /** The data shared by all rectangles that are computed for one region. */
  datatype Frame = Frame(modgrad: ImageDouble, regAngle: real, prec: real, p: real, densityTh: real)

  /** What k rounds leave of `s0`. */
  ghost function Remaining(m: Libm, s0: seq<Point>, rec0: Rect, k: nat): seq<Point>
    requires s0 != []
  {
    if k == 0 then s0
    else Sifted(m, s0[0], Remaining(m, s0, rec0, k - 1), 0, Radius(m, s0[0], rec0, k))
  }

  /** The points `t` were tried, and their rectangle was not dense enough. */
  ghost predicate Rejected(m: Libm, f: Frame, t: seq<Point>) {
    && |t| >= 2 && InImage(f.modgrad, t)
    && exists r :: Fits(m, f.modgrad, t, f.regAngle, f.prec, f.p, r) && !Dense(m, r, |t|, f.densityTh)
  }

  /** `s` is what k rounds leave of `s0`, which is what lies within the radius of round k, all earlier
      rounds having failed. */
  ghost predicate Shrunk(m: Libm, f: Frame, s0: seq<Point>, rec0: Rect, s: seq<Point>, k: nat)
    requires s0 != []
  {
    && s == Remaining(m, s0, rec0, k) && (k > 0 ==> Within(m, s0, s, Radius(m, s0[0], rec0, k)))
    && forall j: nat | 1 <= j < k :: Rejected(m, f, Remaining(m, s0, rec0, j))
  }

  lemma RadiusNonNeg(m: Libm, seed: Point, rec: Rect, k: nat)
    requires m.Lawful()
    ensures Radius(m, seed, rec, k) >= 0.0
  {
    if k == 0 {
      DistVersusRadius(m, seed.x as real, seed.y as real, rec.x1, rec.y1, 0.0);
    } else {
      RadiusNonNeg(m, seed, rec, k - 1);
    }
  }

  /** Distance of the seed from the farther end. */
  ghost function Reach(m: Libm, seed: Point, rec: Rect): (r: real)
    ensures r >= Dist(m, seed.x as real, seed.y as real, rec.x1, rec.y1)
    ensures r >= Dist(m, seed.x as real, seed.y as real, rec.x2, rec.y2)
    ensures r == Dist(m, seed.x as real, seed.y as real, rec.x1, rec.y1)
            || r == Dist(m, seed.x as real, seed.y as real, rec.x2, rec.y2)
  {
    Radius(m, seed, rec, 0)
  }

  /** The k-th radius is the k-th power of 3/4 times that distance. */
  lemma {:induction false} RadiusIs(m: Libm, seed: Point, rec: Rect, k: nat)
    ensures Radius(m, seed, rec, k) == Pow(0.75, k) * Reach(m, seed, rec)
  {
    if k > 0 {
      RadiusIs(m, seed, rec, k - 1);
    }
  }

  lemma NotShrunk(m: Libm, f: Frame, s: seq<Point>, rec: Rect)
    requires s != []
    ensures Shrunk(m, f, s, rec, s, 0)
  {
  }

  /** One more round after a failed one. */
  lemma ShrinkStep(m: Libm, f: Frame, s0: seq<Point>, rec0: Rect, s: seq<Point>, k: nat, rec: Rect, t: seq<Point>)
    requires m.Lawful() && s0 != [] && Shrunk(m, f, s0, rec0, s, k)
    requires k > 0 ==> |s| >= 2 && InImage(f.modgrad, s) && Fits(m, f.modgrad, s, f.regAngle, f.prec, f.p, rec)
                       && !Dense(m, rec, |s|, f.densityTh)
    requires Within(m, s, t, Radius(m, s0[0], rec0, k + 1)) && s[0] == s0[0]
    requires t == Sifted(m, s0[0], s, 0, Radius(m, s0[0], rec0, k + 1))
    ensures Shrunk(m, f, s0, rec0, t, k + 1)
  {
    hide Fits, Dense, Dist, Sifted;
    RadiusNonNeg(m, s0[0], rec0, k);
    if k > 0 {
      assert Rejected(m, f, s);
    }
  }

  /** Two points are left only while the radius is at least one. */
  lemma TwoLeft(m: Libm, s: seq<Point>, t: seq<Point>, rad: real)
    requires m.Lawful() && Within(m, s, t, rad) && |t| >= 2
    ensures rad >= 1.0
  {
    assert t[1] in t && t[1] != t[0];
    PixelsApart(m, s[0], t[1]);
  }

  method ReduceRegionRadius(m: Libm, reg: array<Point>, regSize0: nat, f: Frame, rec0: Rect,
                            used: array<Mark>, g: ImageDouble)
    returns (ok: bool, regSize: nat, rec: Rect, ghost k: nat)
    requires m.Lawful() && f.prec >= 0.0
    requires 0 < regSize0 <= reg.Length && used.Length == g.xsize * g.ysize
    requires InImage(g, reg[..regSize0]) && Distinct(reg[..regSize0]) && Heavy(f.modgrad, reg[..regSize0])
    modifies reg, used
    ensures 0 < regSize <= regSize0
    ensures k == 0 <==> Dense(m, rec0, regSize0, f.densityTh)
    ensures Shrunk(m, f, old(reg[..regSize0]), rec0, reg[..regSize], k)
    ensures Marked(used[..], g.xsize, g.ysize)
            == Marked(old(used[..]), g.xsize, g.ysize) - (Elems(old(reg[..regSize0])) - Elems(reg[..regSize]))
    ensures Chosen(m, f, reg[..regSize], k, rec0, ok, rec)
  {
    hide Libm.Lawful, Fits, Dense, Dist, Marked, Within, Rejected, Distinct, Elems, Sifted, Remaining;
    ghost var s0, u0 := reg[..regSize0], Marked(used[..], g.xsize, g.ysize);
    regSize, rec, k := regSize0, rec0, 0;
    NotShrunk(m, f, s0, rec0);

    if Dense(m, rec, regSize, f.densityTh) {
      return true, regSize, rec, 0;
    }

    // the radius reaches from the seed to the farther end
    var xc, yc := reg[0].x as real, reg[0].y as real;
    var rad1, rad2 := Dist(m, xc, yc, rec.x1, rec.y1), Dist(m, xc, yc, rec.x2, rec.y2);
    var rad := if rad1 > rad2 then rad1 else rad2;
    assert s0[0] == reg[0];
    RadiusNonNeg(m, s0[0], rec0, 0);

    while !Dense(m, rec, regSize, f.densityTh)
      invariant 0 < regSize <= regSize0 && Shrinking(m, f, g, s0, rec0, reg[..regSize], k, rec)
      invariant rad == Radius(m, s0[0], rec0, k) && rad >= 0.0
      invariant Marked(used[..], g.xsize, g.ysize) == u0 - (Elems(s0) - Elems(reg[..regSize]))
      decreases 3.0 * rad
    {
      ghost var s := reg[..regSize];
      assert reg[0] == s[0];
      RadiusNonNeg(m, s0[0], rec0, k + 1);
      rad := rad * 0.75;

      regSize := RemoveFar(m, reg, regSize, used, g, xc, yc, rad);
      ShrinkStep(m, f, s0, rec0, s, k, rec, reg[..regSize]);
      RoundKeeps(m, f, g, s0, s, reg[..regSize], rad, u0);
      k := k + 1;

      if regSize < 2 {
        return false, regSize, rec, k;
      }
      TwoLeft(m, s, reg[..regSize], rad);

      ChecksNeverFire(f.modgrad, reg[..regSize]);
      var r := RegionToRect(m, reg, regSize, f.modgrad, f.regAngle, f.prec, f.p);
      rec := r.value;
    }
    return true, regSize, rec, k;
  }

  /** The verdict: the rectangle is dense and, past the first test, fits what is left;
      or only the seed is left. */
  ghost predicate Chosen(m: Libm, f: Frame, s: seq<Point>, k: nat, rec0: Rect, ok: bool, rec: Rect) {
    if ok then
      && Dense(m, rec, |s|, f.densityTh)
      && (if k == 0 then rec == rec0
          else |s| >= 2 && InImage(f.modgrad, s) && Fits(m, f.modgrad, s, f.regAngle, f.prec, f.p, rec))
    else
      |s| == 1
  }

  ghost predicate Shrinking(m: Libm, f: Frame, g: ImageDouble, s0: seq<Point>, rec0: Rect,
                            s: seq<Point>, k: nat, rec: Rect)
  {
    && s0 != [] && s != [] && s[0] == s0[0] && Shrunk(m, f, s0, rec0, s, k)
    && InImage(g, s) && Distinct(s) && Heavy(f.modgrad, s) && Elems(s) <= Elems(s0)
    && (if k == 0 then rec == rec0 && !Dense(m, rec, |s|, f.densityTh)
        else |s| >= 2 && Fits(m, f.modgrad, s, f.regAngle, f.prec, f.p, rec))
  }

  lemma RoundKeeps(m: Libm, f: Frame, g: ImageDouble, s0: seq<Point>, s: seq<Point>, t: seq<Point>,
                   rad: real, u0: set<Point>)
    requires Within(m, s, t, rad) && Elems(s) <= Elems(s0)
    requires InImage(g, s) && Heavy(f.modgrad, s)
    ensures InImage(g, t) && Heavy(f.modgrad, t) && Elems(t) <= Elems(s0) && Distinct(t) && t != [] && t[0] == s[0]
    ensures (u0 - (Elems(s0) - Elems(s))) - (Elems(s) - Elems(t)) == u0 - (Elems(s0) - Elems(t))
  {
    assert Elems(t) <= Elems(s);
  }

  /** Deviations from the angle of the seed, of the points nearer to it than `width`. */
  ghost function Deviations(m: Libm, g: ImageDouble, seed: Point, s: seq<Point>, width: real): seq<real>
    requires InImage(g, s) && g.Has(seed)
  {
    if s == [] then
      []
    else
      var e := s[|s| - 1];
      var rest := Deviations(m, g, seed, s[..|s| - 1], width);
      if PointDist(m, seed, e) < width then rest + [Wrap(g.At(e) - g.At(seed))] else rest
  }

  /** The points of `s` nearer to the seed than `width`. */
  ghost function NearSeed(m: Libm, seed: Point, s: seq<Point>, width: real): set<nat> {
    set k: nat | k < |s| && PointDist(m, seed, s[k]) < width
  }

  lemma NearSeedStep(m: Libm, seed: Point, s: seq<Point>, width: real)
    requires s != []
    ensures var n := |s| - 1;
            NearSeed(m, seed, s, width)
            == NearSeed(m, seed, s[..n], width) + if PointDist(m, seed, s[n]) < width then {n} else {}
  {
    hide PointDist;
  }

  /** Each point near the seed has one deviation, the difference of its direction from that of the seed, ... */
  lemma {:induction false} DeviationsCount(m: Libm, g: ImageDouble, seed: Point, s: seq<Point>, width: real)
    requires InImage(g, s) && g.Has(seed)
    ensures |Deviations(m, g, seed, s, width)| == |NearSeed(m, seed, s, width)|
  {
    hide Wrap, PointDist, ImageDouble.At;
    if s == [] {
      assert NearSeed(m, seed, s, width) == {};
    } else {
      DeviationsCount(m, g, seed, s[..|s| - 1], width);
      NearSeedStep(m, seed, s, width);
    }
  }

  /** ... and there is no other deviation. */
  lemma {:induction false} DeviationsAre(m: Libm, g: ImageDouble, seed: Point, s: seq<Point>, width: real, v: real)
    requires InImage(g, s) && g.Has(seed)
    ensures v in Deviations(m, g, seed, s, width)
            <==> exists k :: 0 <= k < |s| && PointDist(m, seed, s[k]) < width && v == Wrap(g.At(s[k]) - g.At(seed))
  {
    hide Wrap, PointDist, ImageDouble.At;
    if s != [] {
      var n := |s| - 1;
      DeviationsAre(m, g, seed, s[..n], width, v);
      assert forall k | 0 <= k < n :: s[..n][k] == s[k];
    }
  }

  /** Sum of squared distances to `c`. */
  ghost function SumSqr(d: seq<real>, c: real): real {
    if d == [] then 0.0 else SumSqr(d[..|d| - 1], c) + Sqr(d[|d| - 1] - c)
  }

  lemma SumsAppend(d: seq<real>, v: real, c: real)
    ensures Sum(d + [v]) == Sum(d) + v && SumSqr(d + [v], c) == SumSqr(d, c) + Sqr(v - c)
  {
    assert (d + [v])[..|d|] == d;
  }

  lemma ExpandSqr(v: real, c: real)
    ensures Sqr(v - c) == Sqr(v) - 2.0 * c * v + Sqr(c) && Sqr(v - c) >= 0.0
  {
    SqrLaw(v - c);
  }

  lemma ShiftStep(total: real, sum: real, n: real, c: real, v: real, q: real)
    ensures (total - 2.0 * c * sum + n * q) - 2.0 * c * v + q == total - 2.0 * c * (sum + v) + (n + 1.0) * q
  {
  }

  /** Shifting the center of a sum of squares. */
  lemma {:induction false} SumSqrShift(d: seq<real>, c: real)
    ensures SumSqr(d, c) == SumSqr(d, 0.0) - 2.0 * c * Sum(d) + |d| as real * Sqr(c)
    ensures SumSqr(d, c) >= 0.0
  {
    hide Sqr;
    if d != [] {
      var t, v := d[..|d| - 1], d[|d| - 1];
      SumSqrShift(t, c);
      ExpandSqr(v, c);
      assert v - 0.0 == v;
      ShiftStep(SumSqr(t, 0.0), Sum(t), |t| as real, c, v, Sqr(c));
    }
  }

  /** The radicand of line 1992 from the count, the sum and the sum of squares. */
  function Radicand(n: nat, sum: real, sqr: real): real
    requires n > 0
  {
    var mean := sum / n as real;
    (sqr - 2.0 * mean * sum) / n as real + Sqr(mean)
  }

  /** The radicand is the mean squared deviation from the mean; in particular it has a root. */
  lemma RadicandIsVariance(d: seq<real>)
    requires d != []
    ensures var mean := Sum(d) / |d| as real;
            && Radicand(|d|, Sum(d), SumSqr(d, 0.0)) == SumSqr(d, mean) / |d| as real
            && Radicand(|d|, Sum(d), SumSqr(d, 0.0)) >= 0.0
  {
    hide Sqr, Sum, SumSqr;
    var n, mean := |d| as real, Sum(d) / |d| as real;
    SumSqrShift(d, mean);
    var a := SumSqr(d, 0.0) - 2.0 * mean * Sum(d);
    assert Radicand(|d|, Sum(d), SumSqr(d, 0.0)) == a / n + Sqr(mean);
    assert SumSqr(d, mean) == a + n * Sqr(mean);
    SplitQuotient(a, Sqr(mean), n);
    QuotientNonNeg(SumSqr(d, mean), n);
  }

  lemma SplitQuotient(a: real, b: real, n: real)
    requires n > 0.0
    ensures (a + n * b) / n == a / n + b
  {
    assert (a / n) * n == a;
    assert (a / n + b) * n == a + n * b;
  }

  /** s[..i] is released, and the sums cover it. */
  ghost predicate Releasing(m: Libm, g: ImageDouble, s: seq<Point>, i: int, width: real,
                            u0: set<Point>, u: set<Point>, n: int, sum: real, sqr: real)
    requires InImage(g, s) && s != []
  {
    && 0 <= i <= |s| && u == u0 - Elems(s[..i])
    && var d := Deviations(m, g, s[0], s[..i], width);
       n == |d| && sum == Sum(d) && sqr == SumSqr(d, 0.0)
  }

  lemma ReleaseStep(m: Libm, g: ImageDouble, s: seq<Point>, i: int, width: real,
                    u0: set<Point>, u: set<Point>, n: int, sum: real, sqr: real)
    requires InImage(g, s) && s != [] && i < |s| && Releasing(m, g, s, i, width, u0, u, n, sum, sqr)
    ensures var v := Wrap(g.At(s[i]) - g.At(s[0]));
            if PointDist(m, s[0], s[i]) < width then
              Releasing(m, g, s, i + 1, width, u0, u - {s[i]}, n + 1, sum + v, sqr + Sqr(v))
            else
              Releasing(m, g, s, i + 1, width, u0, u - {s[i]}, n, sum, sqr)
  {
    hide Sqr, PointDist, Wrap;
    assert s[..i + 1][..i] == s[..i];
    assert Elems(s[..i + 1]) == Elems(s[..i]) + {s[i]};
    var v := Wrap(g.At(s[i]) - g.At(s[0]));
    assert v - 0.0 == v;
    SumsAppend(Deviations(m, g, s[0], s[..i], width), v, 0.0);
  }

  /** Lines 1974-1990: the whole region is released while the deviations near the seed are summed. */
  method ReleaseRegion(m: Libm, reg: array<Point>, regSize: nat, used: array<Mark>, g: ImageDouble, width: real)
    returns (n: nat, sum: real, sqr: real)
    requires 0 < regSize <= reg.Length && used.Length == g.xsize * g.ysize && InImage(g, reg[..regSize])
    modifies used
    ensures Marked(used[..], g.xsize, g.ysize) == Marked(old(used[..]), g.xsize, g.ysize) - Elems(reg[..regSize])
    ensures var d := Deviations(m, g, reg[..regSize][0], reg[..regSize], width);
            n == |d| && sum == Sum(d) && sqr == SumSqr(d, 0.0)
  {
    hide Dist, Marked, Wrap, Sqr, Releasing;
    ghost var u0, s := Marked(used[..], g.xsize, g.ysize), reg[..regSize];
    var xc, yc := reg[0].x as real, reg[0].y as real;
    assert s[0] == reg[0];
    var angC := g.At(reg[0]);
    n, sum, sqr := 0, 0.0, 0.0;
    ReleaseStart(m, g, s, width, u0);
    var i := 0;
    while i < regSize
      invariant 0 <= i <= regSize
      invariant Releasing(m, g, s, i, width, u0, Marked(used[..], g.xsize, g.ysize), n, sum, sqr)
    {
      assert reg[i] == s[i];
      ghost var u := used[..];
      ReleaseStep(m, g, s, i, width, u0, Marked(u, g.xsize, g.ysize), n, sum, sqr);
      assert g.Has(s[i]) by { assert s[i] in s; }
      UnmarkOne(u, g.xsize, g.ysize, s[i]);
      used[Adr(reg[i], g.xsize)] := NOTUSED;
      assert used[..] == u[Adr(s[i], g.xsize) := NOTUSED];
      if Dist(m, xc, yc, reg[i].x as real, reg[i].y as real) < width {
        var angD := AngleDiffSigned(g.At(reg[i]), angC);
        sum := sum + angD;
        sqr := sqr + Sqr(angD);
        n := n + 1;
      }
      i := i + 1;
    }
    ReleaseEnd(m, g, s, width, u0, Marked(used[..], g.xsize, g.ysize), n, sum, sqr);
  }

  lemma ReleaseStart(m: Libm, g: ImageDouble, s: seq<Point>, width: real, u0: set<Point>)
    requires InImage(g, s) && s != []
    ensures Releasing(m, g, s, 0, width, u0, u0, 0, 0.0, 0.0)
  {
    assert Elems(s[..0]) == {};
  }

  lemma ReleaseEnd(m: Libm, g: ImageDouble, s: seq<Point>, width: real,
                   u0: set<Point>, u: set<Point>, n: int, sum: real, sqr: real)
    requires InImage(g, s) && s != [] && Releasing(m, g, s, |s|, width, u0, u, n, sum, sqr)
    ensures u == u0 - Elems(s)
    ensures var d := Deviations(m, g, s[0], s, width); n == |d| && sum == Sum(d) && sqr == SumSqr(d, 0.0)
  {
    assert s[..|s|] == s;
  }

  /** Angles and gradient norms belong to one image; an angle is defined only where there is a gradient. */
  ghost predicate SameScene(g: ImageDouble, modgrad: ImageDouble) {
    && g.Valid() && modgrad.Valid() && modgrad.xsize == g.xsize && modgrad.ysize == g.ysize
    && forall p | g.Has(p) && g.At(p) != NOTDEF :: modgrad.At(p) > 0.0
  }

  /** What the detector expects of a region: distinct defined pixels. */
  ghost predicate Sound(g: ImageDouble, s: seq<Point>) {
    && InImage(g, s) && Distinct(s) && s != []
    && forall p | p in s :: g.At(p) != NOTDEF
  }

  lemma SoundIsHeavy(g: ImageDouble, modgrad: ImageDouble, s: seq<Point>)
    requires SameScene(g, modgrad) && Sound(g, s)
    ensures Heavy(modgrad, s)
  {
  }

  /** Only defined pixels join a region. */
  lemma GrownIsSound(m: Libm, g: ImageDouble, prec: real, seed: Point, before: set<Point>, s: seq<Point>)
    requires Grown(m, g, prec, seed, before, s) && g.At(seed) != NOTDEF
    ensures Sound(g, s)
  {
    forall p | p in s
      ensures g.At(p) != NOTDEF
    {
      var k :| 0 <= k < |s| && s[k] == p;
      if k > 0 {
        assert Joined(m, g, prec, s, k);
      }
    }
  }

  /** Twice the standard deviation of the angles near the seed, line 1992. */
  ghost function Tolerance(m: Libm, g: ImageDouble, s: seq<Point>, width: real): real
    requires InImage(g, s) && s != []
  {
    var d := Deviations(m, g, s[0], s, width);
    if d == [] then 0.0 else 2.0 * m.sqrt(Radicand(|d|, Sum(d), SumSqr(d, 0.0)))
  }

  /** The seed is nearer to itself than any positive width, so the mean exists. */
  lemma {:induction false} SeedCounts(m: Libm, g: ImageDouble, s: seq<Point>, seed: Point, width: real)
    requires m.Lawful() && InImage(g, s) && width > 0.0 && s != [] && s[0] == seed
    ensures Deviations(m, g, seed, s, width) != []
  {
    if |s| > 1 {
      SeedCounts(m, g, s[..|s| - 1], seed, width);
    } else {
      PixelsApart(m, seed, seed);
    }
  }

  lemma ToleranceNonNeg(m: Libm, g: ImageDouble, s: seq<Point>, width: real)
    requires m.Lawful() && InImage(g, s) && s != []
    ensures Tolerance(m, g, s, width) >= 0.0
  {
    var d := Deviations(m, g, s[0], s, width);
    if d != [] {
      RadicandIsVariance(d);
      SqrtLaw(m, Radicand(|d|, Sum(d), SumSqr(d, 0.0)));
    }
  }

  /** Its square is four times the mean squared deviation from the mean deviation. */
  lemma ToleranceIs(m: Libm, g: ImageDouble, s: seq<Point>, width: real)
    requires m.Lawful() && InImage(g, s) && s != [] && width > 0.0
    ensures var d, tau := Deviations(m, g, s[0], s, width), Tolerance(m, g, s, width);
            d != [] && tau >= 0.0 && Sqr(tau) == 4.0 * (SumSqr(d, Sum(d) / |d| as real) / |d| as real)
  {
    hide Libm.Lawful, Deviations, Sum, SumSqr;
    SeedCounts(m, g, s, s[0], width);
    var d := Deviations(m, g, s[0], s, width);
    RadicandIsVariance(d);
    var r := Radicand(|d|, Sum(d), SumSqr(d, 0.0));
    SqrtLaw(m, r);
    hide Radicand;
    assert Sqr(2.0 * m.sqrt(r)) == 4.0 * Sqr(m.sqrt(r));
  }

  /** How a region that is not dense enough is replaced: the pixels free of it regrow from the
      same seed with the tolerance found near the seed; then the regrown region shrinks. */
  ghost predicate Regrown(m: Libm, f: Frame, g: ImageDouble, s0: seq<Point>, width: real, free: set<Point>,
                          grown: seq<Point>, s: seq<Point>, k: nat, ok: bool, rec: Rect)
    requires InImage(g, s0) && s0 != []
  {
    var tau := Tolerance(m, g, s0, width);
    && g.Has(s0[0]) && s0[0] !in free && grown == Grow(m, g, tau, s0[0], free)
    && var f' := f.(regAngle := RegionAngle(m, g, grown));
       if |grown| < 2 then
         !ok && s == grown
       else
         exists rec1 ::
           && InImage(f'.modgrad, grown) && Fits(m, f'.modgrad, grown, f'.regAngle, f'.prec, f'.p, rec1)
           && (k == 0 <==> Dense(m, rec1, |grown|, f'.densityTh))
           && Shrunk(m, f', grown, rec1, s, k) && Chosen(m, f', s, k, rec1, ok, rec)
  }

  /** What refine does with a sparse region: it regrows from the same seed with twice the standard deviation of the
      angles near the seed as tolerance; if the rectangle of the regrown region is sparse again, what is left of it is
      exactly what lies within (3/4)^k of the distance of the farther end; the rectangle is the one of what is left,
      facing the way of the regrown region. */
  lemma RegrownSteps(m: Libm, f: Frame, g: ImageDouble, s0: seq<Point>, width: real, free: set<Point>,
                     grown: seq<Point>, s: seq<Point>, k: nat, ok: bool, rec: Rect) returns (tau: real, rec1: Rect)
    requires m.Lawful() && InImage(g, s0) && s0 != [] && width > 0.0
    requires Regrown(m, f, g, s0, width, free, grown, s, k, ok, rec)
    ensures var d := Deviations(m, g, s0[0], s0, width);
            d != [] && tau >= 0.0 && Sqr(tau) == 4.0 * (SumSqr(d, Sum(d) / |d| as real) / |d| as real)
    ensures g.Has(s0[0]) && s0[0] !in free && grown == Grow(m, g, tau, s0[0], free)
    ensures |grown| < 2 ==> !ok
    ensures |grown| >= 2 ==>
              && InImage(f.modgrad, grown) && Fits(m, f.modgrad, grown, RegionAngle(m, g, grown), f.prec, f.p, rec1)
              && (k == 0 <==> Dense(m, rec1, |grown|, f.densityTh))
              && (k == 0 ==> ok && s == grown && rec == rec1)
              && (k > 0 ==> forall q :: q in s <==>
                    q in grown && PointDist(m, s0[0], q) <= Pow(0.75, k) * Reach(m, s0[0], rec1))
    ensures ok ==> && |s| >= 2 && InImage(f.modgrad, s)
                   && Fits(m, f.modgrad, s, RegionAngle(m, g, grown), f.prec, f.p, rec)
                   && Dense(m, rec, |s|, f.densityTh)
    ensures !ok ==> s == [s0[0]]
  {
    hide Libm.Lawful, Fits, Dense, Tolerance, RegionAngle, Grow, Shrunk, Chosen, Deviations, Sum, SumSqr, Pow, Reach,
      PointDist, Sqr;
    tau, rec1 := Tolerance(m, g, s0, width), rec;
    ToleranceIs(m, g, s0, width);
    if |grown| >= 2 {
      var f' := f.(regAngle := RegionAngle(m, g, grown));
      rec1 :|
        && InImage(f'.modgrad, grown) && Fits(m, f'.modgrad, grown, f'.regAngle, f'.prec, f'.p, rec1)
        && (k == 0 <==> Dense(m, rec1, |grown|, f'.densityTh))
        && Shrunk(m, f', grown, rec1, s, k) && Chosen(m, f', s, k, rec1, ok, rec);
      ShrunkSteps(m, f', grown, rec1, s, k, ok, rec);
    }
  }

  lemma ShrunkSteps(m: Libm, f: Frame, s0: seq<Point>, rec0: Rect, s: seq<Point>, k: nat, ok: bool, rec: Rect)
    requires |s0| >= 2 && InImage(f.modgrad, s0) && Fits(m, f.modgrad, s0, f.regAngle, f.prec, f.p, rec0)
    requires (k == 0 <==> Dense(m, rec0, |s0|, f.densityTh)) && Shrunk(m, f, s0, rec0, s, k)
    requires Chosen(m, f, s, k, rec0, ok, rec)
    ensures k == 0 ==> ok && s == s0 && rec == rec0
    ensures k > 0 ==> forall q :: q in s <==>
                      q in s0 && PointDist(m, s0[0], q) <= Pow(0.75, k) * Reach(m, s0[0], rec0)
    ensures ok ==> && |s| >= 2 && InImage(f.modgrad, s) && Fits(m, f.modgrad, s, f.regAngle, f.prec, f.p, rec)
                   && Dense(m, rec, |s|, f.densityTh)
    ensures !ok ==> s == [s0[0]]
  {
    hide Fits, Dense, Rejected, Radius, Remaining, PointDist, Pow, Reach, Within;
    NotShrunk(m, f, s0, rec0);
    if k > 0 {
      RadiusIs(m, s0[0], rec0, k);
      WithinPoints(m, s0, s, Radius(m, s0[0], rec0, k));
    }
  }

  lemma WithinPoints(m: Libm, s: seq<Point>, t: seq<Point>, rad: real)
    requires Within(m, s, t, rad)
    ensures s != [] && t != [] && t[0] == s[0]
    ensures forall q :: q in t <==> q in s && PointDist(m, s[0], q) <= rad
  {
    hide PointDist;
  }

  method Refine(m: Libm, reg: array<Point>, regSize0: nat, f: Frame, rec0: Rect, used: array<Mark>, g: ImageDouble)
    returns (ok: bool, regSize: nat, rec: Rect, ghost grown: seq<Point>, ghost k: nat)
    requires m.Lawful() && f.prec >= 0.0 && rec0.width > 0.0
    requires regSize0 <= reg.Length == used.Length == g.xsize * g.ysize
    requires SameScene(g, f.modgrad) && Sound(g, reg[..regSize0])
    requires Elems(reg[..regSize0]) <= Marked(used[..], g.xsize, g.ysize)
    modifies reg, used
    ensures regSize <= reg.Length
    ensures Dense(m, rec0, regSize0, f.densityTh) ==>
              ok && rec == rec0 && regSize == regSize0 && reg[..] == old(reg[..]) && used[..] == old(used[..])
    ensures !Dense(m, rec0, regSize0, f.densityTh) ==>
              Regrown(m, f, g, old(reg[..regSize0]), rec0.width,
                      Marked(old(used[..]), g.xsize, g.ysize) - Elems(old(reg[..regSize0])),
                      grown, reg[..regSize], k, ok, rec)
    ensures Marked(used[..], g.xsize, g.ysize)
            == Marked(old(used[..]), g.xsize, g.ysize) - Elems(old(reg[..regSize0])) + Elems(reg[..regSize])
  {
    hide Marked, Dense, Fits, Dist, Radicand, Shrunk, Chosen, Grow;
    ghost var s0, u0 := reg[..regSize0], Marked(used[..], g.xsize, g.ysize);
    ghost var free := u0 - Elems(s0);
    regSize, rec, grown, k := regSize0, rec0, s0, 0;

    if Dense(m, rec, regSize, f.densityTh) {
      ok := true;
      return;
    }

    // the pixels near the seed give a new tolerance
    SeedCounts(m, g, s0, s0[0], rec.width);
    var n, sum, sqr := ReleaseRegion(m, reg, regSize, used, g, rec.width);
    ToleranceNonNeg(m, g, s0, rec.width);
    var tau := 2.0 * m.sqrt(Radicand(n, sum, sqr));
    assert tau == Tolerance(m, g, s0, rec.width);

    // the region grows again with it
    var seed := reg[0];
    assert seed == s0[0] && seed in s0;
    assert seed in Elems(s0);
    var regAngle;
    regSize, regAngle := RegionGrow(m, seed.x, seed.y, g, reg, used, tau);
    grown := reg[..regSize];
    GrownIsSound(m, g, tau, seed, free, grown);

    if regSize < 2 {
      ok := false;
      return;
    }

    SoundIsHeavy(g, f.modgrad, grown);
    ChecksNeverFire(f.modgrad, grown);
    var f' := f.(regAngle := regAngle);
    var r := RegionToRect(m, reg, regSize, f'.modgrad, f'.regAngle, f'.prec, f'.p);
    rec := r.value;
    ghost var rec1 := rec;

    // still too sparse: shrink it
    if !Dense(m, rec, regSize, f.densityTh) {
      ok, regSize, rec, k := ReduceRegionRadius(m, reg, regSize, f', rec, used, g);
      assert free + Elems(grown) - (Elems(grown) - Elems(reg[..regSize])) == free + Elems(reg[..regSize]) by {
        ShrunkInside(m, f', grown, rec1, reg[..regSize], k);
      }
      return;
    }

    ok := true;
    DenseAtOnce(m, f', grown, rec);
  }

  lemma DenseAtOnce(m: Libm, f: Frame, s: seq<Point>, rec: Rect)
    requires s != [] && Dense(m, rec, |s|, f.densityTh)
    ensures Shrunk(m, f, s, rec, s, 0) && Chosen(m, f, s, 0, rec, true, rec)
  {
  }

  lemma ShrunkInside(m: Libm, f: Frame, s0: seq<Point>, rec0: Rect, s: seq<Point>, k: nat)
    requires s0 != [] && Shrunk(m, f, s0, rec0, s, k)
    ensures Elems(s) <= Elems(s0) && s != [] && s[0] == s0[0]
    ensures Distinct(s0) ==> Distinct(s)
  {
    hide Rejected;
  }

  /** Where the shrinking stops: a rejected region is neither dense nor too small. */
  lemma NotRejected(m: Libm, f: Frame, s: seq<Point>, k: nat, rec0: Rect, ok: bool, rec: Rect)
    requires Chosen(m, f, s, k, rec0, ok, rec) && k > 0
    ensures !Rejected(m, f, s)
  {
    hide Fits, Dense;
    if Rejected(m, f, s) {
      var r :| Fits(m, f.modgrad, s, f.regAngle, f.prec, f.p, r) && !Dense(m, r, |s|, f.densityTh);
      if ok {
        FitsUnique(m, f.modgrad, s, f.regAngle, f.prec, f.p, r, rec);
      }
    }
  }

  /** The shrinking has one outcome only. */
  lemma ShrunkUnique(m: Libm, f: Frame, s0: seq<Point>, rec0: Rect, s1: seq<Point>, k1: nat, ok1: bool, r1: Rect,
                     s2: seq<Point>, k2: nat, ok2: bool, r2: Rect)
    requires s0 != [] && (k1 == 0 <==> Dense(m, rec0, |s0|, f.densityTh)) && (k1 == 0 <==> k2 == 0)
    requires Shrunk(m, f, s0, rec0, s1, k1) && Chosen(m, f, s1, k1, rec0, ok1, r1)
    requires Shrunk(m, f, s0, rec0, s2, k2) && Chosen(m, f, s2, k2, rec0, ok2, r2)
    requires |s0| >= 2
    ensures k1 == k2 && s1 == s2 && ok1 == ok2 && (ok1 ==> r1 == r2)
  {
    NotShrunk(m, f, s0, rec0);
    hide Fits, Dense, Within, Remaining, Rejected;
    if k1 > 0 {
      NotRejected(m, f, s1, k1, rec0, ok1, r1);
      NotRejected(m, f, s2, k2, rec0, ok2, r2);
      if ok1 && ok2 && k1 == k2 {
        FitsUnique(m, f.modgrad, s1, f.regAngle, f.prec, f.p, r1, r2);
      }
    }
  }

  /** So has the regrowth. */
  lemma RegrownUnique(m: Libm, f: Frame, g: ImageDouble, s0: seq<Point>, width: real, free: set<Point>,
                      grown1: seq<Point>, s1: seq<Point>, k1: nat, ok1: bool, r1: Rect,
                      grown2: seq<Point>, s2: seq<Point>, k2: nat, ok2: bool, r2: Rect)
    requires InImage(g, s0) && s0 != []
    requires Regrown(m, f, g, s0, width, free, grown1, s1, k1, ok1, r1)
    requires Regrown(m, f, g, s0, width, free, grown2, s2, k2, ok2, r2)
    ensures s1 == s2 && ok1 == ok2 && (ok1 ==> r1 == r2)
  {
    hide Fits, Dense, Shrunk, Chosen, Grow, Tolerance, RegionAngle;
    if |grown1| >= 2 {
      var f' := f.(regAngle := RegionAngle(m, g, grown1));
      var rec1 :|
        && InImage(f'.modgrad, grown1) && Fits(m, f'.modgrad, grown1, f'.regAngle, f'.prec, f'.p, rec1)
        && (k1 == 0 <==> Dense(m, rec1, |grown1|, f'.densityTh))
        && Shrunk(m, f', grown1, rec1, s1, k1) && Chosen(m, f', s1, k1, rec1, ok1, r1);
      var rec2 :|
        && InImage(f'.modgrad, grown1) && Fits(m, f'.modgrad, grown1, f'.regAngle, f'.prec, f'.p, rec2)
        && (k2 == 0 <==> Dense(m, rec2, |grown1|, f'.densityTh))
        && Shrunk(m, f', grown1, rec2, s2, k2) && Chosen(m, f', s2, k2, rec2, ok2, r2);
      FitsUnique(m, f'.modgrad, grown1, f'.regAngle, f'.prec, f'.p, rec1, rec2);
      ShrunkUnique(m, f', grown1, rec1, s1, k1, ok1, r1, s2, k2, ok2, r2);
    }
  }

  /** `rec` is the rectangle of `s`, computed with some region angle. */
  ghost predicate FitsSome(m: Libm, f: Frame, s: seq<Point>, rec: Rect) {
    InImage(f.modgrad, s) && exists angle :: Fits(m, f.modgrad, s, angle, f.prec, f.p, rec)
  }

  /** After refine: what is left is sound and apart from everything else; accepted regions are
      dense in their rectangle, of rejected ones only the seed is left. */
  lemma RegrownOutcome(m: Libm, f: Frame, g: ImageDouble, s0: seq<Point>, width: real, free: set<Point>,
                       grown: seq<Point>, s: seq<Point>, k: nat, ok: bool, rec: Rect)
    requires InImage(g, s0) && s0 != [] && g.At(s0[0]) != NOTDEF
    requires Regrown(m, f, g, s0, width, free, grown, s, k, ok, rec)
    ensures Sound(g, s) && s[0] == s0[0] && Elems(s) !! free
    ensures ok ==> |s| >= 2 && FitsSome(m, f, s, rec) && Dense(m, rec, |s|, f.densityTh)
    ensures !ok ==> s == [s0[0]]
  {
    hide Fits, Dense, Tolerance, Joined, RegionAngle, Grow;
    GrowIsGrown(m, g, Tolerance(m, g, s0, width), s0[0], free);
    GrownIsSound(m, g, Tolerance(m, g, s0, width), s0[0], free, grown);
    var f' := f.(regAngle := RegionAngle(m, g, grown));
    if |grown| >= 2 {
      var rec1 :|
        && InImage(f'.modgrad, grown) && Fits(m, f'.modgrad, grown, f'.regAngle, f'.prec, f'.p, rec1)
        && (k == 0 <==> Dense(m, rec1, |grown|, f'.densityTh))
        && Shrunk(m, f', grown, rec1, s, k) && Chosen(m, f', s, k, rec1, ok, rec);
      ShrunkInside(m, f', grown, rec1, s, k);
      SoundSubset(g, grown, s);
      assert k == 0 ==> s == grown;
      assert s[0] in s;
    }
  }

  lemma SoundSubset(g: ImageDouble, s: seq<Point>, t: seq<Point>)
    requires Sound(g, s) && Elems(t) <= Elems(s) && t != [] && Distinct(t)
    ensures Sound(g, t)
  {
    forall p | p in t
      ensures p in s
    {
      assert p in Elems(t);
    }
  }
}
