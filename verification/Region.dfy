/** Region growing (lsd.cpp: region_grow). */
module Region {
  import opened MathLib
  import opened Pixels
  import opened Angles

  /** q lies in the 3x3 window around p. */
  predicate Near(p: Point, q: Point) {
    p.x - 1 <= q.x <= p.x + 1 && p.y - 1 <= q.y <= p.y + 1
  }

  ghost predicate InImage(g: ImageDouble, s: seq<Point>) {
    g.Valid() && forall p | p in s :: g.Has(p)
  }

  ghost function SumCos(m: Libm, g: ImageDouble, s: seq<Point>): real
    requires InImage(g, s)
  {
    if s == [] then 0.0 else SumCos(m, g, s[..|s| - 1]) + m.cos(g.At(s[|s| - 1]))
  }

  ghost function SumSin(m: Libm, g: ImageDouble, s: seq<Point>): real
    requires InImage(g, s)
  {
    if s == [] then 0.0 else SumSin(m, g, s[..|s| - 1]) + m.sin(g.At(s[|s| - 1]))
  }

  /** The angle of a region: the direction of the sum of its unit vectors; for the seed alone,
      the angle of the seed. */
  ghost function RegionAngle(m: Libm, g: ImageDouble, s: seq<Point>): real
    requires InImage(g, s) && s != []
  {
    if |s| == 1 then g.At(s[0]) else m.atan2(SumSin(m, g, s), SumCos(m, g, s))
  }

  /** s[k] touches an earlier point and was aligned with the region as it was then. */
  ghost predicate Joined(m: Libm, g: ImageDouble, prec: real, s: seq<Point>, k: int)
    requires InImage(g, s) && 1 <= k < |s|
  {
    && IsAligned(g.At(s[k]), RegionAngle(m, g, s[..k]), prec)
    && exists j | 0 <= j < k :: Near(s[j], s[k])
  }

  /** `s`, in the order of discovery, is a connected set of pixels grown from `seed`,
      none of which was in `before`. */
  ghost predicate Grown(m: Libm, g: ImageDouble, prec: real, seed: Point, before: set<Point>, s: seq<Point>) {
    && InImage(g, s) && Distinct(s) && Elems(s) !! before
    && s != [] && s[0] == seed
    && forall k | 1 <= k < |s| :: Joined(m, g, prec, s, k)
  }

  /** The test of one pixel: it joins a region if it is free and aligned with the region as it is then. */
  ghost function Tried(m: Libm, g: ImageDouble, prec: real, before: set<Point>, s: seq<Point>,
                       e: Point): (t: seq<Point>)
    requires InImage(g, s) && s != []
    ensures InImage(g, t) && s <= t
  {
    if g.Has(e) && e !in before && e !in s && IsAligned(g.At(e), RegionAngle(m, g, s), prec) then s + [e] else s
  }

  /** Cell number c of the 3x3 window around p, column by column. */
  function Cell(p: Point, c: nat): Point {
    Point(p.x - 1 + c / 3, p.y - 1 + c % 3)
  }

  /** The region after the first c cells of the window around p. */
  ghost function TriedCells(m: Libm, g: ImageDouble, prec: real, before: set<Point>, s: seq<Point>, p: Point,
                            c: nat): (t: seq<Point>)
    requires InImage(g, s) && s != []
    ensures InImage(g, t) && s <= t
  {
    if c == 0 then s
    else Tried(m, g, prec, before, TriedCells(m, g, prec, before, s, p, c - 1), Cell(p, c - 1))
  }

  const CELLS: nat := 9

  /** The region after the windows of its first i pixels. */
  ghost function GrowTo(m: Libm, g: ImageDouble, prec: real, seed: Point, before: set<Point>, i: nat): (t: seq<Point>)
    requires g.Valid() && g.Has(seed)
    ensures InImage(g, t) && t != [] && t[0] == seed
  {
    if i == 0 then [seed]
    else
      var s := GrowTo(m, g, prec, seed, before, i - 1);
      if i - 1 < |s| then TriedCells(m, g, prec, before, s, s[i - 1], CELLS) else s
  }

  /** The region that grows from a seed: it has no more pixels, hence no more windows, than the image. */
  ghost function Grow(m: Libm, g: ImageDouble, prec: real, seed: Point, before: set<Point>): (t: seq<Point>)
    requires g.Valid() && g.Has(seed)
    ensures InImage(g, t) && t != [] && t[0] == seed
  {
    GrowTo(m, g, prec, seed, before, g.xsize * g.ysize)
  }

  /** Once all windows of a region are done, it stays. */
  lemma {:induction false} GrowStays(m: Libm, g: ImageDouble, prec: real, seed: Point, before: set<Point>, i: nat,
                                     n: nat)
    requires g.Valid() && g.Has(seed) && |GrowTo(m, g, prec, seed, before, i)| <= i <= n
    ensures GrowTo(m, g, prec, seed, before, n) == GrowTo(m, g, prec, seed, before, i)
  {
    if i < n {
      GrowStays(m, g, prec, seed, before, i, n - 1);
    }
  }

  /** Earlier states are prefixes of later ones. */
  lemma {:induction false} GrowExtends(m: Libm, g: ImageDouble, prec: real, seed: Point, before: set<Point>, i: nat,
                                       n: nat)
    requires g.Valid() && g.Has(seed) && i <= n
    ensures GrowTo(m, g, prec, seed, before, i) <= GrowTo(m, g, prec, seed, before, n)
  {
    hide TriedCells;
    if i < n {
      GrowExtends(m, g, prec, seed, before, i, n - 1);
    }
  }

  lemma {:induction false} CellsExtend(m: Libm, g: ImageDouble, prec: real, before: set<Point>, s: seq<Point>, p: Point,
                                       c: nat, d: nat)
    requires InImage(g, s) && s != [] && c <= d
    ensures TriedCells(m, g, prec, before, s, p, c) <= TriedCells(m, g, prec, before, s, p, d)
  {
    hide Tried;
    if c < d {
      CellsExtend(m, g, prec, before, s, p, c, d - 1);
    }
  }

  lemma GrownStep(m: Libm, g: ImageDouble, prec: real, seed: Point, before: set<Point>, s: seq<Point>,
                  i: int, q: Point)
    requires Grown(m, g, prec, seed, before, s)
    requires 0 <= i < |s| && Near(s[i], q) && g.Has(q) && q !in before && q !in s
    requires IsAligned(g.At(q), RegionAngle(m, g, s), prec)
    ensures Grown(m, g, prec, seed, before, s + [q])
    ensures SumCos(m, g, s + [q]) == SumCos(m, g, s) + m.cos(g.At(q))
    ensures SumSin(m, g, s + [q]) == SumSin(m, g, s) + m.sin(g.At(q))
    ensures Elems(s + [q]) == Elems(s) + {q}
  {
    var t := s + [q];
    assert t[..|s|] == s;
    forall k | 1 <= k < |t|
      ensures Joined(m, g, prec, t, k)
    {
      if k < |s| {
        assert Joined(m, g, prec, s, k);
        assert t[..k] == s[..k];
        var j :| 0 <= j < k && Near(s[j], s[k]);
        assert Near(t[j], t[k]);
      } else {
        assert Near(t[i], t[k]);
      }
    }
  }

  /** A test keeps a grown region grown. */
  lemma TriedGrown(m: Libm, g: ImageDouble, prec: real, seed: Point, before: set<Point>, s: seq<Point>, i: int,
                   e: Point)
    requires Grown(m, g, prec, seed, before, s) && 0 <= i < |s| && Near(s[i], e)
    ensures Grown(m, g, prec, seed, before, Tried(m, g, prec, before, s, e))
  {
    assert InImage(g, s) && s != [];
    hide Grown;
    if Tried(m, g, prec, before, s, e) != s {
      GrownStep(m, g, prec, seed, before, s, i, e);
    }
  }

  lemma {:induction false} CellsGrown(m: Libm, g: ImageDouble, prec: real, seed: Point, before: set<Point>,
                                      s: seq<Point>,
                                      i: nat, c: nat)
    requires Grown(m, g, prec, seed, before, s) && i < |s| && c <= CELLS
    ensures Grown(m, g, prec, seed, before, TriedCells(m, g, prec, before, s, s[i], c))
  {
    hide Grown, Tried;
    assert InImage(g, s) && s != [] by { GrownInImage(m, g, prec, seed, before, s); }
    if c > 0 {
      CellsGrown(m, g, prec, seed, before, s, i, c - 1);
      TriedGrown(m, g, prec, seed, before, TriedCells(m, g, prec, before, s, s[i], c - 1), i, Cell(s[i], c - 1));
    }
  }

  lemma GrownInImage(m: Libm, g: ImageDouble, prec: real, seed: Point, before: set<Point>, s: seq<Point>)
    requires Grown(m, g, prec, seed, before, s)
    ensures InImage(g, s) && s != [] && s[0] == seed && Distinct(s) && |s| <= g.xsize * g.ysize
  {
    DistinctFit(s, g.xsize, g.ysize);
  }

  lemma {:induction false} GrowToGrown(m: Libm, g: ImageDouble, prec: real, seed: Point, before: set<Point>, i: nat)
    requires g.Valid() && g.Has(seed) && seed !in before
    ensures Grown(m, g, prec, seed, before, GrowTo(m, g, prec, seed, before, i))
  {
    if i > 0 {
      hide Grown, TriedCells;
      GrowToGrown(m, g, prec, seed, before, i - 1);
      var s := GrowTo(m, g, prec, seed, before, i - 1);
      if i - 1 < |s| {
        CellsGrown(m, g, prec, seed, before, s, i - 1, CELLS);
      }
    }
  }

  /** The region is connected, made of distinct free pixels, each aligned when it joined. */
  lemma GrowIsGrown(m: Libm, g: ImageDouble, prec: real, seed: Point, before: set<Point>)
    requires g.Valid() && g.Has(seed) && seed !in before
    ensures Grown(m, g, prec, seed, before, Grow(m, g, prec, seed, before))
  {
    GrowToGrown(m, g, prec, seed, before, g.xsize * g.ysize);
  }

  /** The region at the moment when cell c of the window of its pixel number i is tested. */
  ghost function AtTest(m: Libm, g: ImageDouble, prec: real, seed: Point, before: set<Point>, i: nat,
                        c: nat): (t: seq<Point>)
    requires g.Valid() && g.Has(seed)
    ensures InImage(g, t) && t != []
  {
    var s := GrowTo(m, g, prec, seed, before, i);
    if i < |s| then TriedCells(m, g, prec, before, s, s[i], c) else s
  }

  lemma GrowReaches(m: Libm, g: ImageDouble, prec: real, seed: Point, before: set<Point>, i: nat)
    requires g.Valid() && g.Has(seed) && seed !in before && i < |Grow(m, g, prec, seed, before)|
    ensures i < g.xsize * g.ysize && i < |GrowTo(m, g, prec, seed, before, i)|
  {
    var n := g.xsize * g.ysize;
    GrowToGrown(m, g, prec, seed, before, n);
    GrownInImage(m, g, prec, seed, before, GrowTo(m, g, prec, seed, before, n));
    if |GrowTo(m, g, prec, seed, before, i)| <= i {
      GrowStays(m, g, prec, seed, before, i, n);
    }
  }

  /** Every window is exhausted: at the moment of its test the region is a beginning of the final one, and
      a free pixel of the image is the next to join exactly if it is aligned with that beginning. So a
      pixel that is left over was not aligned at the angle in force at each of its tests. */
  lemma GrowExhausts(m: Libm, g: ImageDouble, prec: real, seed: Point, before: set<Point>, i: nat, c: nat)
    requires g.Valid() && g.Has(seed) && seed !in before
    requires i < |Grow(m, g, prec, seed, before)| && c < CELLS
    ensures var s, t := Grow(m, g, prec, seed, before), AtTest(m, g, prec, seed, before, i, c);
            var q := Cell(s[i], c);
            && i < |t| && t <= s
            && (g.Has(q) && q !in before && q !in t ==>
                  && (IsAligned(g.At(q), RegionAngle(m, g, t), prec) <==> |t| < |s| && s[|t|] == q)
                  && (q !in s ==> !IsAligned(g.At(q), RegionAngle(m, g, t), prec)))
  {
    hide IsAligned, RegionAngle, GrowTo, Near, Cell, Elems;
    var n, s := g.xsize * g.ysize, Grow(m, g, prec, seed, before);
    GrowToGrown(m, g, prec, seed, before, n);
    var w := GrowTo(m, g, prec, seed, before, i);
    GrowReaches(m, g, prec, seed, before, i);
    GrowExtends(m, g, prec, seed, before, i, n);
    GrowExtends(m, g, prec, seed, before, i + 1, n);
    NextGrowTo(m, g, prec, seed, before, i);
    CellsExtend(m, g, prec, before, w, w[i], c + 1, CELLS);
    var t := TriedCells(m, g, prec, before, w, w[i], c);
    var q := Cell(w[i], c);
    assert Tried(m, g, prec, before, t, q) <= s;
    assert t <= s;
    if |t| < |s| && s[|t|] == q {
      assert Joined(m, g, prec, s, |t|);
      assert s[..|t|] == t;
    }
  }

  /** The nine cells are the 3x3 window. */
  lemma CellsAreNear(p: Point, q: Point)
    ensures Near(p, q) <==> exists c: nat :: c < CELLS && Cell(p, c) == q
  {
    if Near(p, q) {
      var c: nat := 3 * (q.x - p.x + 1) + (q.y - p.y + 1);
      assert Cell(p, c) == q;
    }
  }

  /** A free pixel that is left over next to a pixel of the region was not aligned with it when it was tested. */
  lemma LeftOver(m: Libm, g: ImageDouble, prec: real, seed: Point, before: set<Point>, i: nat, q: Point)
    returns (t: seq<Point>)
    requires g.Valid() && g.Has(seed) && seed !in before && i < |Grow(m, g, prec, seed, before)|
    requires Near(Grow(m, g, prec, seed, before)[i], q) && g.Has(q)
    requires q !in before && q !in Grow(m, g, prec, seed, before)
    ensures i < |t| && t <= Grow(m, g, prec, seed, before) && InImage(g, t)
    ensures !IsAligned(g.At(q), RegionAngle(m, g, t), prec)
  {
    hide IsAligned, RegionAngle, Grow, AtTest, Near, Cell;
    CellsAreNear(Grow(m, g, prec, seed, before)[i], q);
    var c: nat :| c < CELLS && Cell(Grow(m, g, prec, seed, before)[i], c) == q;
    GrowExhausts(m, g, prec, seed, before, i, c);
    t := AtTest(m, g, prec, seed, before, i, c);
  }

  /** The angle of a region is the direction of the sum of its unit vectors. */
  lemma AngleOfSum(m: Libm, g: ImageDouble, s: seq<Point>) returns (r: real)
    requires m.Lawful() && InImage(g, s) && s != []
    ensures r >= 0.0 && Sqr(r) == Sqr(SumCos(m, g, s)) + Sqr(SumSin(m, g, s))
    ensures r * m.cos(RegionAngle(m, g, s)) == SumCos(m, g, s) && r * m.sin(RegionAngle(m, g, s)) == SumSin(m, g, s)
  {
    hide Libm.Lawful;
    if |s| == 1 {
      SumOfOne(m, g, s);
      hide SumCos, SumSin;
      r := 1.0;
      UnitCircle(m, g.At(s[0]));
    } else {
      hide SumCos, SumSin;
      r := m.Norm(SumCos(m, g, s), SumSin(m, g, s));
      NormLaw(m, SumCos(m, g, s), SumSin(m, g, s));
      PolarLaw(m, SumSin(m, g, s), SumCos(m, g, s));
    }
  }

  lemma SumOfOne(m: Libm, g: ImageDouble, s: seq<Point>)
    requires InImage(g, s) && |s| == 1
    ensures SumCos(m, g, s) == m.cos(g.At(s[0])) && SumSin(m, g, s) == m.sin(g.At(s[0]))
  {
    assert SumCos(m, g, s[..0]) == 0.0 && SumSin(m, g, s[..0]) == 0.0;
  }

  lemma {:induction false} SameAngleSums(m: Libm, g: ImageDouble, s: seq<Point>, t: real)
    requires InImage(g, s) && forall e | e in s :: g.At(e) == t
    ensures SumCos(m, g, s) == |s| as real * m.cos(t) && SumSin(m, g, s) == |s| as real * m.sin(t)
  {
    if s != [] {
      SameAngleSums(m, g, s[..|s| - 1], t);
      assert s[|s| - 1] in s;
    }
  }

  /** Pixels of one angle make a region of that direction. */
  lemma SteadyRegion(m: Libm, g: ImageDouble, s: seq<Point>, t: real)
    requires m.Lawful() && InImage(g, s) && s != [] && forall e | e in s :: g.At(e) == t
    ensures m.cos(RegionAngle(m, g, s)) == m.cos(t) && m.sin(RegionAngle(m, g, s)) == m.sin(t)
  {
    hide Libm.Lawful, RegionAngle, SumCos, SumSin;
    var r := AngleOfSum(m, g, s);
    SameAngleSums(m, g, s, t);
    UnitCircle(m, t);
    hide *;
    SameDirection(r, |s| as real, m.cos(RegionAngle(m, g, s)), m.sin(RegionAngle(m, g, s)), m.cos(t), m.sin(t));
  }

  lemma SameDirection(r: real, n: real, a: real, b: real, c: real, d: real)
    requires r >= 0.0 && n > 0.0 && c * c + d * d == 1.0 && Sqr(r) == Sqr(n * c) + Sqr(n * d)
    requires r * a == n * c && r * b == n * d
    ensures a == c && b == d
  {
    assert Sqr(n * c) + Sqr(n * d) == (n * n) * (c * c + d * d);
    assert Sqr(r) == Sqr(n);
    SqrOrder(r, n);
    SqrOrder(n, r);
    assert r == n;
    Cancel(n, a, c);
    Cancel(n, b, d);
  }

  lemma NextGrowTo(m: Libm, g: ImageDouble, prec: real, seed: Point, before: set<Point>, i: nat)
    requires g.Valid() && g.Has(seed) && i < |GrowTo(m, g, prec, seed, before, i)|
    ensures var s := GrowTo(m, g, prec, seed, before, i);
            GrowTo(m, g, prec, seed, before, i + 1) == TriedCells(m, g, prec, before, s, s[i], CELLS)
  {
  }

  /** The running state of region_grow: the arrays hold the region and its marks, the
      accumulators its sums and its angle. */
  ghost predicate Growing(m: Libm, g: ImageDouble, prec: real, seed: Point, before: set<Point>, s: seq<Point>,
                          reg: seq<Point>, regSize: int, used: seq<Mark>, sumdx: real, sumdy: real, regAngle: real)
  {
    && Grown(m, g, prec, seed, before, s)
    && regSize == |s| <= |reg| == |used| == g.xsize * g.ysize && reg[..regSize] == s
    && Marked(used, g.xsize, g.ysize) == before + Elems(s)
    && sumdx == SumCos(m, g, s) && sumdy == SumSin(m, g, s) && regAngle == RegionAngle(m, g, s)
  }

  lemma GrowingInit(m: Libm, g: ImageDouble, prec: real, seed: Point, before: set<Point>, used: seq<Mark>,
                    reg: seq<Point>)
    requires g.Valid() && g.Has(seed) && |reg| == |used| == g.xsize * g.ysize
    requires before == Marked(used, g.xsize, g.ysize) && seed !in before
    ensures 0 <= Adr(seed, g.xsize) < |used| && GrowTo(m, g, prec, seed, before, 0) == [seed]
    ensures Growing(m, g, prec, seed, before, [seed], reg[0 := seed], 1,
                    used[Adr(seed, g.xsize) := USED], m.cos(g.At(seed)), m.sin(g.At(seed)), g.At(seed))
  {
    DistinctFit([seed], g.xsize, g.ysize);
    MarkOne(used, g.xsize, g.ysize, seed);
    assert [seed][..0] == [];
    assert reg[0 := seed][..1] == [seed];
  }

  lemma GrowingStep(m: Libm, g: ImageDouble, prec: real, seed: Point, before: set<Point>, s: seq<Point>,
                    reg: seq<Point>, regSize: int, used: seq<Mark>, sumdx: real, sumdy: real, regAngle: real,
                    i: int, q: Point)
    requires Growing(m, g, prec, seed, before, s, reg, regSize, used, sumdx, sumdy, regAngle)
    requires 0 <= i < |s| && Near(s[i], q) && g.Has(q) && q !in Marked(used, g.xsize, g.ysize)
    requires IsAligned(g.At(q), regAngle, prec)
    ensures regSize < |reg| && 0 <= Adr(q, g.xsize) < |used|
    ensures var sx, sy := sumdx + m.cos(g.At(q)), sumdy + m.sin(g.At(q));
            Growing(m, g, prec, seed, before, s + [q], reg[regSize := q], regSize + 1,
                    used[Adr(q, g.xsize) := USED], sx, sy, m.atan2(sy, sx))
  {
    GrownStep(m, g, prec, seed, before, s, i, q);
    MarkOne(used, g.xsize, g.ysize, q);
    DistinctFit(s + [q], g.xsize, g.ysize);
    assert reg[regSize := q][..regSize + 1] == s + [q];
  }

  /** One pixel of the window of reg[i]: it joins the region if it is free and aligned. */
  method TryPixel(m: Libm, xx: int, yy: int, g: ImageDouble, reg: array<Point>, used: array<Mark>, prec: real,
                  regSize0: nat, regAngle0: real, sumdx0: real, sumdy0: real,
                  ghost seed: Point, ghost before: set<Point>, ghost s: seq<Point>, ghost i: int)
    returns (regSize: nat, regAngle: real, sumdx: real, sumdy: real, ghost s': seq<Point>)
    requires Growing(m, g, prec, seed, before, s, reg[..], regSize0, used[..], sumdx0, sumdy0, regAngle0)
    requires 0 <= i < |s| && Near(s[i], Point(xx, yy))
    modifies reg, used
    ensures Growing(m, g, prec, seed, before, s', reg[..], regSize, used[..], sumdx, sumdy, regAngle)
    ensures s' == Tried(m, g, prec, before, s, Point(xx, yy))
  {
    regSize, regAngle, sumdx, sumdy, s' := regSize0, regAngle0, sumdx0, sumdy0, s;
    var w, e := g.xsize, Point(xx, yy);
    if xx >= 0 && yy >= 0 && xx < w && yy < g.ysize {
      AdrBounds(e, w, g.ysize);
      assert used[Adr(e, w)] == Pix(used[..], w, g.ysize, e);
      if used[Adr(e, w)] != USED && IsAligned(g.At(e), regAngle, prec) {
        GrowingStep(m, g, prec, seed, before, s, reg[..], regSize, used[..], sumdx, sumdy, regAngle, i, e);
        ghost var u, r := used[..], reg[..];
        used[Adr(e, w)] := USED;
        reg[regSize] := e;
        assert used[..] == u[Adr(e, w) := USED] && reg[..] == r[regSize := e];
        regSize := regSize + 1;

        // the angle follows the sums
        sumdx := sumdx + m.cos(g.At(e));
        sumdy := sumdy + m.sin(g.At(e));
        regAngle := m.atan2(sumdy, sumdx);
        s' := s + [e];
      }
    }
  }

  /** The window of reg[i], lines 1732-1749. */
  method TryWindow(m: Libm, i: nat, g: ImageDouble, reg: array<Point>, used: array<Mark>, prec: real,
                   regSize0: nat, regAngle0: real, sumdx0: real, sumdy0: real,
                   ghost seed: Point, ghost before: set<Point>, ghost s0: seq<Point>)
    returns (regSize: nat, regAngle: real, sumdx: real, sumdy: real, ghost s: seq<Point>)
    requires Growing(m, g, prec, seed, before, s0, reg[..], regSize0, used[..], sumdx0, sumdy0, regAngle0)
    requires i < |s0|
    modifies reg, used
    ensures Growing(m, g, prec, seed, before, s, reg[..], regSize, used[..], sumdx, sumdy, regAngle)
    ensures s == TriedCells(m, g, prec, before, s0, s0[i], CELLS)
  {
    hide Growing, InWindow, TriedCells, Near;
    regSize, regAngle, sumdx, sumdy, s := regSize0, regAngle0, sumdx0, sumdy0, s0;
    StartWindow(m, g, prec, seed, before, s, reg[..], regSize, used[..], sumdx, sumdy, regAngle, i);
    var p := reg[i];
    var xx := p.x - 1;
    while xx <= p.x + 1
      invariant p.x - 1 <= xx <= p.x + 2 && InWindow(m, g, prec, before, s0, i, p, s, 3 * (xx - p.x + 1))
      invariant Growing(m, g, prec, seed, before, s, reg[..], regSize, used[..], sumdx, sumdy, regAngle)
    {
      var yy := p.y - 1;
      while yy <= p.y + 1
        invariant p.y - 1 <= yy <= p.y + 2
        invariant InWindow(m, g, prec, before, s0, i, p, s, 3 * (xx - p.x + 1) + (yy - p.y + 1))
        invariant Growing(m, g, prec, seed, before, s, reg[..], regSize, used[..], sumdx, sumdy, regAngle)
      {
        NextCell(m, g, prec, before, s0, i, p, s, xx, yy);
        regSize, regAngle, sumdx, sumdy, s :=
          TryPixel(m, xx, yy, g, reg, used, prec, regSize, regAngle, sumdx, sumdy, seed, before, s, i);
        yy := yy + 1;
      }
      xx := xx + 1;
    }
    EndWindow(m, g, prec, before, s0, i, p, s);
  }

  /** In the window of s0[i], which is p, the first c cells are done. */
  ghost predicate InWindow(m: Libm, g: ImageDouble, prec: real, before: set<Point>, s0: seq<Point>, i: int, p: Point,
                           s: seq<Point>, c: int)
  {
    InImage(g, s0) && 0 <= i < |s0| && p == s0[i] && c >= 0 && s == TriedCells(m, g, prec, before, s0, p, c)
  }

  lemma StartWindow(m: Libm, g: ImageDouble, prec: real, seed: Point, before: set<Point>, s: seq<Point>,
                    reg: seq<Point>, regSize: int, used: seq<Mark>, sumdx: real, sumdy: real, regAngle: real, i: nat)
    requires Growing(m, g, prec, seed, before, s, reg, regSize, used, sumdx, sumdy, regAngle) && i < |s|
    ensures i < |reg| && InWindow(m, g, prec, before, s, i, reg[i], s, 0)
  {
    assert reg[i] == reg[..regSize][i];
  }

  lemma NextCell(m: Libm, g: ImageDouble, prec: real, before: set<Point>, s0: seq<Point>, i: int, p: Point,
                 s: seq<Point>, xx: int, yy: int)
    requires p.x - 1 <= xx <= p.x + 1 && p.y - 1 <= yy <= p.y + 1
    requires InWindow(m, g, prec, before, s0, i, p, s, 3 * (xx - p.x + 1) + (yy - p.y + 1))
    ensures InImage(g, s) && 0 <= i < |s| && Near(s[i], Point(xx, yy))
    ensures InWindow(m, g, prec, before, s0, i, p, Tried(m, g, prec, before, s, Point(xx, yy)),
                     3 * (xx - p.x + 1) + (yy + 1 - p.y + 1))
  {
    hide Tried;
    assert Cell(p, 3 * (xx - p.x + 1) + (yy - p.y + 1)) == Point(xx, yy);
  }

  lemma EndWindow(m: Libm, g: ImageDouble, prec: real, before: set<Point>, s0: seq<Point>, i: int, p: Point,
                  s: seq<Point>)
    requires InWindow(m, g, prec, before, s0, i, p, s, CELLS)
    ensures InImage(g, s0) && 0 <= i < |s0| && s == TriedCells(m, g, prec, before, s0, s0[i], CELLS)
  {
    hide TriedCells;
  }

  method RegionGrow(m: Libm, x: int, y: int, g: ImageDouble, reg: array<Point>, used: array<Mark>, prec: real)
    returns (regSize: nat, regAngle: real)
    requires g.Valid() && g.Has(Point(x, y)) && prec >= 0.0
    requires reg.Length == used.Length == g.xsize * g.ysize
    requires Point(x, y) !in Marked(used[..], g.xsize, g.ysize)
    modifies reg, used
    ensures regSize <= reg.Length
    ensures reg[..regSize] == Grow(m, g, prec, Point(x, y), Marked(old(used[..]), g.xsize, g.ysize))
    ensures Grown(m, g, prec, Point(x, y), Marked(old(used[..]), g.xsize, g.ysize), reg[..regSize])
    ensures Marked(used[..], g.xsize, g.ysize) == Marked(old(used[..]), g.xsize, g.ysize) + Elems(reg[..regSize])
    ensures regAngle == RegionAngle(m, g, reg[..regSize])
  {
    hide IsAligned, RegionAngle, TriedCells, GrowTo, Tried;
    ghost var seed, before, s := Point(x, y), Marked(used[..], g.xsize, g.ysize), [Point(x, y)];
    GrowingInit(m, g, prec, seed, before, used[..], reg[..]);
    ghost var u, r := used[..], reg[..];
    regSize := 1;
    reg[0] := Point(x, y);
    regAngle := g.At(Point(x, y));
    var sumdx, sumdy := m.cos(regAngle), m.sin(regAngle);
    used[Adr(Point(x, y), g.xsize)] := USED;
    assert used[..] == u[Adr(seed, g.xsize) := USED] && reg[..] == r[0 := seed];

    // the windows of the region, in the order in which its pixels joined
    var i := 0;
    while i < regSize
      invariant 0 <= i <= regSize && s == GrowTo(m, g, prec, seed, before, i)
      invariant Growing(m, g, prec, seed, before, s, reg[..], regSize, used[..], sumdx, sumdy, regAngle)
      decreases reg.Length - i
    {
      NextGrowTo(m, g, prec, seed, before, i);
      regSize, regAngle, sumdx, sumdy, s :=
        TryWindow(m, i, g, reg, used, prec, regSize, regAngle, sumdx, sumdy, seed, before, s);
      i := i + 1;
    }
    GrowStays(m, g, prec, seed, before, i, g.xsize * g.ysize);
  }
}
