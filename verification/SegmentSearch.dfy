/** The search for segments over the list of pixels (lsd.cpp: the seed loop of LineSegmentDetection). */
module SegmentSearch {
  import opened MathLib
  import opened Pixels
  import opened Angles
  import opened Rectangle
  import opened Region
  import opened RegionRect
  import opened PrincipalAxis
  import opened RegionRefine
  import opened Nfa
  import opened RectSearch
  import opened PixelOrder
  import opened TupleList

  /** What the search for segments works with. */
  datatype Config = Config(
    g: ImageDouble,        // angles
    modgrad: ImageDouble,  // gradient norms
    prec: real,            // angle tolerance
    p: real,               // its probability
    densityTh: real,
    logNT: real,           // number of tests
    logEps: real,          // detection threshold
    minRegSize: int,       // smallest region that can be meaningful
    scale: real)
  {
    ghost predicate Valid() {
      SameScene(g, modgrad) && prec >= 0.0 && 0.0 < p < 1.0 && scale > 0.0
    }

    function At(regAngle: real): Frame {
      Frame(modgrad, regAngle, prec, p, densityTh)
    }
  }

  datatype Verdict = Rejected | Detected(rec: Rect, logNfa: real)

  /** A segment that may be reported for region `s`: its rectangle is a variant of one that fits
      `s` densely, and its value is above the threshold. */
  ghost predicate Meaningful(m: Libm, c: Config, s: seq<Point>, rec: Rect, logNfa: real) {
    && |s| >= 2 && logNfa > c.logEps
    && c.g.Valid() && Usable(rec) && logNfa == RectValue(m, rec, c.g, c.logNT)
    && exists fitted ::
         FitsSome(m, c.At(0.0), s, fitted) && Dense(m, fitted, |s|, c.densityTh) && Reachable(fitted, rec)
  }

  lemma FittedIsUsable(m: Libm, c: Config, s: seq<Point>, rec: Rect)
    requires m.Lawful() && c.Valid() && Sound(c.g, s) && |s| >= 2 && FitsSome(m, c.At(0.0), s, rec)
    ensures Usable(rec) && rec.width >= 1.0
  {
    hide Libm.Lawful, Rect.Oriented, Rect.Length, Placed, HasExtent;
    var angle :| Fits(m, c.modgrad, s, angle, c.prec, c.p, rec);
    SoundIsHeavy(c.g, c.modgrad, s);
    FittedIsOriented(m, c.modgrad, s, angle, c.prec, c.p, rec);
    PositiveLength(m, c.modgrad, s, angle, c.prec, c.p, rec);
    FitsKeeps(m, c.modgrad, s, angle, c.prec, c.p, rec);
  }

  lemma FitsKeeps(m: Libm, g: ImageDouble, s: seq<Point>, angle: real, prec: real, p: real, rec: Rect)
    requires InImage(g, s) && Fits(m, g, s, angle, prec, p, rec)
    ensures rec.prec == prec && rec.p == p
  {
  }

  /** The region that first grows from a seed. */
  ghost function FirstRegion(m: Libm, c: Config, seed: Point, before: set<Point>): (s: seq<Point>)
    requires c.Valid() && c.g.Has(seed)
    ensures InImage(c.g, s) && s != [] && s[0] == seed
  {
    Grow(m, c.g, c.prec, seed, before)
  }

  /** The seed for which the program stops, line 1620: a region of one pixel is not small enough to be
      rejected before its rectangle is computed. */
  ghost predicate Lonely(m: Libm, c: Config, seed: Point, before: set<Point>)
    requires c.Valid() && c.g.Has(seed)
  {
    c.minRegSize <= |FirstRegion(m, c, seed, before)| < 2
  }

  /** What happens to one seed past its first region: the rectangle, what refine makes of both, and the
      stages of the search for a better rectangle. */
  datatype Trace = Trace(rec0: Rect, grown: seq<Point>, k: nat, ok: bool, fitted: Rect, stages: seq<Rect>)

  ghost const NO_TRACE: Trace := Trace(NO_RECT, [], 0, false, NO_RECT, [])

  ghost predicate Refined(m: Libm, c: Config, before: set<Point>, s0: seq<Point>, t: Trace, s: seq<Point>)
    requires InImage(c.g, s0) && s0 != []
  {
    if Dense(m, t.rec0, |s0|, c.densityTh) then
      t.ok && s == s0 && t.fitted == t.rec0
    else
      Regrown(m, c.At(RegionAngle(m, c.g, s0)), c.g, s0, t.rec0.width, before, t.grown, s, t.k, t.ok, t.fitted)
  }

  /** The last rectangle of the search and whether its value is above the threshold. */
  ghost predicate Judged(m: Libm, c: Config, fitted: Rect, stages: seq<Rect>, v: Verdict)
    requires c.g.Valid()
  {
    && Finished(m, c.g, c.logNT, c.logEps, stages) && stages[0] == fitted
    && var rec := stages[|stages| - 1];
       var value := RectValue(m, rec, c.g, c.logNT);
       v == if value <= c.logEps then Rejected else Detected(rec, value)
  }

  ghost predicate HasRect(m: Libm, c: Config, s: seq<Point>, rec: Rect)
    requires c.Valid() && InImage(c.g, s) && s != []
  {
    |s| >= 2 && InImage(c.modgrad, s) && Fits(m, c.modgrad, s, RegionAngle(m, c.g, s), c.prec, c.p, rec)
  }

  /** The verdict on a seed and the region `s` that it leaves, with `before` marked: every step of
      lines 2115-2139, and every reason to reject. */
  ghost predicate Treated(m: Libm, c: Config, seed: Point, before: set<Point>, t: Trace, s: seq<Point>, v: Verdict)
    requires c.Valid() && c.g.Has(seed)
  {
    var s0 := FirstRegion(m, c, seed, before);
    if |s0| < c.minRegSize then
      s == s0 && v == Rejected
    else
      && HasRect(m, c, s0, t.rec0)
      && Refined(m, c, before, s0, t, s)
      && if t.ok then Judged(m, c, t.fitted, t.stages, v) else v == Rejected
  }

  /** A seed yields no segment if and only if its region is too small, or no more than the seed is left of it after
      refine, or none of the rectangles that the five stages try has a value above the threshold. */
  lemma RejectedExactly(m: Libm, c: Config, seed: Point, before: set<Point>, t: Trace, s: seq<Point>, v: Verdict)
    requires m.Lawful() && c.Valid() && c.g.Has(seed) && Treated(m, c, seed, before, t, s, v)
    ensures v.Rejected? <==>
            || |FirstRegion(m, c, seed, before)| < c.minRegSize
            || |s| < 2
            || (|t.stages| == 6 && forall i, n: nat | 0 <= i < 5 && n <= 5 ::
                  Usable(Candidate(MOVES[i], t.stages[i], n))
                  && RectValue(m, Candidate(MOVES[i], t.stages[i], n), c.g, c.logNT) <= c.logEps)
    ensures v.Detected? ==>
              && t.stages != [] && t.stages[0] == t.fitted && t.stages[|t.stages| - 1] == v.rec && Usable(v.rec)
              && v.logNfa == RectValue(m, v.rec, c.g, c.logNT) > c.logEps
  {
    hide Libm.Lawful, FirstRegion, Refined, Fits, RectValue, Usable, Candidate, Climb, RegionAngle;
    var s0 := FirstRegion(m, c, seed, before);
    if |s0| >= c.minRegSize {
      LeftByRefine(m, c, before, s0, t, s);
      if t.ok {
        RefusedExactly(m, c.g, c.logNT, c.logEps, t.stages);
        LastIsUsable(m, c, t.stages);
      }
    }
  }

  lemma LastIsUsable(m: Libm, c: Config, stages: seq<Rect>)
    requires c.g.Valid() && Finished(m, c.g, c.logNT, c.logEps, stages)
    ensures stages != [] && Usable(stages[|stages| - 1])
  {
    hide Usable, FirstBest, RectValue;
  }

  /** Refine gives a region up exactly when it leaves less than two pixels. */
  lemma LeftByRefine(m: Libm, c: Config, before: set<Point>, s0: seq<Point>, t: Trace, s: seq<Point>)
    requires m.Lawful() && c.Valid() && InImage(c.g, s0) && s0 != []
    requires HasRect(m, c, s0, t.rec0) && Refined(m, c, before, s0, t, s)
    ensures t.ok <==> |s| >= 2
  {
    hide Libm.Lawful, Fits, Dense, Regrown, RegionAngle;
    FittedIsOriented(m, c.modgrad, s0, RegionAngle(m, c.g, s0), c.prec, c.p, t.rec0);
    if !Dense(m, t.rec0, |s0|, c.densityTh) {
      var tau, rec1 := RegrownSteps(m, c.At(RegionAngle(m, c.g, s0)), c.g, s0, t.rec0.width, before, t.grown, s, t.k,
                                    t.ok, t.fitted);
    }
  }

  /** The region left by a seed and the verdict are determined by what is marked before. */
  lemma TreatedUnique(m: Libm, c: Config, seed: Point, before: set<Point>, t1: Trace, s1: seq<Point>, v1: Verdict,
                      t2: Trace, s2: seq<Point>, v2: Verdict)
    requires c.Valid() && c.g.Has(seed)
    requires Treated(m, c, seed, before, t1, s1, v1) && Treated(m, c, seed, before, t2, s2, v2)
    ensures s1 == s2 && v1 == v2
  {
    hide FirstRegion, Refined, Judged, Fits;
    var s0 := FirstRegion(m, c, seed, before);
    if |s0| >= c.minRegSize {
      FitsUnique(m, c.modgrad, s0, RegionAngle(m, c.g, s0), c.prec, c.p, t1.rec0, t2.rec0);
      RefinedUnique(m, c, before, s0, t1, s1, t2, s2);
      if t1.ok {
        JudgedUnique(m, c, t1.fitted, t1.stages, v1, t2.stages, v2);
      }
    }
  }

  lemma RefinedUnique(m: Libm, c: Config, before: set<Point>, s0: seq<Point>, t1: Trace, s1: seq<Point>,
                      t2: Trace, s2: seq<Point>)
    requires InImage(c.g, s0) && s0 != [] && t1.rec0 == t2.rec0
    requires Refined(m, c, before, s0, t1, s1) && Refined(m, c, before, s0, t2, s2)
    ensures s1 == s2 && t1.ok == t2.ok && (t1.ok ==> t1.fitted == t2.fitted)
  {
    hide Dense, Regrown;
    if !Dense(m, t1.rec0, |s0|, c.densityTh) {
      RegrownUnique(m, c.At(RegionAngle(m, c.g, s0)), c.g, s0, t1.rec0.width, before,
                    t1.grown, s1, t1.k, t1.ok, t1.fitted, t2.grown, s2, t2.k, t2.ok, t2.fitted);
    }
  }

  lemma JudgedUnique(m: Libm, c: Config, fitted: Rect, stages1: seq<Rect>, v1: Verdict, stages2: seq<Rect>, v2: Verdict)
    requires c.g.Valid() && Judged(m, c, fitted, stages1, v1) && Judged(m, c, fitted, stages2, v2)
    ensures v1 == v2
  {
    ClimbUnique(m, c.g, c.logNT, c.logEps, stages1, stages2);
    hide Climb, RectValue;
  }

  lemma IsJudged(m: Libm, c: Config, fitted: Rect, stages: seq<Rect>, rec: Rect, logNfa: real)
    requires c.Valid() && Climb(m, c.g, c.logNT, c.logEps, stages) && stages[0] == fitted
    requires stages[|stages| - 1] == rec && Usable(rec) && logNfa == RectValue(m, rec, c.g, c.logNT)
    requires |stages| < 6 ==> logNfa > c.logEps
    ensures Judged(m, c, fitted, stages, if logNfa <= c.logEps then Rejected else Detected(rec, logNfa))
  {
    hide RectValue;
  }

  lemma IsRefined(m: Libm, c: Config, before: set<Point>, s0: seq<Point>, t: Trace, s: seq<Point>, free: set<Point>)
    requires c.Valid() && InImage(c.g, s0) && s0 != [] && free == before
    requires Dense(m, t.rec0, |s0|, c.densityTh) ==> t.ok && t.fitted == t.rec0 && s == s0
    requires !Dense(m, t.rec0, |s0|, c.densityTh) ==>
               Regrown(m, c.At(RegionAngle(m, c.g, s0)), c.g, s0, t.rec0.width, free,
                       t.grown, s, t.k, t.ok, t.fitted)
    ensures Refined(m, c, before, s0, t, s)
  {
    hide Regrown, Dense;
  }

  /** The work for one seed, lines 2115-2139. */
  method ProcessSeed(m: Libm, c: Config, x: int, y: int, reg: array<Point>, used: array<Mark>, table: Inverses)
    returns (r: Result<Verdict>, regSize: nat, ghost t: Trace)
    requires m.Lawful() && c.Valid() && table.Valid()
    requires c.g.Has(Point(x, y)) && c.g.At(Point(x, y)) != NOTDEF
    requires reg.Length == used.Length == c.g.xsize * c.g.ysize
    requires Point(x, y) !in Marked(used[..], c.g.xsize, c.g.ysize)
    modifies reg, used, table.inv
    ensures table.Valid() && regSize <= reg.Length
    ensures Sound(c.g, reg[..regSize]) && reg[..regSize][0] == Point(x, y)
    ensures Elems(reg[..regSize]) !! Marked(old(used[..]), c.g.xsize, c.g.ysize)
    ensures Marked(used[..], c.g.xsize, c.g.ysize)
            == Marked(old(used[..]), c.g.xsize, c.g.ysize) + Elems(reg[..regSize])
    ensures r.Failure? <==> Lonely(m, c, Point(x, y), Marked(old(used[..]), c.g.xsize, c.g.ysize))
    ensures r.Failure? ==> r.error == RegionTooSmall
    ensures r.Success? ==>
              Treated(m, c, Point(x, y), Marked(old(used[..]), c.g.xsize, c.g.ysize), t, reg[..regSize], r.value)
    ensures r.Success? && r.value.Detected? ==> Meaningful(m, c, reg[..regSize], r.value.rec, r.value.logNfa)
  {
    hide Libm.Lawful, Marked, Grown, Fits, Dense, Regrown, RectValue, Usable, Climb, Sound, Reachable,
         Degenerate, InImage, Refined, Judged, RegionAngle, Grow, Finished;
    ghost var before := Marked(used[..], c.g.xsize, c.g.ysize);
    t := NO_TRACE;

    // the region of the seed
    var regAngle;
    regSize, regAngle := RegionGrow(m, x, y, c.g, reg, used, c.prec);
    ghost var s0 := reg[..regSize];
    SeedRegion(m, c.g, c.prec, Point(x, y), before, s0);
    SoundInImage(c, s0);
    if regSize < c.minRegSize {
      return Success(Rejected), regSize, t;
    }

    // its rectangle
    var f := c.At(regAngle);
    var rect := RegionToRect(m, reg, regSize, f.modgrad, f.regAngle, f.prec, f.p);
    if rect.Failure? {
      OnlyTooSmall(c, s0);
      return Failure(RegionTooSmall), regSize, t;
    }
    var rec := rect.value;
    FitsIsSome(m, c, s0, regAngle, rec);
    FittedIsUsable(m, c, s0, rec);

    // a rectangle that is too sparse is repaired
    var ok;
    ghost var grown, k;
    ok, regSize, rec, grown, k := Refine(m, reg, regSize, f, rec, used, c.g);
    RefinedRegion(m, c, regAngle, s0, rect.value, before, Marked(used[..], c.g.xsize, c.g.ysize),
                  grown, reg[..regSize], k, ok, rec);
    t := Trace(rect.value, grown, k, ok, rec, []);
    IsRefined(m, c, before, s0, t, reg[..regSize], before + Elems(s0) - Elems(s0));
    if !ok {
      return Success(Rejected), regSize, t;
    }
    FittedIsUsable(m, c, reg[..regSize], rec);

    // the best of its variants is judged
    ghost var fitted, stages := rec, [];
    var logNfa;
    rec, logNfa, stages := RectImprove(m, rec, c.g, c.logNT, c.logEps, table);
    IsJudged(m, c, fitted, stages, rec, logNfa);
    t := StagesKeep(m, c, before, s0, t, reg[..regSize], stages);
    return Success(if logNfa <= c.logEps then Rejected else Detected(rec, logNfa)), regSize, t;
  }

  lemma StagesKeep(m: Libm, c: Config, before: set<Point>, s0: seq<Point>, t: Trace, s: seq<Point>, stages: seq<Rect>)
    returns (t': Trace)
    requires c.Valid() && InImage(c.g, s0) && s0 != [] && Refined(m, c, before, s0, t, s)
    ensures t' == t.(stages := stages) && Refined(m, c, before, s0, t', s)
  {
    hide Regrown, Dense;
    t' := t.(stages := stages);
  }

  /** The region grown from a free seed. */
  lemma SeedRegion(m: Libm, g: ImageDouble, prec: real, seed: Point, before: set<Point>, s: seq<Point>)
    requires Grown(m, g, prec, seed, before, s) && g.At(seed) != NOTDEF
    ensures Sound(g, s) && s[0] == seed && Elems(s) !! before
  {
    hide Joined, Sound;
    GrownIsSound(m, g, prec, seed, before, s);
  }

  lemma OnlyTooSmall(c: Config, s: seq<Point>)
    requires c.Valid() && Sound(c.g, s) && InImage(c.modgrad, s) && Degenerate(c.modgrad, s)
    ensures |s| < 2
  {
    hide Degenerate;
    if |s| >= 2 {
      SoundIsHeavy(c.g, c.modgrad, s);
      ChecksNeverFire(c.modgrad, s);
    }
  }

  lemma SoundInImage(c: Config, s: seq<Point>)
    requires c.Valid() && Sound(c.g, s)
    ensures InImage(c.modgrad, s) && s != []
  {
  }

  lemma FitsIsSome(m: Libm, c: Config, s: seq<Point>, angle: real, rec: Rect)
    requires InImage(c.modgrad, s) && Fits(m, c.modgrad, s, angle, c.prec, c.p, rec)
    ensures FitsSome(m, c.At(0.0), s, rec)
  {
  }

  /** What refine leaves of the region of a seed, and of the marks. */
  lemma RefinedRegion(m: Libm, c: Config, angle: real, s0: seq<Point>, rec0: Rect, before: set<Point>,
                      after: set<Point>,
                      grown: seq<Point>, s: seq<Point>, k: nat, ok: bool, rec: Rect)
    requires c.Valid() && Sound(c.g, s0) && Elems(s0) !! before && |s0| >= 2
    requires FitsSome(m, c.At(0.0), s0, rec0)
    requires Dense(m, rec0, |s0|, c.densityTh) ==> ok && rec == rec0 && s == s0
    requires !Dense(m, rec0, |s0|, c.densityTh) ==>
               Regrown(m, c.At(angle), c.g, s0, rec0.width, before + Elems(s0) - Elems(s0), grown, s, k, ok, rec)
    requires after == before + Elems(s0) - Elems(s0) + Elems(s)
    ensures Sound(c.g, s) && s[0] == s0[0] && Elems(s) !! before && after == before + Elems(s)
    ensures ok ==> |s| >= 2 && FitsSome(m, c.At(0.0), s, rec) && Dense(m, rec, |s|, c.densityTh)
  {
    hide Dense, Regrown, Fits;
    assert before + Elems(s0) - Elems(s0) == before;
    assert s0[0] in s0;
    if !Dense(m, rec0, |s0|, c.densityTh) {
      RegrownOutcome(m, c.At(angle), c.g, s0, rec0.width, before, grown, s, k, ok, rec);
    }
  }

  /** Pixels with a defined angle. */
  ghost function Defined(g: ImageDouble): set<Point>
    requires g.Valid()
  {
    set p | p in Grid(g.xsize, g.ysize) && g.At(p) != NOTDEF
  }

  function PixelOf(cell: Coor): Point { Point(cell.x, cell.y) }

  /** A null-terminated list of image pixels, without repetition, that holds every defined pixel. */
  ghost predicate PixelList(g: ImageDouble, list: seq<Coor>, start: int, o: seq<nat>) {
    && g.Valid() && Chained(list, o) && Heads(start, o)
    && (forall i | 0 <= i < |o| :: g.Has(PixelOf(list[o[i]])))
    && (forall p | p in Defined(g) :: exists i | 0 <= i < |o| :: PixelOf(list[o[i]]) == p)
  }

  /** Where the walk over the list stands. */
  ghost predicate AtCell(o: seq<nat>, i: nat, cell: int) {
    i <= |o| && cell == if i < |o| then o[i] else NULL
  }

  lemma NextCell(g: ImageDouble, list: seq<Coor>, start: int, o: seq<nat>, i: nat, cell: int)
    requires PixelList(g, list, start, o) && AtCell(o, i, cell) && cell != NULL
    ensures 0 <= cell < |list| && i < |o| && cell == o[i] && g.Has(PixelOf(list[cell]))
    ensures AtCell(o, i + 1, list[cell].next)
  {
  }

  /** The regions accepted so far: sound, of two pixels at least, marked, pairwise disjoint. */
  ghost predicate Apart(g: ImageDouble, u: set<Point>, acc: seq<seq<Point>>) {
    && (forall k | 0 <= k < |acc| :: Sound(g, acc[k]) && |acc[k]| >= 2 && Elems(acc[k]) <= u)
    && (forall j, k | 0 <= j < k < |acc| :: Elems(acc[j]) !! Elems(acc[k]))
  }

  lemma ApartStep(g: ImageDouble, u: set<Point>, acc: seq<seq<Point>>, s: seq<Point>)
    requires Apart(g, u, acc) && Elems(s) !! u
    ensures Apart(g, u + Elems(s), acc)
    ensures Sound(g, s) && |s| >= 2 ==> Apart(g, u + Elems(s), acc + [s])
  {
    hide Sound, Elems;
  }

  /** Label k+1 marks exactly the region accepted as number k, label 0 everything else. */
  ghost predicate Labels(data: seq<int>, xsize: nat, ysize: nat, acc: seq<seq<Point>>)
    requires |data| == xsize * ysize
  {
    forall p | InGrid(p, xsize, ysize) ::
      var l := Pix(data, xsize, ysize, p);
      0 <= l <= |acc| && forall k | 0 <= k < |acc| :: p in acc[k] <==> l == k + 1
  }

  /** Lines 2165-2167. The precondition says that no label is overwritten. */
  method LabelRegion(region: array<int>, reg: array<Point>, regSize: nat, g: ImageDouble, count: int,
                     ghost acc: seq<seq<Point>>)
    requires g.Valid() && region.Length == g.xsize * g.ysize && regSize <= reg.Length && Sound(g, reg[..regSize])
    requires Labels(region[..], g.xsize, g.ysize, acc) && count == |acc| + 1
    requires forall p | p in reg[..regSize] :: Pix(region[..], g.xsize, g.ysize, p) == 0
    modifies region
    ensures Labels(region[..], g.xsize, g.ysize, acc + [reg[..regSize]])
  {
    hide Pix;
    ghost var s, labels := reg[..regSize], region[..];
    var i := 0;
    while i < regSize
      invariant 0 <= i <= regSize
      invariant forall p | g.Has(p) ::
                  Pix(region[..], g.xsize, g.ysize, p)
                  == if p in s[..i] then count else Pix(labels, g.xsize, g.ysize, p)
    {
      assert reg[i] == s[i] && s[i] in s && s[..i + 1] == s[..i] + [s[i]];
      ghost var u := region[..];
      AdrBounds(reg[i], g.xsize, g.ysize);
      region[Adr(reg[i], g.xsize)] := count;
      assert region[..] == u[Adr(s[i], g.xsize) := count];
      forall p | g.Has(p)
        ensures Pix(region[..], g.xsize, g.ysize, p)
                == if p in s[..i + 1] then count else Pix(labels, g.xsize, g.ysize, p)
      {
        PixUpdate(u, g.xsize, g.ysize, s[i], count, p);
      }
      i := i + 1;
    }
    assert s[..i] == s;
    NewLabel(labels, region[..], g.xsize, g.ysize, acc, s);
  }

  lemma NewLabel(before: seq<int>, after: seq<int>, xsize: nat, ysize: nat, acc: seq<seq<Point>>, s: seq<Point>)
    requires |before| == |after| == xsize * ysize && Labels(before, xsize, ysize, acc)
    requires forall p | p in s :: InGrid(p, xsize, ysize) && Pix(before, xsize, ysize, p) == 0
    requires forall p | InGrid(p, xsize, ysize) ::
               Pix(after, xsize, ysize, p) == if p in s then |acc| + 1 else Pix(before, xsize, ysize, p)
    ensures Labels(after, xsize, ysize, acc + [s])
  {
    hide Pix;
  }

  lemma LabelOwner(data: seq<int>, xsize: nat, ysize: nat, acc: seq<seq<Point>>, p: Point)
    requires |data| == xsize * ysize && Labels(data, xsize, ysize, acc) && InGrid(p, xsize, ysize)
    ensures var l := Pix(data, xsize, ysize, p); l == 0 || (1 <= l <= |acc| && p in acc[l - 1])
  {
    hide Pix;
    var l := Pix(data, xsize, ysize, p);
    assert l != 0 ==> (p in acc[l - 1] <==> l == (l - 1) + 1);
  }

  /** Unmarked pixels carry no label. */
  lemma FreeIsUnlabelled(g: ImageDouble, data: seq<int>, u: set<Point>, acc: seq<seq<Point>>, s: seq<Point>)
    requires g.Valid() && |data| == g.xsize * g.ysize && Apart(g, u, acc) && Sound(g, s) && Elems(s) !! u
    requires Labels(data, g.xsize, g.ysize, acc)
    ensures forall p | p in s :: Pix(data, g.xsize, g.ysize, p) == 0
  {
    hide Pix;
    forall p | p in s
      ensures Pix(data, g.xsize, g.ysize, p) == 0
    {
      assert p in Elems(s) && p !in u;
      assert forall k | 0 <= k < |acc| :: p in acc[k] <==> p in Elems(acc[k]);
      LabelOwner(data, g.xsize, g.ysize, acc, p);
    }
  }

  datatype Segment = Segment(rec: Rect, logNfa: real)

  /** The reported tuple, lines 2149-2162: half a pixel of offset, and the scaling undone. */
  function Tuple(c: Config, s: Segment): (t: seq<real>)
    requires c.scale != 0.0
    ensures |t| == DIM
  {
    var r := s.rec.(x1 := s.rec.x1 + 0.5, y1 := s.rec.y1 + 0.5, x2 := s.rec.x2 + 0.5, y2 := s.rec.y2 + 0.5);
    if c.scale != 1.0 then
      [r.x1 / c.scale, r.y1 / c.scale, r.x2 / c.scale, r.y2 / c.scale, r.width / c.scale, r.p, s.logNfa]
    else
      [r.x1, r.y1, r.x2, r.y2, r.width, r.p, s.logNfa]
  }

  ghost function Tuples(c: Config, segs: seq<Segment>): seq<real>
    requires c.scale != 0.0
  {
    if segs == [] then [] else Tuples(c, segs[..|segs| - 1]) + Tuple(c, segs[|segs| - 1])
  }

  lemma {:induction false} TuplesLength(c: Config, segs: seq<Segment>)
    requires c.scale != 0.0
    ensures |Tuples(c, segs)| == DIM * |segs|
  {
    hide Tuple;
    if segs != [] {
      TuplesLength(c, segs[..|segs| - 1]);
    }
  }

  /** Tuple k belongs to segment k. */
  lemma {:induction false} TupleAt(c: Config, segs: seq<Segment>, k: nat)
    requires c.scale != 0.0 && k < |segs|
    ensures |Tuples(c, segs)| == DIM * |segs|
    ensures Tuples(c, segs)[DIM * k..DIM * k + DIM] == Tuple(c, segs[k])
  {
    hide Tuple;
    TuplesLength(c, segs);
    var n := |segs| - 1;
    TuplesLength(c, segs[..n]);
    if k < n {
      TupleAt(c, segs[..n], k);
      assert Tuples(c, segs)[DIM * k..DIM * k + DIM] == Tuples(c, segs[..n])[DIM * k..DIM * k + DIM];
    }
  }

  /** The seven numbers of a segment, in the pixels of the input: scaled down again they are the ends of the rectangle
      moved by half a pixel, and its width. */
  predicate Reported(scale: real, t: seq<real>, s: Segment) {
    && |t| == 7
    && t[0] * scale == s.rec.x1 + 0.5 && t[1] * scale == s.rec.y1 + 0.5
    && t[2] * scale == s.rec.x2 + 0.5 && t[3] * scale == s.rec.y2 + 0.5
    && t[4] * scale == s.rec.width && t[5] == s.rec.p && t[6] == s.logNfa
  }

  lemma TupleScaled(c: Config, s: Segment)
    requires c.scale > 0.0
    ensures Reported(c.scale, Tuple(c, s), s)
  {
    if c.scale != 1.0 {
      TimesBack(s.rec.x1 + 0.5, c.scale);
      TimesBack(s.rec.y1 + 0.5, c.scale);
      TimesBack(s.rec.x2 + 0.5, c.scale);
      TimesBack(s.rec.y2 + 0.5, c.scale);
      TimesBack(s.rec.width, c.scale);
    }
  }

  lemma TuplesScaled(c: Config, segs: seq<Segment>, k: nat)
    requires c.scale > 0.0 && k < |segs|
    ensures |Tuples(c, segs)| == 7 * |segs|
    ensures Reported(c.scale, Tuples(c, segs)[7 * k..7 * k + 7], segs[k])
  {
    hide Tuples, Tuple, Reported;
    TupleAt(c, segs, k);
    TupleScaled(c, segs[k]);
  }

  /** What holds between two seeds: marks only on defined pixels; segment k was found in region k. */
  ghost predicate Between(m: Libm, c: Config, u: set<Point>, acc: seq<seq<Point>>, segs: seq<Segment>) {
    && c.Valid() && u <= Defined(c.g) && Apart(c.g, u, acc) && |acc| == |segs|
    && forall k | 0 <= k < |acc| :: Meaningful(m, c, acc[k], segs[k].rec, segs[k].logNfa)
  }

  /** What it says of one segment. */
  lemma FoundMeaningful(m: Libm, c: Config, u: set<Point>, acc: seq<seq<Point>>, segs: seq<Segment>, k: nat)
    returns (fitted: Rect, angle: real)
    requires Between(m, c, u, acc, segs) && k < |segs|
    ensures |acc| == |segs| && |acc[k]| >= 2 && Sound(c.g, acc[k]) && InImage(c.modgrad, acc[k])
    ensures Fits(m, c.modgrad, acc[k], angle, c.prec, c.p, fitted) && Dense(m, fitted, |acc[k]|, c.densityTh)
    ensures Reachable(fitted, segs[k].rec) && Usable(segs[k].rec)
    ensures segs[k].logNfa == RectValue(m, segs[k].rec, c.g, c.logNT) > c.logEps
  {
    hide Reachable, RectValue, Usable, Dense, Fits, Sound;
    assert Meaningful(m, c, acc[k], segs[k].rec, segs[k].logNfa);
    fitted :| FitsSome(m, c.At(0.0), acc[k], fitted) && Dense(m, fitted, |acc[k]|, c.densityTh)
              && Reachable(fitted, segs[k].rec);
    angle :| Fits(m, c.modgrad, acc[k], angle, c.prec, c.p, fitted);
  }

  lemma BetweenStep(m: Libm, c: Config, u: set<Point>, acc: seq<seq<Point>>, segs: seq<Segment>,
                    s: seq<Point>, seg: Segment)
    requires Between(m, c, u, acc, segs) && Sound(c.g, s) && Elems(s) !! u
    ensures Between(m, c, u + Elems(s), acc, segs)
    ensures Meaningful(m, c, s, seg.rec, seg.logNfa) ==> Between(m, c, u + Elems(s), acc + [s], segs + [seg])
  {
    ApartStep(c.g, u, acc, s);
    assert Elems(s) <= Defined(c.g);
    assert Meaningful(m, c, s, seg.rec, seg.logNfa) ==> |s| >= 2;
    hide Sound, Elems, Meaningful, Defined, Apart;
  }

  /** The reported tuples and, if wanted, the labels agree with the accepted regions. */
  ghost predicate Recorded(c: Config, acc: seq<seq<Point>>, segs: seq<Segment>, out: NtupleList, region: array?<int>)
    reads out, out.values, region
    requires c.scale != 0.0 && c.g.Valid()
  {
    && out.Valid() && out.size == |segs| && out.Contents() == Tuples(c, segs)
    && (region != null ==> region.Length == c.g.xsize * c.g.ysize && Labels(region[..], c.g.xsize, c.g.ysize, acc))
  }

  /** Lines 2141-2167: a segment is recorded. */
  method Record(c: Config, seg: Segment, reg: array<Point>, regSize: nat, out: NtupleList, region: array?<int>,
                ghost u: set<Point>, ghost acc: seq<seq<Point>>, ghost segs: seq<Segment>)
    requires c.Valid() && regSize <= reg.Length && Sound(c.g, reg[..regSize]) && Elems(reg[..regSize]) !! u
    requires Apart(c.g, u, acc) && |acc| == |segs| && Recorded(c, acc, segs, out, region)
    modifies out, out.values, region
    ensures Recorded(c, acc + [reg[..regSize]], segs + [seg], out, region)
    ensures out.values == old(out.values) || fresh(out.values)
  {
    hide Sound, Apart, Elems, Labels, Tuple;
    out.Add7Tuple(Tuple(c, seg));
    assert (segs + [seg])[..|segs|] == segs;

    if region != null {
      FreeIsUnlabelled(c.g, region[..], u, acc, reg[..regSize]);
      LabelRegion(region, reg, regSize, c.g, out.size, acc);
    }
  }

  /** One seed of the run: the region it leaves marked and the verdict. */
  datatype Visit = Visit(seed: Point, s: seq<Point>, verdict: Verdict)

  ghost function MarkedBy(log: seq<Visit>): set<Point> {
    if log == [] then {} else MarkedBy(log[..|log| - 1]) + Elems(log[|log| - 1].s)
  }

  /** The regions that were accepted, in order. */
  ghost function Accepted(log: seq<Visit>): seq<seq<Point>> {
    if log == [] then [] else
      var last := log[|log| - 1];
      Accepted(log[..|log| - 1]) + if last.verdict.Detected? then [last.s] else []
  }

  /** The segments that were found, in order. */
  ghost function Found(log: seq<Visit>): seq<Segment> {
    if log == [] then [] else
      var v := log[|log| - 1].verdict;
      Found(log[..|log| - 1]) + if v.Detected? then [Segment(v.rec, v.logNfa)] else []
  }

  lemma LogGrows(log: seq<Visit>, v: Visit)
    ensures MarkedBy(log + [v]) == MarkedBy(log) + Elems(v.s)
    ensures Accepted(log + [v]) == Accepted(log) + if v.verdict.Detected? then [v.s] else []
    ensures Found(log + [v])
            == Found(log) + if v.verdict.Detected? then [Segment(v.verdict.rec, v.verdict.logNfa)] else []
  {
    hide Elems;
    assert (log + [v])[..|log|] == log;
  }

  /** The visits before number i that found a segment. */
  ghost function Detections(log: seq<Visit>, i: nat): set<nat> {
    set j: nat | j < i && j < |log| && log[j].verdict.Detected?
  }

  lemma {:induction false} FoundCount(log: seq<Visit>)
    ensures |Found(log)| == |Accepted(log)| == |Detections(log, |log|)|
  {
    if log != [] {
      var n := |log| - 1;
      FoundCount(log[..n]);
      DetectionsBefore(log, n);
      assert Detections(log, |log|) == Detections(log, n) + if log[n].verdict.Detected? then {n} else {};
    }
  }

  lemma DetectionsBefore(log: seq<Visit>, i: nat)
    requires log != [] && i < |log|
    ensures Detections(log, i) == Detections(log[..|log| - 1], i)
  {
  }

  /** Every segment that was found is reported, with its region, in the order of the seeds, and nothing else is. */
  lemma {:induction false} FoundInOrder(log: seq<Visit>, i: nat)
    requires i < |log| && log[i].verdict.Detected?
    ensures |Found(log)| == |Accepted(log)| == |Detections(log, |log|)|
    ensures var k := |Detections(log, i)|;
            && k < |Found(log)| && Accepted(log)[k] == log[i].s
            && Found(log)[k] == Segment(log[i].verdict.rec, log[i].verdict.logNfa)
  {
    FoundCount(log);
    var n := |log| - 1;
    DetectionsBefore(log, i);
    FoundCount(log[..n]);
    hide Detections;
    if i < n {
      FoundInOrder(log[..n], i);
    }
  }

  ghost predicate IsVisit(m: Libm, c: Config, before: set<Point>, v: Visit)
    requires c.Valid() && c.g.Has(v.seed)
  {
    exists t :: Treated(m, c, v.seed, before, t, v.s, v.verdict)
  }

  /** One cell of the list: a pixel that is defined and still free is a seed, any other is passed over. */
  ghost predicate Visited(m: Libm, c: Config, px: Point, log0: seq<Visit>, log: seq<Visit>)
    requires c.Valid() && c.g.Has(px)
  {
    if px in MarkedBy(log0) || c.g.At(px) == NOTDEF then
      log == log0
    else
      && log != [] && log[..|log| - 1] == log0 && log[|log| - 1].seed == px
      && IsVisit(m, c, MarkedBy(log0), log[|log| - 1])
  }

  /** The log of a run over the pixels `px` of the list. */
  ghost predicate Logged(m: Libm, c: Config, px: seq<Point>, log: seq<Visit>)
    requires c.Valid() && forall i | 0 <= i < |px| :: c.g.Has(px[i])
  {
    if px == [] then log == []
    else
      var n := |px| - 1;
      || (Logged(m, c, px[..n], log) && Visited(m, c, px[n], log, log))
      || (log != [] && Logged(m, c, px[..n], log[..|log| - 1]) && Visited(m, c, px[n], log[..|log| - 1], log))
  }

  /** A free and defined pixel of the list whose region is a single pixel stops the program. */
  ghost predicate Stuck(m: Libm, c: Config, px: Point, log: seq<Visit>)
    requires c.Valid() && c.g.Has(px)
  {
    px !in MarkedBy(log) && c.g.At(px) != NOTDEF && Lonely(m, c, px, MarkedBy(log))
  }

  /** A run over the pixels `px` of the list stops at pixel number i, with the log so far. */
  ghost predicate StopsAt(m: Libm, c: Config, px: seq<Point>, i: nat, log: seq<Visit>)
    requires c.Valid() && forall j | 0 <= j < |px| :: c.g.Has(px[j])
  {
    i < |px| && Logged(m, c, px[..i], log) && Stuck(m, c, px[i], log)
  }

  ghost predicate Stopped(m: Libm, c: Config, px: seq<Point>, log: seq<Visit>)
    requires c.Valid() && forall j | 0 <= j < |px| :: c.g.Has(px[j])
  {
    exists i: nat :: StopsAt(m, c, px, i, log)
  }

  /** A list has one log only. */
  lemma {:induction false} LoggedUnique(m: Libm, c: Config, px: seq<Point>, a: seq<Visit>, b: seq<Visit>)
    requires c.Valid() && forall i | 0 <= i < |px| :: c.g.Has(px[i])
    requires Logged(m, c, px, a) && Logged(m, c, px, b)
    ensures a == b
  {
    if px != [] {
      var n := |px| - 1;
      var a0 := Before(m, c, px, a);
      var b0 := Before(m, c, px, b);
      LoggedUnique(m, c, px[..n], a0, b0);
      VisitedUnique(m, c, px[n], a0, a, b);
    }
  }

  /** The log before the last pixel. */
  lemma Before(m: Libm, c: Config, px: seq<Point>, log: seq<Visit>) returns (log0: seq<Visit>)
    requires c.Valid() && (forall i | 0 <= i < |px| :: c.g.Has(px[i])) && px != [] && Logged(m, c, px, log)
    ensures Logged(m, c, px[..|px| - 1], log0) && Visited(m, c, px[|px| - 1], log0, log)
  {
    hide Visited;
    var n := |px| - 1;
    log0 := if Logged(m, c, px[..n], log) && Visited(m, c, px[n], log, log) then log else log[..|log| - 1];
  }

  lemma VisitedUnique(m: Libm, c: Config, px: Point, log0: seq<Visit>, a: seq<Visit>, b: seq<Visit>)
    requires c.Valid() && c.g.Has(px) && Visited(m, c, px, log0, a) && Visited(m, c, px, log0, b)
    ensures a == b
  {
    hide Treated, MarkedBy;
    if px !in MarkedBy(log0) && c.g.At(px) != NOTDEF {
      var n := |a| - 1;
      var t1 :| Treated(m, c, px, MarkedBy(log0), t1, a[n].s, a[n].verdict);
      var t2 :| Treated(m, c, px, MarkedBy(log0), t2, b[n].s, b[n].verdict);
      TreatedUnique(m, c, px, MarkedBy(log0), t1, a[n].s, a[n].verdict, t2, b[n].s, b[n].verdict);
      assert a == a[..n] + [a[n]] && b == b[..n] + [b[n]];
    }
  }

  /** A run that is over has a log for every beginning of the list. */
  lemma {:induction false} Beginning(m: Libm, c: Config, px: seq<Point>, log: seq<Visit>, i: nat)
    returns (log0: seq<Visit>)
    requires c.Valid() && (forall j | 0 <= j < |px| :: c.g.Has(px[j])) && i <= |px| && Logged(m, c, px, log)
    ensures Logged(m, c, px[..i], log0)
    decreases |px|
  {
    hide Logged;
    if i == |px| {
      assert px[..i] == px;
      log0 := log;
    } else {
      var n := |px| - 1;
      log0 := Before(m, c, px, log);
      log0 := Beginning(m, c, px[..n], log0, i);
      assert px[..n][..i] == px[..i];
    }
  }

  /** A run either stops or is over, not both. */
  lemma StopsOrEnds(m: Libm, c: Config, px: seq<Point>, a: seq<Visit>, b: seq<Visit>)
    requires c.Valid() && forall i | 0 <= i < |px| :: c.g.Has(px[i])
    requires Logged(m, c, px, a)
    ensures !Stopped(m, c, px, b)
  {
    hide Logged, Visited;
    if Stopped(m, c, px, b) {
      var i: nat :| StopsAt(m, c, px, i, b);
      var next := Beginning(m, c, px, a, i + 1);
      var log0 := Before(m, c, px[..i + 1], next);
      assert px[..i + 1][..i] == px[..i];
      LoggedUnique(m, c, px[..i], log0, b);
      NotLonely(m, c, px[i], b, next);
    }
  }

  lemma NotLonely(m: Libm, c: Config, px: Point, log0: seq<Visit>, log: seq<Visit>)
    requires c.Valid() && c.g.Has(px) && Visited(m, c, px, log0, log)
    ensures !Stuck(m, c, px, log0)
  {
    hide MarkedBy, Refined, Judged, Fits, FirstRegion;
  }

  /** ... and with one log only. */
  lemma StoppedUnique(m: Libm, c: Config, px: seq<Point>, a: seq<Visit>, b: seq<Visit>)
    requires c.Valid() && forall i | 0 <= i < |px| :: c.g.Has(px[i])
    requires Stopped(m, c, px, a) && Stopped(m, c, px, b)
    ensures a == b
  {
    hide Logged, Stuck;
    var i: nat :| StopsAt(m, c, px, i, a);
    var j: nat :| StopsAt(m, c, px, j, b);
    if i < j {
      StopsEarlier(m, c, px, i, a, j, b);
    } else if j < i {
      StopsEarlier(m, c, px, j, b, i, a);
    } else {
      LoggedUnique(m, c, px[..i], a, b);
    }
  }

  lemma StopsEarlier(m: Libm, c: Config, px: seq<Point>, i: nat, a: seq<Visit>, j: nat, b: seq<Visit>)
    requires c.Valid() && forall k | 0 <= k < |px| :: c.g.Has(px[k])
    requires StopsAt(m, c, px, i, a) && j <= |px| && Logged(m, c, px[..j], b)
    ensures j <= i
  {
    hide Logged, Stuck;
    if i < j {
      assert px[..j][..i] == px[..i];
      assert StopsAt(m, c, px[..j], i, a);
      StopsOrEnds(m, c, px[..j], b, a);
    }
  }

  lemma LogStep(m: Libm, c: Config, px: seq<Point>, p: Point, log0: seq<Visit>, log: seq<Visit>)
    requires c.Valid() && c.g.Has(p) && (forall i | 0 <= i < |px| :: c.g.Has(px[i]))
    requires Logged(m, c, px, log0) && Visited(m, c, p, log0, log)
    ensures Logged(m, c, px + [p], log)
  {
    hide IsVisit, MarkedBy;
    assert (px + [p])[..|px|] == px;
  }

  /** Where the run stands: marks, tuples and labels are those of the log. */
  ghost predicate Standing(m: Libm, c: Config, log: seq<Visit>, used: seq<Mark>, out: NtupleList, region: array?<int>)
    reads out, out.values, region
    requires c.Valid() && |used| == c.g.xsize * c.g.ysize
  {
    && Marked(used, c.g.xsize, c.g.ysize) == MarkedBy(log)
    && Between(m, c, MarkedBy(log), Accepted(log), Found(log))
    && Recorded(c, Accepted(log), Found(log), out, region)
  }

  /** One cell of the list, lines 2110-2168: a defined pixel that is still free is a seed. */
  method VisitPixel(m: Libm, c: Config, px: Point, reg: array<Point>, used: array<Mark>,
                    region: array?<int>, out: NtupleList, table: Inverses, ghost log0: seq<Visit>)
    returns (r: Result<bool>, ghost log: seq<Visit>)
    requires m.Lawful() && c.Valid() && table.Valid() && c.g.Has(px) && table.inv != out.values
    requires reg.Length == used.Length == c.g.xsize * c.g.ysize
    requires Standing(m, c, log0, used[..], out, region)
    modifies reg, used, region, out, out.values, table.inv
    ensures table.Valid() && (out.values == old(out.values) || fresh(out.values))
    ensures r.Failure? <==> Stuck(m, c, px, log0)
    ensures r.Failure? ==> r.error == RegionTooSmall && log == log0
    ensures r.Success? ==>
              && Standing(m, c, log, used[..], out, region) && Visited(m, c, px, log0, log)
              && MarkedBy(log0) <= MarkedBy(log) && (px in MarkedBy(log) || c.g.At(px) == NOTDEF)
              && |Found(log)| == |Found(log0)| + (if r.value then 1 else 0)
  {
    hide Libm.Lawful, Marked, Sound, Elems, Defined, Between, Recorded, Meaningful, InImage, MarkedBy, Accepted, Found,
         Treated, IsVisit, Standing, Visited, Lonely;
    ghost var u := Marked(used[..], c.g.xsize, c.g.ysize);
    log := log0;
    StandsBetween(m, c, log0, used[..], out, region);
    StandsRecorded(m, c, log0, used[..], out, region);
    AdrBounds(px, c.g.xsize, c.g.ysize);
    assert used[Adr(px, c.g.xsize)] == Pix(used[..], c.g.xsize, c.g.ysize, px);
    MarkedIs(used[..], c.g, px);
    if used[Adr(px, c.g.xsize)] == NOTUSED && c.g.At(px) != NOTDEF {
      var verdict, regSize;
      ghost var t;
      verdict, regSize, t := ProcessSeed(m, c, px.x, px.y, reg, used, table);
      if verdict.Failure? {
        return Failure(verdict.error), log;
      }
      ghost var v := Visit(px, reg[..regSize], verdict.value);
      log := log0 + [v];
      VisitKeeps(m, c, log0, v, t);
      if verdict.value.Rejected? {
        Stands(m, c, log, used[..], out, region);
        return Success(false), log;
      }
      var seg := Segment(verdict.value.rec, verdict.value.logNfa);
      BetweenApart(m, c, u, Accepted(log0), Found(log0));
      Record(c, seg, reg, regSize, out, region, u, Accepted(log0), Found(log0));
      Stands(m, c, log, used[..], out, region);
      return Success(true), log;
    }
    PassedOver(m, c, px, log);
    r := Success(false);
  }

  lemma PassedOver(m: Libm, c: Config, px: Point, log: seq<Visit>)
    requires c.Valid() && c.g.Has(px) && (px in MarkedBy(log) || c.g.At(px) == NOTDEF)
    ensures Visited(m, c, px, log, log)
  {
  }

  lemma Stands(m: Libm, c: Config, log: seq<Visit>, used: seq<Mark>, out: NtupleList, region: array?<int>)
    requires c.Valid() && |used| == c.g.xsize * c.g.ysize && Marked(used, c.g.xsize, c.g.ysize) == MarkedBy(log)
    requires Between(m, c, MarkedBy(log), Accepted(log), Found(log))
    requires Recorded(c, Accepted(log), Found(log), out, region)
    ensures Standing(m, c, log, used, out, region)
  {
    hide Between, Recorded, Marked;
  }

  lemma StandsBetween(m: Libm, c: Config, log: seq<Visit>, used: seq<Mark>, out: NtupleList, region: array?<int>)
    requires c.Valid() && |used| == c.g.xsize * c.g.ysize && Standing(m, c, log, used, out, region)
    ensures Between(m, c, MarkedBy(log), Accepted(log), Found(log))
    ensures Marked(used, c.g.xsize, c.g.ysize) == MarkedBy(log)
  {
    hide Between, Recorded, Marked;
  }

  lemma StandsRecorded(m: Libm, c: Config, log: seq<Visit>, used: seq<Mark>, out: NtupleList, region: array?<int>)
    requires c.Valid() && |used| == c.g.xsize * c.g.ysize && Standing(m, c, log, used, out, region)
    ensures Recorded(c, Accepted(log), Found(log), out, region)
  {
    hide Between, Recorded, Marked;
  }

  /** The log after one more seed. */
  lemma VisitKeeps(m: Libm, c: Config, log0: seq<Visit>, v: Visit, t: Trace)
    requires c.Valid() && Between(m, c, MarkedBy(log0), Accepted(log0), Found(log0))
    requires Sound(c.g, v.s) && v.s[0] == v.seed && Elems(v.s) !! MarkedBy(log0)
    requires c.g.Has(v.seed) && v.seed !in MarkedBy(log0) && c.g.At(v.seed) != NOTDEF
    requires Treated(m, c, v.seed, MarkedBy(log0), t, v.s, v.verdict)
    requires v.verdict.Detected? ==> Meaningful(m, c, v.s, v.verdict.rec, v.verdict.logNfa)
    ensures var log := log0 + [v];
            && Visited(m, c, v.seed, log0, log) && v.seed in MarkedBy(log)
            && MarkedBy(log) == MarkedBy(log0) + Elems(v.s)
            && Accepted(log) == (if v.verdict.Detected? then Accepted(log0) + [v.s] else Accepted(log0))
            && Found(log) == (if v.verdict.Detected? then Found(log0) + [Segment(v.verdict.rec, v.verdict.logNfa)]
                              else Found(log0))
            && Between(m, c, MarkedBy(log), Accepted(log), Found(log))
  {
    hide Treated, IsVisit, Between, Meaningful, MarkedBy, Accepted, Found;
    TracedVisit(m, c, MarkedBy(log0), v, t);
    LogGrows(log0, v);
    assert (log0 + [v])[..|log0|] == log0;
    FirstInside(v.s);
    if v.verdict.Detected? {
      BetweenStep(m, c, MarkedBy(log0), Accepted(log0), Found(log0), v.s, Segment(v.verdict.rec, v.verdict.logNfa));
    } else {
      BetweenStep(m, c, MarkedBy(log0), Accepted(log0), Found(log0), v.s, Segment(NO_RECT, 0.0));
    }
  }

  lemma TracedVisit(m: Libm, c: Config, before: set<Point>, v: Visit, t: Trace)
    requires c.Valid() && c.g.Has(v.seed) && Treated(m, c, v.seed, before, t, v.s, v.verdict)
    ensures IsVisit(m, c, before, v)
  {
    hide Treated;
  }

  lemma FirstInside(s: seq<Point>)
    requires s != []
    ensures s[0] in Elems(s)
  {
  }

  lemma BetweenApart(m: Libm, c: Config, u: set<Point>, acc: seq<seq<Point>>, segs: seq<Segment>)
    requires Between(m, c, u, acc, segs)
    ensures Apart(c.g, u, acc) && |acc| == |segs|
  {
  }

  /** The pixels of the list in their order. */
  ghost function ListPixels(list: seq<Coor>, o: seq<nat>): (px: seq<Point>)
    requires forall i | 0 <= i < |o| :: o[i] < |list|
    ensures |px| == |o| && forall i | 0 <= i < |o| :: px[i] == PixelOf(list[o[i]])
  {
    seq(|o|, i requires 0 <= i < |o| => PixelOf(list[o[i]]))
  }

  /** The search for segments: the list is walked from its head to its end. */
  method SearchSegments(m: Libm, c: Config, list: array<Coor>, start: int, reg: array<Point>, used: array<Mark>,
                        region: array?<int>, out: NtupleList, table: Inverses, ghost o: seq<nat>)
    returns (r: Result<int>, ghost log: seq<Visit>)
    requires m.Lawful() && c.Valid() && table.Valid() && PixelList(c.g, list[..], start, o)
    requires reg.Length == used.Length == c.g.xsize * c.g.ysize && table.inv != out.values
    requires Standing(m, c, [], used[..], out, region)
    modifies reg, used, region, out, out.values, table.inv
    ensures r.Failure? ==> r.error == RegionTooSmall && StoppedIn(m, c, list[..], o, log)
    ensures r.Failure? <==> exists l :: StoppedIn(m, c, list[..], o, l)
    ensures r.Success? ==>
              && Searched(m, c, list[..], o, log)
              && Marked(used[..], c.g.xsize, c.g.ysize) == Defined(c.g)
              && Standing(m, c, log, used[..], out, region) && r.value == |Found(log)|
  {
    hide Libm.Lawful, Marked, Defined, PixelList, AtCell, Standing, SeedsMarked, MarkedBy, Found, RunSoFar, Visited,
         Searched, StoppedIn, Stuck;
    log := [];
    var listP, count := start, 0;
    ghost var i := 0;
    StartSearch(m, c, list[..], start, o);
    while listP != NULL
      invariant AtCell(o, i, listP) && table.Valid() && count == |Found(log)|
      invariant SeedsMarked(c.g, list[..], o, i, MarkedBy(log)) && RunSoFar(m, c, list[..], o, i, log)
      invariant Standing(m, c, log, used[..], out, region)
      invariant out.values == old(out.values) || fresh(out.values)
      decreases |o| - i
    {
      ghost var log0 := log;
      NextCell(c.g, list[..], start, o, i, listP);
      var found;
      found, log := VisitPixel(m, c, PixelOf(list[listP]), reg, used, region, out, table, log);
      if found.Failure? {
        StopsHere(m, c, list[..], o, i, log);
        return Failure(found.error), log;
      }
      if found.value {
        count := count + 1;
      }
      SeedStep(c.g, list[..], o, i, MarkedBy(log0), MarkedBy(log), PixelOf(list[listP]));
      RunStep(m, c, list[..], o, i, log0, log);
      listP := list[listP].next;
      i := i + 1;
    }
    LastCell(o, i, listP);
    StandsBetween(m, c, log, used[..], out, region);
    AllSeedsMarked(m, c, list[..], start, o, MarkedBy(log), Accepted(log), Found(log));
    RunEnds(m, c, list[..], start, o, log);
    NeverStopped(m, c, list[..], o, log);
    return Success(count), log;
  }

  ghost predicate RunSoFar(m: Libm, c: Config, list: seq<Coor>, o: seq<nat>, i: nat, log: seq<Visit>) {
    && c.Valid() && i <= |o| && (forall k | 0 <= k < |o| :: o[k] < |list| && c.g.Has(PixelOf(list[o[k]])))
    && Logged(m, c, ListPixels(list, o)[..i], log)
  }

  /** The log is that of a run over the whole list. */
  ghost predicate Searched(m: Libm, c: Config, list: seq<Coor>, o: seq<nat>, log: seq<Visit>) {
    && c.Valid() && (forall k | 0 <= k < |o| :: o[k] < |list| && c.g.Has(PixelOf(list[o[k]])))
    && Logged(m, c, ListPixels(list, o), log)
  }

  /** The run over the list stops, with this log. */
  ghost predicate StoppedIn(m: Libm, c: Config, list: seq<Coor>, o: seq<nat>, log: seq<Visit>) {
    && c.Valid() && (forall k | 0 <= k < |o| :: o[k] < |list| && c.g.Has(PixelOf(list[o[k]])))
    && Stopped(m, c, ListPixels(list, o), log)
  }

  lemma NeverStopped(m: Libm, c: Config, list: seq<Coor>, o: seq<nat>, log: seq<Visit>)
    requires Searched(m, c, list, o, log)
    ensures forall l :: !StoppedIn(m, c, list, o, l)
  {
    hide Logged, Stopped;
    forall l
      ensures !StoppedIn(m, c, list, o, l)
    {
      if StoppedIn(m, c, list, o, l) {
        StopsOrEnds(m, c, ListPixels(list, o), log, l);
      }
    }
  }

  lemma StopsHere(m: Libm, c: Config, list: seq<Coor>, o: seq<nat>, i: nat, log: seq<Visit>)
    requires RunSoFar(m, c, list, o, i, log) && i < |o| && Stuck(m, c, PixelOf(list[o[i]]), log)
    ensures StoppedIn(m, c, list, o, log)
  {
    hide Logged, Stuck;
    assert StopsAt(m, c, ListPixels(list, o), i, log);
  }

  lemma RunStep(m: Libm, c: Config, list: seq<Coor>, o: seq<nat>, i: nat, log0: seq<Visit>, log: seq<Visit>)
    requires RunSoFar(m, c, list, o, i, log0) && i < |o| && Visited(m, c, PixelOf(list[o[i]]), log0, log)
    ensures RunSoFar(m, c, list, o, i + 1, log)
  {
    hide Logged, Visited;
    var px := ListPixels(list, o);
    LogStep(m, c, px[..i], px[i], log0, log);
    assert px[..i] + [px[i]] == px[..i + 1];
  }

  lemma RunEnds(m: Libm, c: Config, list: seq<Coor>, start: int, o: seq<nat>, log: seq<Visit>)
    requires RunSoFar(m, c, list, o, |o|, log)
    ensures Searched(m, c, list, o, log)
  {
    hide Logged;
    assert ListPixels(list, o)[..|o|] == ListPixels(list, o);
  }

  ghost const NO_RECT: Rect := Rect(0.0, 0.0, 0.0, 0.0, 0.0, 0.0, 0.0, 0.0, 0.0, 0.0, 0.0, 0.0)

  lemma MarkedIs(data: seq<Mark>, g: ImageDouble, p: Point)
    requires g.Valid() && |data| == g.xsize * g.ysize && g.Has(p)
    ensures p in Marked(data, g.xsize, g.ysize) <==> Pix(data, g.xsize, g.ysize, p) == USED
  {
  }

  /** Every seed that was visited is marked, if it is defined. */
  ghost predicate SeedsMarked(g: ImageDouble, list: seq<Coor>, o: seq<nat>, i: nat, u: set<Point>) {
    && i <= |o| && g.Valid() && (forall k | 0 <= k < |o| :: o[k] < |list| && g.Has(PixelOf(list[o[k]])))
    && forall k | 0 <= k < i :: g.At(PixelOf(list[o[k]])) != NOTDEF ==> PixelOf(list[o[k]]) in u
  }

  lemma LastCell(o: seq<nat>, i: nat, cell: int)
    requires AtCell(o, i, cell) && cell == NULL
    ensures i == |o|
  {
  }

  lemma StartSearch(m: Libm, c: Config, list: seq<Coor>, start: int, o: seq<nat>)
    requires c.Valid() && PixelList(c.g, list, start, o)
    ensures AtCell(o, 0, start) && SeedsMarked(c.g, list, o, 0, MarkedBy([])) && RunSoFar(m, c, list, o, 0, [])
    ensures Found([]) == []
  {
  }

  lemma SeedStep(g: ImageDouble, list: seq<Coor>, o: seq<nat>, i: nat, u: set<Point>, u': set<Point>, px: Point)
    requires SeedsMarked(g, list, o, i, u) && i < |o| && px == PixelOf(list[o[i]])
    requires u <= u' && (px in u' || g.At(px) == NOTDEF)
    ensures SeedsMarked(g, list, o, i + 1, u')
  {
  }

  /** At the end of the list the marks are exactly the defined pixels. */
  lemma AllSeedsMarked(m: Libm, c: Config, list: seq<Coor>, start: int, o: seq<nat>, u: set<Point>,
                       acc: seq<seq<Point>>, segs: seq<Segment>)
    requires PixelList(c.g, list, start, o) && SeedsMarked(c.g, list, o, |o|, u) && Between(m, c, u, acc, segs)
    ensures u == Defined(c.g)
  {
    hide Meaningful, Apart;
    forall p | p in Defined(c.g)
      ensures p in u
    {
      var i :| 0 <= i < |o| && PixelOf(list[o[i]]) == p;
    }
  }

  /** Disjoint regions of two pixels or more take up twice their number of pixels. */
  lemma {:induction false} RoomForRegions(g: ImageDouble, u: set<Point>, acc: seq<seq<Point>>)
    requires Apart(g, u, acc)
    ensures 2 * |acc| <= |u|
  {
    hide Sound;
    if acc != [] {
      var n := |acc| - 1;
      var last := Elems(acc[n]);
      forall k | 0 <= k < n
        ensures Elems(acc[k]) <= u - last
      {
        assert Elems(acc[k]) !! last;
      }
      assert Apart(g, u - last, acc[..n]) by {
        hide Elems;
      }
      RoomForRegions(g, u - last, acc[..n]);
      SoundDistinct(g, acc[n]);
      DistinctCount(acc[n]);
      assert u == (u - last) + last;
    }
  }

  lemma SoundDistinct(g: ImageDouble, s: seq<Point>)
    requires Sound(g, s)
    ensures Distinct(s)
  {
  }
}
