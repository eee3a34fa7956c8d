/** The line segment detector (lsd.cpp: LineSegmentDetection). */
module Lsd {
  import opened MathLib
  import opened Pixels
  import opened Angles
  import opened Rectangle
  import opened Region
  import opened RegionRect
  import opened RegionRefine
  import opened RectSearch
  import opened Binomial
  import opened Nfa
  import opened PixelOrder
  import opened TupleList
  import opened Gradient
  import opened SegmentSearch
  import Gaussian

  /** The arguments besides the image. */
  datatype Params = Params(scale: real, sigmaScale: real, quant: real, angTh: real, logEps: real, densityTh: real,
                           nBins: int, wantRegion: bool)

  /** Checks at the head of LineSegmentDetection, lines 2049-2057. */
  predicate Proper(q: Params) {
    && q.scale > 0.0 && q.sigmaScale > 0.0 && q.quant >= 0.0
    && 0.0 < q.angTh < 180.0 && 0.0 <= q.densityTh <= 1.0 && q.nBins > 0
  }

  const UINT_MAX: int := 4294967295

  /** The check of gaussian_sampler, line 628. */
  predicate TooBig(X: int, Y: int, scale: real) {
    scale != 1.0 && (X as real * scale > UINT_MAX as real || Y as real * scale > UINT_MAX as real)
  }

  /** Number of tests, line 2094. */
  function LogTests(m: Libm, xsize: nat, ysize: nat): real {
    5.0 * (m.log10(xsize as real) + m.log10(ysize as real)) / 2.0 + m.log10(11.0)
  }

  /** A smaller region cannot pass the threshold, line 2096. */
  function MinRegSize(m: Libm, logNT: real, p: real): int
    requires m.log10(p) != 0.0
  {
    Trunc(-logNT / m.log10(p))
  }

  /** The angle tolerance in radians, line 2061. */
  function AngleTolerance(angTh: real): real {
    PI * angTh / 180.0
  }

  lemma TestsOfProbability(m: Libm, angTh: real)
    requires m.Lawful() && 0.0 < angTh < 180.0
    ensures 0.0 < angTh / 180.0 < 1.0 && m.log10(angTh / 180.0) < 0.0
    ensures 0.0 < AngleTolerance(angTh) < PI && m.sin(AngleTolerance(angTh)) > 0.0
  {
  }

  /** The smallest region worth a rectangle, for an image of this size, lines 2062 and 2094-2096. */
  function SmallestRegion(m: Libm, xsize: nat, ysize: nat, angTh: real): int
    requires m.Lawful() && 0.0 < angTh < 180.0
  {
    TestsOfProbability(m, angTh);
    MinRegSize(m, LogTests(m, xsize, ysize), angTh / 180.0)
  }

  /** Threshold on the gradient norm, line 2063. */
  function Threshold(m: Libm, q: Params): (rho: real)
    requires m.Lawful() && Proper(q)
    ensures rho >= 0.0
  {
    TestsOfProbability(m, q.angTh);
    QuotientNonNeg(q.quant, m.sin(AngleTolerance(q.angTh)));
    q.quant / m.sin(AngleTolerance(q.angTh))
  }

  /** What the search works with: the gradient of the prepared image, and the constants. */
  ghost function ConfigFor(m: Libm, im: ImageDouble, q: Params): (c: Config)
    requires m.Lawful() && im.Valid() && Proper(q)
    ensures c.Valid() && NormImage(c.modgrad) && c.minRegSize == SmallestRegion(m, im.xsize, im.ysize, q.angTh)
    ensures c.g == AnglesOf(m, im, Threshold(m, q)) && c.modgrad == NormsOf(m, im)
  {
    var g, md := AnglesOf(m, im, Threshold(m, q)), NormsOf(m, im);
    FilledExactly(m, im, Threshold(m, q), g, md);
    GradientScene(m, im, Threshold(m, q), g, md);
    FilledNorms(m, im, Threshold(m, q), g, md);
    TestsOfProbability(m, q.angTh);
    Config(g, md, AngleTolerance(q.angTh), q.angTh / 180.0, q.densityTh, LogTests(m, im.xsize, im.ysize), q.logEps,
           SmallestRegion(m, im.xsize, im.ysize, q.angTh), q.scale)
  }

  /** The images and the list made by ll_angle are what the search expects. */
  lemma GradientScene(m: Libm, im: ImageDouble, threshold: real, g: ImageDouble, md: ImageDouble)
    requires m.Lawful() && threshold >= 0.0 && g.Valid() && md.Valid()
    requires g.xsize == md.xsize == im.xsize && g.ysize == md.ysize == im.ysize
    requires Filled(m, im, threshold, g.data, md.data, im.xsize, 0)
    ensures SameScene(g, md)
    ensures forall p | p in Defined(g) :: Inner(p, g.xsize, g.ysize)
  {
    hide Norm, Libm.Lawful;
    forall p | g.Has(p) && g.At(p) != NOTDEF
      ensures Inner(p, g.xsize, g.ysize) && md.At(p) > 0.0
    {
      assert Seen(p, im.xsize, 0);
    }
  }

  lemma GradientList(m: Libm, g: ImageDouble, md: ImageDouble, nBins: nat, maxGrad: real, list: seq<Coor>, start: int,
                     s: seq<Point>, keys: seq<nat>)
    requires g.Valid() && md.Valid() && g.xsize == md.xsize && g.ysize == md.ysize && nBins > 0 && maxGrad >= 0.0
    requires NormImage(md) && s == Scan(md.xsize - 1, md.ysize - 1) && (forall p | p in s :: md.Has(p))
    requires keys == Keys(m, md, nBins, maxGrad, s) && |s| <= |list|
    requires Chained(list, Order(keys, nBins, 0)) && Heads(start, Order(keys, nBins, 0))
    requires forall k | 0 <= k < |s| :: list[k].x == s[k].x && list[k].y == s[k].y
    requires forall p | p in Defined(g) :: Inner(p, g.xsize, g.ysize)
    ensures PixelList(g, list, start, Order(keys, nBins, 0))
  {
    hide Scan, Keys, Order, Chained, Heads, NormImage, Defined;
    ListIsPermutation(m, md, nBins, maxGrad, s, keys);
    var o := Order(keys, nBins, 0);
    var px := Pick(s, o);
    forall i | 0 <= i < |o|
      ensures g.Has(PixelOf(list[o[i]])) && PixelOf(list[o[i]]) == px[i]
    {
      assert s[o[i]] in s;
    }
    forall p | p in Defined(g)
      ensures exists i | 0 <= i < |o| :: PixelOf(list[o[i]]) == p
    {
      assert p in px;
      var i :| 0 <= i < |px| && px[i] == p;
      assert PixelOf(list[o[i]]) == p;
    }
  }

  /** What the caller gets: the 7-tuples, their number, and the labels if it asked for them. */
  datatype Output = Output(values: seq<real>, nOut: int, labels: seq<int>, regX: int, regY: int)

  /** The result: one tuple per segment, segment k found in the accepted region k; the regions are
      sound, disjoint, of two defined pixels at least; label k+1 marks region k and nothing else. */
  ghost predicate Delivered(m: Libm, c: Config, out: Output, log: seq<Visit>, wantRegion: bool)
    requires c.Valid()
  {
    var acc, segs := Accepted(log), Found(log);
    && Between(m, c, Defined(c.g), acc, segs)
    && out.values == Tuples(c, segs) && out.nOut == |segs|
    && 2 * out.nOut <= c.g.xsize * c.g.ysize
    && (if wantRegion then
          && out.regX == c.g.xsize && out.regY == c.g.ysize
          && |out.labels| == c.g.xsize * c.g.ysize && Labels(out.labels, c.g.xsize, c.g.ysize, acc)
        else
          out.regX == 0 && out.regY == 0 && out.labels == [])
  }

  /** The image whose gradient is taken: the input, smoothed and resampled if a scale is asked for. */
  ghost predicate Prepared(m: Libm, input: ImageDouble, scale: real, sigmaScale: real, im: ImageDouble) {
    im.Valid() && if scale == 1.0 then im == input else Gaussian.IsSampled(m, input, scale, sigmaScale, im)
  }

  /** The image, the largest norm and the log of a run. */
  datatype Run = Run(im: ImageDouble, maxGrad: real, log: seq<Visit>)

  ghost const NO_RUN: Run := Run(ImageDouble([], 0, 0), 0.0, [])

  /** The run is over, or it stops: over all pixels with a window, by bins of falling gradient norm and
      in the order of the image within a bin. */
  ghost predicate RunIsOver(m: Libm, c: Config, nBins: nat, maxGrad: real, log: seq<Visit>)
    requires c.Valid() && NormImage(c.modgrad) && nBins > 0 && maxGrad >= 0.0
  {
    Logged(m, c, SortedPixels(m, c.modgrad, nBins, maxGrad), log)
  }

  ghost predicate RunStops(m: Libm, c: Config, nBins: nat, maxGrad: real, log: seq<Visit>)
    requires c.Valid() && NormImage(c.modgrad) && nBins > 0 && maxGrad >= 0.0
  {
    Stopped(m, c, SortedPixels(m, c.modgrad, nBins, maxGrad), log)
  }

  /** What LineSegmentDetection does with its arguments. */
  ghost predicate Outcome(m: Libm, img: seq<real>, X: int, Y: int, q: Params, r: Result<Output>, run: Run)
    requires m.Lawful() && (X > 0 && Y > 0 ==> |img| == X * Y)
  {
    if X <= 0 || Y <= 0 || !Proper(q) then
      r == Failure(InvalidInput)
    else if TooBig(X, Y, q.scale) then
      r == Failure(OutputTooBig)
    else
      && Prepared(m, ImageDouble(img, X, Y), q.scale, q.sigmaScale, run.im)
      && IsMaxGrad(m, run.im, Threshold(m, q), run.maxGrad, run.im.xsize, 0)
      && var c := ConfigFor(m, run.im, q);
         match r
         case Failure(error) => error == RegionTooSmall && RunStops(m, c, q.nBins, run.maxGrad, run.log)
         case Success(out) =>
           RunIsOver(m, c, q.nBins, run.maxGrad, run.log) && Delivered(m, c, out, run.log, q.wantRegion)
  }

  ghost predicate IsResult(m: Libm, img: seq<real>, X: int, Y: int, q: Params, r: Result<Output>)
    requires m.Lawful() && (X > 0 && Y > 0 ==> |img| == X * Y)
  {
    exists run :: Outcome(m, img, X, Y, q, r, run)
  }

  method LineSegmentDetection(m: Libm, img: seq<real>, X: int, Y: int, scale: real, sigmaScale: real, quant: real,
                              angTh: real, logEps: real, densityTh: real, nBins: int, wantRegion: bool)
    returns (r: Result<Output>, ghost run: Run)
    requires m.Lawful() && (X > 0 && Y > 0 ==> |img| == X * Y)
    ensures var q := Params(scale, sigmaScale, quant, angTh, logEps, densityTh, nBins, wantRegion);
            && (r == Failure(InvalidInput) <==>
                  || X <= 0 || Y <= 0 || scale <= 0.0 || sigmaScale <= 0.0 || quant < 0.0 || angTh <= 0.0
                  || angTh >= 180.0 || densityTh < 0.0 || densityTh > 1.0 || nBins <= 0)
            && (r == Failure(OutputTooBig) <==>
                  && r != Failure(InvalidInput) && scale != 1.0
                  && (X as real * scale > 4294967295.0 || Y as real * scale > 4294967295.0))
    ensures IsResult(m, img, X, Y, Params(scale, sigmaScale, quant, angTh, logEps, densityTh, nBins, wantRegion), r)
    ensures Outcome(m, img, X, Y, Params(scale, sigmaScale, quant, angTh, logEps, densityTh, nBins, wantRegion), r, run)
  {
    hide Libm.Lawful, Filled, IsMaxGrad, Keys, Scan, Chained, Heads, Order, LogTests, NormImage, AngleTolerance,
         MinRegSize, Delivered, Searched, StoppedIn, Prepared, PixelList, Config.Valid, RunIsOver, RunStops, Threshold,
         AnglesOf, NormsOf, SameScene, Defined;
    ghost var q := Params(scale, sigmaScale, quant, angTh, logEps, densityTh, nBins, wantRegion);
    run := NO_RUN;
    if X <= 0 || Y <= 0 || scale <= 0.0 || sigmaScale <= 0.0 || quant < 0.0 || angTh <= 0.0 || angTh >= 180.0
       || densityTh < 0.0 || densityTh > 1.0 || nBins <= 0 {
      assert Outcome(m, img, X, Y, q, Failure(InvalidInput), run);
      return Failure(InvalidInput), run;
    }
    TestsOfProbability(m, angTh);
    var prec, p := AngleTolerance(angTh), angTh / 180.0;
    var rho := quant / m.sin(prec);  // threshold on the gradient norm
    IsThreshold(m, q, rho);
    var image := ImageDouble(img, X, Y);
    if scale != 1.0 {
      if X as real * scale > UINT_MAX as real || Y as real * scale > UINT_MAX as real {
        assert Outcome(m, img, X, Y, q, Failure(OutputTooBig), run);
        return Failure(OutputTooBig), run;
      }
      image := Gaussian.GaussianSampler(m, image, scale, sigmaScale);
    }
    IsPrepared(m, ImageDouble(img, X, Y), scale, sigmaScale, image);
    var g, modgrad, list, start;
    ghost var s, keys, maxGrad;
    g, modgrad, list, start, s, keys, maxGrad := LlAngle(m, image, rho, nBins);
    GradientScene(m, image, rho, g, modgrad);
    GradientList(m, g, modgrad, nBins, maxGrad, list[..], start, s, keys);

    var logNT := LogTests(m, g.xsize, g.ysize);
    var c := Config(g, modgrad, prec, p, densityTh, logNT, logEps, MinRegSize(m, logNT, p), scale);
    IsConfigFor(m, image, q, c, rho);
    ghost var log;
    r, log := Detect(m, c, list, start, wantRegion, Order(keys, nBins, 0));
    run := Run(image, maxGrad, log);
    InOrder(m, c, nBins, maxGrad, list[..], s, keys, log);
    assert Outcome(m, img, X, Y, q, r, run);
  }

  lemma IsThreshold(m: Libm, q: Params, rho: real)
    requires m.Lawful() && Proper(q) && m.sin(AngleTolerance(q.angTh)) > 0.0
    requires rho == q.quant / m.sin(AngleTolerance(q.angTh))
    ensures rho == Threshold(m, q) >= 0.0
  {
  }

  lemma IsPrepared(m: Libm, input: ImageDouble, scale: real, sigmaScale: real, im: ImageDouble)
    requires im.Valid() && if scale == 1.0 then im == input else Gaussian.IsSampled(m, input, scale, sigmaScale, im)
    ensures Prepared(m, input, scale, sigmaScale, im)
  {
  }

  lemma IsConfigFor(m: Libm, im: ImageDouble, q: Params, c: Config, rho: real)
    requires m.Lawful() && im.Valid() && Proper(q) && rho == Threshold(m, q) && m.log10(q.angTh / 180.0) < 0.0
    requires c.g.Valid() && c.modgrad.Valid()
    requires c.g.xsize == c.modgrad.xsize == im.xsize && c.g.ysize == c.modgrad.ysize == im.ysize
    requires Filled(m, im, rho, c.g.data, c.modgrad.data, im.xsize, 0)
    requires c.prec == AngleTolerance(q.angTh) && c.p == q.angTh / 180.0 && c.densityTh == q.densityTh
    requires c.logNT == LogTests(m, im.xsize, im.ysize) && c.logEps == q.logEps && c.scale == q.scale
    requires c.minRegSize == MinRegSize(m, c.logNT, c.p)
    ensures c == ConfigFor(m, im, q) && c.Valid() && NormImage(c.modgrad)
  {
    hide Filled, Threshold, AnglesOf, NormsOf;
    FilledExactly(m, im, rho, c.g, c.modgrad);
  }

  lemma InOrder(m: Libm, c: Config, nBins: nat, maxGrad: real, list: seq<Coor>, s: seq<Point>, keys: seq<nat>,
                log: seq<Visit>)
    requires c.Valid() && NormImage(c.modgrad) && nBins > 0 && maxGrad >= 0.0
    requires s == Scan(c.g.xsize - 1, c.g.ysize - 1) && (forall p | p in s :: c.modgrad.Has(p))
    requires keys == Keys(m, c.modgrad, nBins, maxGrad, s) && |s| <= |list|
    requires forall k | 0 <= k < |s| :: list[k].x == s[k].x && list[k].y == s[k].y
    ensures Searched(m, c, list, Order(keys, nBins, 0), log) ==> RunIsOver(m, c, nBins, maxGrad, log)
    ensures StoppedIn(m, c, list, Order(keys, nBins, 0), log) ==> RunStops(m, c, nBins, maxGrad, log)
  {
    hide Logged, Stopped, NormImage, Order, Scan, Keys;
    var o := Order(keys, nBins, 0);
    ListIsPermutation(m, c.modgrad, nBins, maxGrad, s, keys);
    if Searched(m, c, list, o, log) || StoppedIn(m, c, list, o, log) {
      assert ListPixels(list, o) == SortedPixels(m, c.modgrad, nBins, maxGrad);
    }
  }

  /** From the list of pixels to the result, lines 2100-2206. */
  method Detect(m: Libm, c: Config, list: array<Coor>, start: int, wantRegion: bool, ghost o: seq<nat>)
    returns (r: Result<Output>, ghost log: seq<Visit>)
    requires m.Lawful() && c.Valid() && PixelList(c.g, list[..], start, o)
    ensures r.Failure? ==> r.error == RegionTooSmall && StoppedIn(m, c, list[..], o, log)
    ensures r.Failure? <==> exists l :: StoppedIn(m, c, list[..], o, l)
    ensures r.Success? ==> Searched(m, c, list[..], o, log) && Delivered(m, c, r.value, log, wantRegion)
  {
    hide Libm.Lawful, Marked, Defined, PixelList, Between, Labels, Tuples, Recorded, Standing, Searched, StoppedIn,
         Accepted,
         Found;
    var region: array?<int> := null;
    if wantRegion {
      region := new int[c.g.xsize * c.g.ysize](_ => 0);
    }
    var used := new Mark[c.g.xsize * c.g.ysize](_ => NOTUSED);
    var reg := new Point[c.g.xsize * c.g.ysize](_ => Point(0, 0));
    var out := new NtupleList();
    var table := new Inverses();
    FreshStart(m, c, used[..], region, out);

    var found;
    found, log := SearchSegments(m, c, list, start, reg, used, region, out, table, o);
    if found.Failure? {
      return Failure(found.error), log;
    }
    StandsBetween(m, c, log, used[..], out, region);
    StandsRecorded(m, c, log, used[..], out, region);
    RoomInImage(m, c, Accepted(log), Found(log));
    RecordedOutput(c, Accepted(log), Found(log), out, region);
    return Success(Output(out.values[..DIM * out.size], out.size, if region != null then region[..] else [],
                          if region != null then c.g.xsize else 0, if region != null then c.g.ysize else 0)), log;
  }

  lemma FreshStart(m: Libm, c: Config, used: seq<Mark>, region: array?<int>, out: NtupleList)
    requires c.Valid() && |used| == c.g.xsize * c.g.ysize && forall i | 0 <= i < |used| :: used[i] == NOTUSED
    requires out.Valid() && out.size == 0
    requires region != null ==>
               region.Length == c.g.xsize * c.g.ysize && forall i | 0 <= i < region.Length :: region[i] == 0
    ensures Standing(m, c, [], used, out, region)
  {
    forall p | InGrid(p, c.g.xsize, c.g.ysize)
      ensures 0 <= Adr(p, c.g.xsize) < c.g.xsize * c.g.ysize
    {
      AdrBounds(p, c.g.xsize, c.g.ysize);
    }
  }

  lemma RecordedOutput(c: Config, acc: seq<seq<Point>>, segs: seq<Segment>, out: NtupleList, region: array?<int>)
    requires c.Valid() && Recorded(c, acc, segs, out, region)
    ensures out.Valid() && out.size == |segs| && out.values[..DIM * out.size] == Tuples(c, segs)
    ensures region != null ==> region.Length == c.g.xsize * c.g.ysize && Labels(region[..], c.g.xsize, c.g.ysize, acc)
  {
  }

  lemma RoomInImage(m: Libm, c: Config, acc: seq<seq<Point>>, segs: seq<Segment>)
    requires c.g.Valid() && Between(m, c, Defined(c.g), acc, segs)
    ensures 2 * |segs| <= c.g.xsize * c.g.ysize
  {
    hide Meaningful, Apart;
    RoomForRegions(c.g, Defined(c.g), acc);
    SubsetCount(Defined(c.g), Grid(c.g.xsize, c.g.ysize));
    GridCount(c.g.xsize, c.g.ysize);
  }

  lemma PreparedUnique(m: Libm, input: ImageDouble, scale: real, sigmaScale: real, a: ImageDouble, b: ImageDouble)
    requires Prepared(m, input, scale, sigmaScale, a) && Prepared(m, input, scale, sigmaScale, b)
    ensures a == b
  {
    if scale != 1.0 {
      Gaussian.SampledUnique(m, input, scale, sigmaScale, a, b);
    }
  }

  /** The labels of given regions. */
  lemma LabelsUnique(a: seq<int>, b: seq<int>, xsize: nat, ysize: nat, acc: seq<seq<Point>>)
    requires |a| == |b| == xsize * ysize && Labels(a, xsize, ysize, acc) && Labels(b, xsize, ysize, acc)
    ensures a == b
  {
    hide Pix;
    forall p | InGrid(p, xsize, ysize)
      ensures Pix(a, xsize, ysize, p) == Pix(b, xsize, ysize, p)
    {
      var la, lb := Pix(a, xsize, ysize, p), Pix(b, xsize, ysize, p);
      LabelOwner(a, xsize, ysize, acc, p);
      LabelOwner(b, xsize, ysize, acc, p);
      assert la > 0 ==> (p in acc[la - 1] <==> lb == (la - 1) + 1);
      assert lb > 0 ==> (p in acc[lb - 1] <==> la == (lb - 1) + 1);
    }
    SameData(a, b, xsize, ysize);
  }

  lemma DeliveredUnique(m: Libm, c: Config, a: Output, b: Output, log: seq<Visit>, wantRegion: bool)
    requires c.Valid() && Delivered(m, c, a, log, wantRegion) && Delivered(m, c, b, log, wantRegion)
    ensures a == b
  {
    hide Between, Tuples, Labels, Accepted, Found;
    if wantRegion {
      LabelsUnique(a.labels, b.labels, c.g.xsize, c.g.ysize, Accepted(log));
    }
  }

  /** The same arguments have the same result, and the same run. */
  lemma OutcomeUnique(m: Libm, img: seq<real>, X: int, Y: int, q: Params, r1: Result<Output>, run1: Run,
                      r2: Result<Output>, run2: Run)
    requires m.Lawful() && (X > 0 && Y > 0 ==> |img| == X * Y)
    requires Outcome(m, img, X, Y, q, r1, run1) && Outcome(m, img, X, Y, q, r2, run2)
    ensures r1 == r2
    ensures X > 0 && Y > 0 && Proper(q) && !TooBig(X, Y, q.scale) ==> run1 == run2
  {
    hide Libm.Lawful, Gaussian.IsSampled, Norm, ConfigFor, Logged, Stopped, Delivered, Threshold, SortedPixels, TooBig;
    if X > 0 && Y > 0 && Proper(q) && !TooBig(X, Y, q.scale) {
      PreparedUnique(m, ImageDouble(img, X, Y), q.scale, q.sigmaScale, run1.im, run2.im);
      MaxGradUnique(m, run1.im, Threshold(m, q), run1.maxGrad, run2.maxGrad);
      var c := ConfigFor(m, run1.im, q);
      var px := SortedPixels(m, c.modgrad, q.nBins, run1.maxGrad);
      if r1.Success? && r2.Success? {
        LoggedUnique(m, c, px, run1.log, run2.log);
        DeliveredUnique(m, c, r1.value, r2.value, run1.log, q.wantRegion);
      } else if r1.Success? {
        StopsOrEnds(m, c, px, run1.log, run2.log);
      } else if r2.Success? {
        StopsOrEnds(m, c, px, run2.log, run1.log);
      } else {
        StoppedUnique(m, c, px, run1.log, run2.log);
      }
    }
  }

  /* What the caller can count on, in terms of the arguments alone. */

  /** The image that is searched: the input itself at scale 1; else as many samples as fit, rounded up, each of them
      the sum over the window around it. */
  lemma ImageOfRun(m: Libm, img: seq<real>, X: int, Y: int, q: Params, r: Result<Output>, run: Run)
    requires m.Lawful() && X > 0 && Y > 0 && |img| == X * Y && Outcome(m, img, X, Y, q, r, run)
    requires r.Success? || r.error == RegionTooSmall
    ensures q.scale == 1.0 ==> run.im == ImageDouble(img, X, Y)
    ensures q.scale != 1.0 ==>
              && run.im.Valid() && run.im.xsize as real - 1.0 < X as real * q.scale <= run.im.xsize as real
              && run.im.ysize as real - 1.0 < Y as real * q.scale <= run.im.ysize as real
              && Gaussian.IsSampled(m, ImageDouble(img, X, Y), q.scale, q.sigmaScale, run.im)
  {
    hide Libm.Lawful, ConfigFor, RunIsOver, RunStops, Delivered, Threshold, IsMaxGrad, Gaussian.WindowSum,
      Gaussian.SamplingFor, Gaussian.Weights, Gaussian.First;
  }

  /** Every reported tuple is a segment that was found: scaled down again, its ends are those of the rectangle moved by
      half a pixel, and its width is that of the rectangle; and its value is above log_eps. */
  lemma TuplesAreSegments(m: Libm, img: seq<real>, X: int, Y: int, q: Params, r: Result<Output>, run: Run, k: nat)
    requires m.Lawful() && X > 0 && Y > 0 && |img| == X * Y && Outcome(m, img, X, Y, q, r, run)
    requires r.Success? && k < r.value.nOut
    ensures |r.value.values| == 7 * r.value.nOut == 7 * |Found(run.log)|
    ensures Reported(q.scale, r.value.values[7 * k..7 * k + 7], Found(run.log)[k])
    ensures Found(run.log)[k].logNfa > q.logEps
  {
    hide Libm.Lawful, Gaussian.IsSampled, IsMaxGrad, ConfigFor, RunIsOver, Threshold, Found, Delivered, Reported;
    ConfigCopies(m, run.im, q);
    DeliveredTuples(m, ConfigFor(m, run.im, q), r.value, run.log, q.wantRegion, k);
  }

  lemma DeliveredTuples(m: Libm, c: Config, out: Output, log: seq<Visit>, wantRegion: bool, k: nat)
    requires c.Valid() && Delivered(m, c, out, log, wantRegion) && k < out.nOut
    ensures |out.values| == 7 * out.nOut == 7 * |Found(log)|
    ensures Reported(c.scale, out.values[7 * k..7 * k + 7], Found(log)[k]) && Found(log)[k].logNfa > c.logEps
  {
    var acc, segs := Accepted(log), Found(log);
    assert Between(m, c, Defined(c.g), acc, segs);
    var fitted, angle := FoundMeaningful(m, c, Defined(c.g), acc, segs, k);
    TuplesScaled(c, segs, k);
    hide Between, Tuples, Found, Accepted, Reported, Labels;
  }

  /** With labels asked for, label k+1 marks the pixels of region k and no others. */
  lemma LabelsAreRegions(m: Libm, img: seq<real>, X: int, Y: int, q: Params, r: Result<Output>, run: Run, k: nat)
    requires m.Lawful() && X > 0 && Y > 0 && |img| == X * Y && Outcome(m, img, X, Y, q, r, run)
    requires r.Success? && k < r.value.nOut && q.wantRegion
    ensures r.value.regX == run.im.xsize && r.value.regY == run.im.ysize && |Accepted(run.log)| == r.value.nOut
    ensures |r.value.labels| == run.im.xsize * run.im.ysize
    ensures forall p | run.im.Has(p) ::
              p in Accepted(run.log)[k] <==> Pix(r.value.labels, run.im.xsize, run.im.ysize, p) == k + 1
  {
    hide Libm.Lawful, Gaussian.IsSampled, IsMaxGrad, RunIsOver, Threshold, Found, Accepted, Pix, Tuples, Apart,
      AnglesOf, NormsOf, SmallestRegion, Meaningful;
  }

  /** ... and every segment is meaningful: there is a rectangle that fits the pixels of its region, with at least
      density_th of its area in pixels; the segment is that rectangle with its precision halved at most ten times and
      at most fifteen half pixels cut off; and its value is that of its pixels in the image, for 11 * (XY)^(5/2)
      tests. */
  lemma SegmentsAreMeaningful(m: Libm, img: seq<real>, X: int, Y: int, q: Params, r: Result<Output>, run: Run, k: nat)
    returns (fitted: Rect, angle: real, tests: real)
    requires m.Lawful() && X > 0 && Y > 0 && |img| == X * Y && Outcome(m, img, X, Y, q, r, run)
    requires r.Success? && k < r.value.nOut
    ensures r.value.nOut == |Found(run.log)| == |Accepted(run.log)|
    ensures var seg, s := Found(run.log)[k], Accepted(run.log)[k];
            var g, md := AnglesOf(m, run.im, Threshold(m, q)), NormsOf(m, run.im);
            && |s| >= 2 && Sound(g, s) && InImage(md, s)
            && Fits(m, md, s, angle, PI * q.angTh / 180.0, q.angTh / 180.0, fitted) && fitted.Oriented()
            && (fitted.Length() > 0.0 ==> |s| as real / (fitted.Length() * fitted.width) >= q.densityTh)
            && Reachable(fitted, seg.rec) && Usable(seg.rec)
            && 2.0 * tests == m.log10(121.0 * Pow((run.im.xsize * run.im.ysize) as real, 5))
            && seg.logNfa == RectValue(m, seg.rec, g, tests)
  {
    hide Libm.Lawful, Gaussian.IsSampled, IsMaxGrad, ConfigFor, RunIsOver, Threshold, Found, Accepted,
      Delivered, Reachable, Usable, RectValue, Rect.Oriented, Rect.Length, Sound, Dense, AnglesOf, NormsOf, Fits, Pow;
    var c := ConfigFor(m, run.im, q);
    ConfigCopies(m, run.im, q);
    ConfigMeans(m, run.im, q);
    fitted, angle := DeliveredMeaningful(m, c, r.value, run.log, q.wantRegion, k);
    FittedIsOriented(m, c.modgrad, Accepted(run.log)[k], angle, c.prec, c.p, fitted);
    DenseIsDensity(m, fitted, |Accepted(run.log)[k]|, q.densityTh);
    tests := c.logNT;
  }

  lemma DeliveredMeaningful(m: Libm, c: Config, out: Output, log: seq<Visit>, wantRegion: bool, k: nat)
    returns (fitted: Rect, angle: real)
    requires c.Valid() && Delivered(m, c, out, log, wantRegion) && k < out.nOut
    ensures out.nOut == |Found(log)| == |Accepted(log)|
    ensures var seg, s := Found(log)[k], Accepted(log)[k];
            && |s| >= 2 && Sound(c.g, s) && InImage(c.modgrad, s)
            && Fits(m, c.modgrad, s, angle, c.prec, c.p, fitted) && Dense(m, fitted, |s|, c.densityTh)
            && Reachable(fitted, seg.rec) && Usable(seg.rec)
            && seg.logNfa == RectValue(m, seg.rec, c.g, c.logNT) > c.logEps
  {
    var acc, segs := Accepted(log), Found(log);
    assert Between(m, c, Defined(c.g), acc, segs);
    fitted, angle := FoundMeaningful(m, c, Defined(c.g), acc, segs, k);
    hide *;
  }

  lemma ConfigCopies(m: Libm, im: ImageDouble, q: Params)
    requires m.Lawful() && im.Valid() && Proper(q)
    ensures var c := ConfigFor(m, im, q);
            && c.Valid() && c.scale == q.scale && c.logEps == q.logEps && c.densityTh == q.densityTh
            && c.prec == AngleTolerance(q.angTh) && c.p == q.angTh / 180.0
            && c.logNT == LogTests(m, im.xsize, im.ysize)
  {
    hide SmallestRegion, AngleTolerance, LogTests, Libm.Lawful, Threshold;
  }

  /** What the search works with: the tolerance in radians and the probability belong to ang_th degrees, the threshold
      on the gradient norm is quant / sin(tolerance), and the number of tests is 11 * (XY)^(5/2). */
  lemma ConfigMeans(m: Libm, im: ImageDouble, q: Params)
    requires m.Lawful() && im.Valid() && Proper(q)
    ensures var c := ConfigFor(m, im, q);
            && c.scale == q.scale && c.logEps == q.logEps && c.densityTh == q.densityTh
            && 180.0 * c.prec == PI * q.angTh && 180.0 * c.p == q.angTh
            && 2.0 * c.logNT == m.log10(121.0 * Pow((im.xsize * im.ysize) as real, 5))
            && Threshold(m, q) * m.sin(c.prec) == q.quant
            && c.g == AnglesOf(m, im, Threshold(m, q)) && c.modgrad == NormsOf(m, im)
  {
    hide Libm.Lawful, ConfigFor, AnglesOf, NormsOf, LogTests, Pow;
    ConfigCopies(m, im, q);
    TestsOfProbability(m, q.angTh);
    TestsCounted(m, im.xsize, im.ysize);
    TimesBack(q.quant, m.sin(AngleTolerance(q.angTh)));
  }

  lemma TestsCounted(m: Libm, xsize: nat, ysize: nat)
    requires m.Lawful() && xsize > 0 && ysize > 0
    ensures LogTests(m, xsize, ysize) >= 0.0
    ensures 2.0 * LogTests(m, xsize, ysize) == m.log10(121.0 * Pow((xsize * ysize) as real, 5))
  {
    hide Libm.Lawful, Pow;
    var x, y := xsize as real, ysize as real;
    CastProduct(xsize, ysize);
    MulPos(x, y);
    LogProduct(m, x, y);
    assert (xsize * ysize) as real == Product(x, y);
    LogPow(m, Product(x, y), 5);
    PowPos(Product(x, y), 5);
    LogProduct(m, 121.0, Pow(Product(x, y), 5));
    assert 121.0 * Pow(Product(x, y), 5) == Product(121.0, Pow(Product(x, y), 5));
    LogProduct(m, 11.0, 11.0);
    assert Product(11.0, 11.0) == 121.0;
    LogAboveOne(m, x);
    LogAboveOne(m, y);
    LogAboveOne(m, 11.0);
  }

  /** The smallest region: that many pixels, all of them aligned, do not have a value above 0, and one more do. */
  lemma SmallestRegionMeans(m: Libm, xsize: nat, ysize: nat, angTh: real, n: nat)
    requires m.Lawful() && xsize > 0 && ysize > 0 && 0.0 < angTh < 180.0 && n > 0
    ensures 0.0 < angTh / 180.0 < 1.0
    ensures Value(m, n, n, angTh / 180.0, LogTests(m, xsize, ysize)) > 0.0
            <==> n > SmallestRegion(m, xsize, ysize, angTh)
  {
    hide Libm.Lawful, LogTests, Log1Term;
    TestsOfProbability(m, angTh);
    TestsCounted(m, xsize, ysize);
    TruncBounds(n, LogTests(m, xsize, ysize), m.log10(angTh / 180.0));
  }

  lemma TruncBounds(n: nat, t: real, l: real)
    requires t >= 0.0 && l < 0.0
    ensures -t - n as real * l > 0.0 <==> n > Trunc(-t / l)
  {
    var q := -t / l;
    assert q * -l == t by { assert q * l == -t; }
    if q < 0.0 {
      MulPos(-q, -l);
    }
    if n <= Trunc(q) {
      MulMono(n as real, q, -l);
    } else {
      MulMonoStrict(q, n as real, -l);
    }
  }

  /** There is one result only. */
  lemma ResultUnique(m: Libm, img: seq<real>, X: int, Y: int, q: Params, r1: Result<Output>, r2: Result<Output>)
    requires m.Lawful() && (X > 0 && Y > 0 ==> |img| == X * Y)
    requires IsResult(m, img, X, Y, q, r1) && IsResult(m, img, X, Y, q, r2)
    ensures r1 == r2
  {
    hide Libm.Lawful, Outcome;
    var run1 :| Outcome(m, img, X, Y, q, r1, run1);
    var run2 :| Outcome(m, img, X, Y, q, r2, run2);
    OutcomeUnique(m, img, X, Y, q, r1, run1, r2, run2);
  }

  /** With accepted arguments the program stops exactly if the run over the list comes to a seed whose region
      is a single pixel and not too small to be tried. */
  lemma StopsExactly(m: Libm, img: seq<real>, X: int, Y: int, q: Params, r: Result<Output>, run: Run)
    requires m.Lawful() && X > 0 && Y > 0 && |img| == X * Y && Proper(q) && !TooBig(X, Y, q.scale)
    requires Outcome(m, img, X, Y, q, r, run)
    ensures r.Failure? <==> exists log :: RunStops(m, ConfigFor(m, run.im, q), q.nBins, run.maxGrad, log)
    ensures r.Failure? ==> r.error == RegionTooSmall && SmallestRegion(m, run.im.xsize, run.im.ysize, q.angTh) < 2
  {
    hide Libm.Lawful, Gaussian.IsSampled, Norm, ConfigFor, Logged, Delivered, Threshold, SortedPixels, TooBig, Visited,
         MarkedBy, FirstRegion;
    var c := ConfigFor(m, run.im, q);
    if r.Success? {
      forall log
        ensures !RunStops(m, c, q.nBins, run.maxGrad, log)
      {
        StopsOrEnds(m, c, SortedPixels(m, c.modgrad, q.nBins, run.maxGrad), run.log, log);
      }
    } else {
      assert RunStops(m, c, q.nBins, run.maxGrad, run.log);
      var i: nat :| StopsAt(m, c, SortedPixels(m, c.modgrad, q.nBins, run.maxGrad), i, run.log);
    }
  }

  /* An image on which it stops, whenever the smallest region has less than two pixels: 0 everywhere
     except in the last corner. */

  ghost function BrightCorner(X: nat, Y: nat, v: real): (im: ImageDouble)
    requires X > 0 && Y > 0
    ensures im.Valid() && im.xsize == X && im.ysize == Y
  {
    Drawn(X, Y, p => if p == Point(X - 1, Y - 1) then v else 0.0)
  }

  /** Only the pixel before the corner has an angle. */
  lemma CornerGradient(m: Libm, X: nat, Y: nat, threshold: real, p: Point)
    requires m.Lawful() && X >= 2 && Y >= 2 && threshold >= 0.0 && Inner(p, X, Y)
    ensures var im := BrightCorner(X, Y, 2.0 * threshold + 2.0);
            if p == Point(X - 2, Y - 2) then
              Norm(m, im, p) > threshold && LevelAngle(m, im, p, threshold) != NOTDEF
            else
              Norm(m, im, p) == 0.0 && LevelAngle(m, im, p, threshold) == NOTDEF
  {
    var v := 2.0 * threshold + 2.0;
    var im := BrightCorner(X, Y, v);
    var a, b, c, d := im.At(p), im.At(Point(p.x + 1, p.y)), im.At(Point(p.x, p.y + 1)), im.At(Point(p.x + 1, p.y + 1));
    hide BrightCorner;
    assert a == 0.0 && b == 0.0 && c == 0.0;
    NormNonNeg(m, im, p);
    CornerNorm(m, threshold, v, (Sqr(GradX(im, p)) + Sqr(GradY(im, p))) / 4.0, d);
  }

  lemma CornerNorm(m: Libm, threshold: real, v: real, n: real, d: real)
    requires m.Lawful() && threshold >= 0.0 && v == 2.0 * threshold + 2.0 && n == (Sqr(d) + Sqr(d)) / 4.0
    ensures d == v ==> m.sqrt(n) > threshold
    ensures d == 0.0 ==> m.sqrt(n) == 0.0
  {
    SqrLaw(d);
    SqrtLaw(m, n);
    if d == v {
      assert n == 2.0 * Sqr(threshold + 1.0);
      SqrLaw(threshold);
      SqrOrder(threshold, threshold + 1.0);
      SqrOrder(threshold, m.sqrt(n));
    } else if d == 0.0 {
      SqrOrder(0.0, m.sqrt(n));
    }
  }

  /** Where nothing else is defined, a seed stays alone. */
  lemma {:induction false} StaysAlone(m: Libm, g: ImageDouble, prec: real, seed: Point, before: set<Point>, i: nat)
    requires g.Valid() && g.Has(seed) && forall p | g.Has(p) && p != seed :: g.At(p) == NOTDEF
    ensures GrowTo(m, g, prec, seed, before, i) == [seed]
  {
    if i > 0 {
      StaysAlone(m, g, prec, seed, before, i - 1);
      if i == 1 {
        NobodyJoins(m, g, prec, seed, before, CELLS);
      }
    }
  }

  lemma {:induction false} NobodyJoins(m: Libm, g: ImageDouble, prec: real, seed: Point, before: set<Point>, c: nat)
    requires g.Valid() && g.Has(seed) && forall p | g.Has(p) && p != seed :: g.At(p) == NOTDEF
    ensures TriedCells(m, g, prec, before, [seed], seed, c) == [seed]
  {
    hide RegionAngle;
    if c > 0 {
      NobodyJoins(m, g, prec, seed, before, c - 1);
    }
  }

  /** A list without defined pixels leaves no log. */
  lemma {:induction false} NothingToDo(m: Libm, c: Config, px: seq<Point>)
    requires c.Valid() && forall i | 0 <= i < |px| :: c.g.Has(px[i]) && c.g.At(px[i]) == NOTDEF
    ensures Logged(m, c, px, [])
  {
    hide IsVisit;
    if px != [] {
      NothingToDo(m, c, px[..|px| - 1]);
    }
  }

  lemma CornerStops(m: Libm, X: nat, Y: nat, q: Params)
    returns (run: Run)
    requires m.Lawful() && X >= 2 && Y >= 2 && Proper(q) && q.scale == 1.0 && SmallestRegion(m, X, Y, q.angTh) < 2
    ensures run.im == BrightCorner(X, Y, 2.0 * Threshold(m, q) + 2.0)
    ensures Outcome(m, run.im.data, X, Y, q, Failure(RegionTooSmall), run)
  {
    hide Libm.Lawful, BrightCorner, LevelAngle, Norm, Logged, Threshold, GrowTo, SortedPixels, SameScene, Config.Valid,
         SmallestRegion, NormImage;
    var rho, seed := Threshold(m, q), Point(X - 2, Y - 2);
    var im := BrightCorner(X, Y, 2.0 * rho + 2.0);
    forall p | Inner(p, X, Y)
      ensures if p == seed then Norm(m, im, p) > rho && LevelAngle(m, im, p, rho) != NOTDEF
              else Norm(m, im, p) == 0.0 && LevelAngle(m, im, p, rho) == NOTDEF
    {
      CornerGradient(m, X, Y, rho, p);
    }
    run := Run(im, Norm(m, im, seed), []);
    assert Seen(seed, X, 0);
    assert IsMaxGrad(m, im, rho, run.maxGrad, X, 0);
    var c := ConfigFor(m, im, q);
    FilledExactly(m, im, rho, c.g, c.modgrad);
    assert forall p | Inner(p, X, Y) :: Seen(p, X, 0) && c.g.At(p) == LevelAngle(m, im, p, rho);
    assert forall p | im.Has(p) && !Inner(p, X, Y) :: c.g.At(p) == NOTDEF;
    var px := SortedPixels(m, c.modgrad, q.nBins, run.maxGrad);
    assert seed in px;
    var i: nat :| i < |px| && px[i] == seed;
    forall j | 0 <= j < i
      ensures c.g.At(px[j]) == NOTDEF
    {
      assert px[j] != px[i];
    }
    NothingToDo(m, c, px[..i]);
    StaysAlone(m, c.g, c.prec, seed, {}, X * Y);
    assert StopsAt(m, c, px, i, []);
  }

  /** Logarithms of the numbers below. */
  lemma LogsOfTwo(m: Libm)
    requires m.Lawful()
    ensures m.log10(2.0) > 0.0 && 0.0 <= m.log10(11.0) <= 4.0 * m.log10(2.0)
    ensures m.log10(0.03125) == -5.0 * m.log10(2.0)
  {
    LogAboveOne(m, 1.0);
    LogAboveOne(m, 11.0);
    LogAboveOne(m, 16.0 / 11.0);
    assert m.log10(0.5) < 0.0;
    LogProduct(m, 2.0, 0.5);
    LogProduct(m, 2.0, 2.0);
    LogProduct(m, 4.0, 4.0);
    LogProduct(m, 2.0, 16.0);
    LogProduct(m, 11.0, 16.0 / 11.0);
    LogProduct(m, 32.0, 0.03125);
    hide Libm.Lawful;
    assert Product(2.0, 0.5) == 1.0 && Product(2.0, 2.0) == 4.0 && Product(4.0, 4.0) == 16.0;
    assert Product(2.0, 16.0) == 32.0 && Product(11.0, 16.0 / 11.0) == 16.0 && Product(32.0, 0.03125) == 1.0;
  }

  /** In an image of 2x2 pixels, with a tolerance of 5.625 degrees, one pixel is enough. */
  lemma OnePixelIsEnough(m: Libm)
    requires m.Lawful()
    ensures SmallestRegion(m, 2, 2, 5.625) < 2
  {
    hide Libm.Lawful;
    LogsOfTwo(m);
    var a, b := m.log10(2.0), m.log10(11.0);
    assert 5.625 / 180.0 == 0.03125;
    assert LogTests(m, 2, 2) == 5.0 * a + b;
    OnePixelQuotient(a, b, 5.0 * a + b, -5.0 * a);
  }

  lemma OnePixelQuotient(a: real, b: real, t: real, l: real)
    requires a > 0.0 && 0.0 <= b <= 4.0 * a && t == 5.0 * a + b && l == -5.0 * a
    ensures Trunc(-t / l) < 2
  {
    assert t < 2.0 * -l;
    QuotientBelowTwo(t, l, -t / l);
  }

  lemma QuotientBelowTwo(t: real, l: real, q: real)
    requires l < 0.0 && t < 2.0 * -l && q == -t / l
    ensures q < 2.0
  {
    assert q * l == -t;
    assert q * -l == t;
    if q >= 2.0 {
      MulMono(2.0, q, -l);
    }
  }

  /** So there is an image and there are arguments, all valid, for which the program stops: 2x2 pixels, the last
      one bright, the other arguments at will. */
  lemma ProgramCanStop(m: Libm, q: Params) returns (img: seq<real>, run: Run)
    requires m.Lawful() && Proper(q) && q.scale == 1.0 && q.angTh == 5.625
    ensures |img| == 4 && Outcome(m, img, 2, 2, q, Failure(RegionTooSmall), run)
    ensures forall r | IsResult(m, img, 2, 2, q, r) :: r == Failure(RegionTooSmall)
  {
    OnePixelIsEnough(m);
    hide *;
    run := CornerStops(m, 2, 2, q);
    img := run.im.data;
    CornerResult(m, img, q, run);
  }

  lemma CornerResult(m: Libm, img: seq<real>, q: Params, run: Run)
    requires m.Lawful() && |img| == 4 && Outcome(m, img, 2, 2, q, Failure(RegionTooSmall), run)
    ensures forall r | IsResult(m, img, 2, 2, q, r) :: r == Failure(RegionTooSmall)
  {
    hide Libm.Lawful, Outcome;
    assert IsResult(m, img, 2, 2, q, Failure(RegionTooSmall));
    forall r | IsResult(m, img, 2, 2, q, r)
      ensures r == Failure(RegionTooSmall)
    {
      ResultUnique(m, img, 2, 2, q, r, Failure(RegionTooSmall));
    }
  }

  /** Unscaled, every image of a size passes exactly if the size leaves no pixel with a window, or the smallest
      region of that size has two pixels. */
  lemma EveryImagePasses(m: Libm, X: nat, Y: nat, q: Params)
    requires m.Lawful() && X > 0 && Y > 0 && Proper(q) && q.scale == 1.0
    ensures (forall img, r, run | |img| == X * Y && Outcome(m, img, X, Y, q, r, run) :: r.Success?)
            <==> X < 2 || Y < 2 || SmallestRegion(m, X, Y, q.angTh) >= 2
  {
    hide Libm.Lawful, SmallestRegion, IsMaxGrad, ConfigFor, RunIsOver, RunStops, Delivered, BrightCorner;
    if X < 2 || Y < 2 {
      forall img, r, run | |img| == X * Y && Outcome(m, img, X, Y, q, r, run)
        ensures r.Success?
      {
        NarrowPasses(m, img, X, Y, q, r, run);
      }
    } else if SmallestRegion(m, X, Y, q.angTh) < 2 {
      var run := CornerStops(m, X, Y, q);
      assert |run.im.data| == X * Y;
    } else {
      forall img, r, run | |img| == X * Y && Outcome(m, img, X, Y, q, r, run)
        ensures r.Success?
      {
        StopsExactly(m, img, X, Y, q, r, run);
      }
    }
  }

  lemma NothingListed(m: Libm, md: ImageDouble, nBins: nat, maxGrad: real)
    requires NormImage(md) && nBins > 0 && maxGrad >= 0.0 && (md.xsize < 2 || md.ysize < 2)
    ensures SortedPixels(m, md, nBins, maxGrad) == []
  {
    var px := SortedPixels(m, md, nBins, maxGrad);
    hide SortedPixels;
    assert forall i | 0 <= i < |px| :: Inner(px[i], md.xsize, md.ysize);
    assert |px| > 0 ==> Inner(px[0], md.xsize, md.ysize);
  }

  /** One row or one column has no pixel with a window, so the list is empty. */
  lemma NarrowPasses(m: Libm, img: seq<real>, X: nat, Y: nat, q: Params, r: Result<Output>, run: Run)
    requires m.Lawful() && X > 0 && Y > 0 && (X < 2 || Y < 2) && Proper(q) && q.scale == 1.0 && |img| == X * Y
    requires Outcome(m, img, X, Y, q, r, run)
    ensures r.Success?
  {
    hide Libm.Lawful, ConfigFor, Logged, Stuck, Delivered, Threshold, SortedPixels, Norm, Gaussian.IsSampled;
    NothingListed(m, ConfigFor(m, run.im, q).modgrad, q.nBins, run.maxGrad);
  }
}
