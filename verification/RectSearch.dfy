/** Value of a rectangle, and the search for a better one (lsd.cpp: rect_nfa, rect_improve). */
module RectSearch {
  import opened MathLib
  import opened Pixels
  import opened Angles
  import opened Rectangle
  import opened RectIter
  import opened Nfa
  import opened Binomial

  /** The pixels of the image that lie in the rectangle. */
  ghost function RectPixels(r: Rect, g: ImageDouble): set<Point> {
    set p | p in Grid(g.xsize, g.ysize) && r.Contains(p.x as real, p.y as real)
  }

  ghost function AlignedIn(s: set<Point>, r: Rect, g: ImageDouble): set<Point>
    requires g.Valid()
  {
    set p | p in s && g.Has(p) && IsAligned(g.At(p), r.theta, r.prec)
  }

  /** Those that are aligned with it. */
  ghost function RectAligned(r: Rect, g: ImageDouble): set<Point>
    requires g.Valid()
  {
    AlignedIn(RectPixels(r, g), r, g)
  }

  /** A rectangle whose value can be computed. */
  ghost predicate Usable(r: Rect) {
    r.Oriented() && r.Length() > 0.0 && r.prec >= 0.0 && 0.0 < r.p < 1.0
  }

  /** The value of a rectangle: its pixels are the trials, the aligned ones the successes. */
  ghost function RectValue(m: Libm, r: Rect, g: ImageDouble, logNT: real): real
    requires g.Valid() && Usable(r)
  {
    SubsetCount(RectAligned(r, g), RectPixels(r, g));
    Value(m, |RectPixels(r, g)|, |RectAligned(r, g)|, r.p, logNT)
  }

  /** The trials are the pixels of the image in the rectangle, the successes those whose direction is off by at most the
      tolerance, for tolerances that the shortcut of isaligned allows. */
  lemma RectValueCounts(m: Libm, r: Rect, g: ImageDouble, logNT: real, pts: set<Point>, alg: set<Point>)
    requires g.Valid() && Usable(r) && RectAngle(r.theta) && r.prec < TWO_PI - THREE_HALVES_PI
    requires forall p | g.Has(p) && g.At(p) != NOTDEF :: PixelAngle(g.At(p))
    requires forall p :: p in pts <==> g.Has(p) && r.Contains(p.x as real, p.y as real)
    requires forall p :: p in alg <==> p in pts && g.At(p) != NOTDEF && Abs(Wrap(r.theta - g.At(p))) <= r.prec
    ensures |alg| <= |pts| && RectValue(m, r, g, logNT) == Value(m, |pts|, |alg|, r.p, logNT)
  {
    hide Value, Rect.Contains, Rect.Oriented, Wrap, IsAligned, ImageDouble.At;
    SubsetCount(alg, pts);
    assert pts == RectPixels(r, g);
    forall p | p in pts
      ensures IsAligned(g.At(p), r.theta, r.prec)
              <==> g.At(p) != NOTDEF && Abs(Wrap(r.theta - g.At(p))) <= r.prec
    {
      NotDefined(r.theta, r.prec);
      if g.At(p) != NOTDEF {
        OneWrapSuffices(g.At(p), r.theta, r.prec);
      }
    }
    assert alg == RectAligned(r, g);
  }

  lemma NotDefined(theta: real, prec: real)
    ensures !IsAligned(NOTDEF, theta, prec)
  {
  }

  /** The pixels and the aligned pixels visited so far. */
  ghost predicate Counted(r: Rect, g: ImageDouble, seen: set<Point>, pts: int, alg: int)
    requires g.Valid()
  {
    && pts == |seen * Grid(g.xsize, g.ysize)|
    && alg == |AlignedIn(seen, r, g)|
  }

  lemma CountStep(r: Rect, g: ImageDouble, seen: set<Point>, pts: int, alg: int, pos: Point)
    requires g.Valid() && Counted(r, g, seen, pts, alg) && pos !in seen
    ensures if g.Has(pos) then
              Counted(r, g, seen + {pos}, pts + 1, if IsAligned(g.At(pos), r.theta, r.prec) then alg + 1 else alg)
            else
              Counted(r, g, seen + {pos}, pts, alg)
  {
    hide IsAligned;
    var grid := Grid(g.xsize, g.ysize);
    var a, b := AlignedIn(seen, r, g), AlignedIn(seen + {pos}, r, g);
    if g.Has(pos) {
      assert (seen + {pos}) * grid == seen * grid + {pos};
      assert b == if IsAligned(g.At(pos), r.theta, r.prec) then a + {pos} else a;
    } else {
      assert (seen + {pos}) * grid == seen * grid;
      assert b == a;
    }
  }

  lemma CountDone(r: Rect, g: ImageDouble, seen: set<Point>, pts: int, alg: int)
    requires g.Valid() && Counted(r, g, seen, pts, alg)
    requires forall p: Point :: p in seen <==> r.Contains(p.x as real, p.y as real)
    ensures pts == |RectPixels(r, g)| && alg == |RectAligned(r, g)|
  {
    hide IsAligned, Rect.Contains;
    var grid := Grid(g.xsize, g.ysize);
    assert seen * grid == RectPixels(r, g);
    assert AlignedIn(seen, r, g) == RectAligned(r, g);
  }

  method RectNfa(m: Libm, rec: Rect, g: ImageDouble, logNT: real, table: Inverses) returns (r: real)
    requires g.Valid() && Usable(rec) && table.Valid()
    modifies table.inv
    ensures table.Valid() && r == RectValue(m, rec, g, logNT)
  {
    hide Rect.Contains, Rect.Oriented, Rect.Length, Corners, InColumn, IsAligned, Counted, Value;
    var pts, alg := 0, 0;
    ghost var seen := {};

    // pixels inside the image, and those aligned with the rectangle
    var it := new Iterator.Ini(rec);
    CountStart(rec, g);
    while !it.End()
      invariant table.Valid() && fresh(it) && it.quad == Corners(rec) && it.quad.Valid() && (it.End() || it.AtPixel())
      invariant Visited(rec, seen, it.End(), it.Pos()) && Counted(rec, g, seen, pts, alg) && pts >= 0 && alg >= 0
      decreases !it.End(), it.quad.v2.x.Floor - it.x, it.ye.Floor - it.y
    {
      ghost var pos := it.Pos();
      CurrentIsInside(it.quad, it.x, it.y, it.ys, it.ye);
      AtPixelBounds(it);
      CountStep(rec, g, seen, pts, alg, pos);
      if it.x >= 0 && it.y >= 0 && it.x < g.xsize && it.y < g.ysize {
        pts := pts + 1;
        if IsAligned(g.At(Point(it.x, it.y)), rec.theta, rec.prec) {
          alg := alg + 1;
        }
      }
      it.Inc();
      VisitStep(rec, seen, pos, it.End(), it.Pos());
      seen := seen + {pos};
      if !it.End() {
        AtPixelBounds(it);
      }
    }
    CountDone(rec, g, seen, pts, alg);
    SubsetCount(RectAligned(rec, g), RectPixels(rec, g));
    r := table.Compute(m, pts, alg, rec.p, logNT);
  }

  lemma CountStart(r: Rect, g: ImageDouble)
    requires g.Valid()
    ensures Counted(r, g, {}, 0, 0)
  {
    assert AlignedIn({}, r, g) == {};
    assert {} * Grid(g.xsize, g.ysize) == {};
  }

  /** p halved k times. */
  ghost function Halved(p: real, k: nat): real {
    if k == 0 then p else Halved(p, k - 1) / 2.0
  }

  /** Every point of a is a point of b. */
  ghost predicate Inside(a: Rect, b: Rect) {
    forall x, y | a.Contains(x, y) :: b.Contains(x, y)
  }

  /** What may become of a rectangle: k halvings of the precision, j cuts of half a pixel. */
  ghost predicate Variant(r0: Rect, r: Rect, k: nat, j: nat) {
    && Usable(r)
    && r.theta == r0.theta && r.dx == r0.dx && r.dy == r0.dy && r.x == r0.x && r.y == r0.y
    && r.Length() == r0.Length()
    && r.p == Halved(r0.p, k) && (if k == 0 then r.prec == r0.prec else r.prec == r.p * PI)
    && r.width == r0.width - j as real * DELTA && (j > 0 ==> r.width >= 0.5)
    && Inside(r, r0)
  }

  const DELTA: real := 0.5

  /** The five kinds of change that are tried, two of them alike. */
  datatype Move = Precision | Width | Side(sign: real)

  const MOVES: seq<Move> := [Precision, Width, Side(1.0), Side(-1.0), Precision]

  function Finer(r: Rect): Rect {
    r.(p := r.p / 2.0, prec := r.p / 2.0 * PI)
  }

  function Narrower(r: Rect): Rect {
    r.(width := r.width - DELTA)
  }

  /** The segment moves sideways, to the left of (dx,dy) for sign 1 and to the right for -1. */
  function Shifted(r: Rect, d: real): Rect {
    r.(x1 := r.x1 - r.dy * d, y1 := r.y1 + r.dx * d, x2 := r.x2 - r.dy * d, y2 := r.y2 + r.dx * d)
  }

  predicate Possible(move: Move, r: Rect) {
    move.Precision? || r.width - DELTA >= 0.5
  }

  function Apply(move: Move, r: Rect): Rect {
    match move
    case Precision => Finer(r)
    case Width => Narrower(r)
    case Side(sign) => Narrower(Shifted(r, sign * (DELTA / 2.0)))
  }

  /** n rounds of one loop of rect_improve. */
  ghost function Candidate(move: Move, r: Rect, n: nat): Rect {
    if n == 0 then r
    else
      var c := Candidate(move, r, n - 1);
      if Possible(move, c) then Apply(move, c) else c
  }

  /** Moving the segment sideways shifts the position across and nothing else. */
  lemma Sideways(r: Rect, d: real, px: real, py: real)
    requires r.dx * r.dx + r.dy * r.dy == 1.0
    ensures var s := Shifted(r, d);
            && s.Length() == r.Length()
            && s.Along(px, py) == r.Along(px, py) && s.Across(px, py) == r.Across(px, py) - d
  {
    var ax, ay := px - r.x1, py - r.y1;
    ShiftAcross(ax, ay, r.dx, r.dy, d);
  }

  lemma ShiftAcross(ax: real, ay: real, dx: real, dy: real, d: real)
    requires dx * dx + dy * dy == 1.0
    ensures (ax + dy * d) * dx + (ay - dx * d) * dy == ax * dx + ay * dy
    ensures (ay - dx * d) * dx - (ax + dy * d) * dy == (ay * dx - ax * dy) - d
  {
    assert (ay - dx * d) * dx - (ax + dy * d) * dy == (ay * dx - ax * dy) - d * (dx * dx + dy * dy);
  }

  /** Cutting half a pixel off both sides together, or off one side, stays inside. */
  lemma CutIsInside(r: Rect, sign: real)
    requires r.Oriented() && -1.0 <= sign <= 1.0
    ensures Inside(Narrower(Shifted(r, sign * (DELTA / 2.0))), r)
  {
    var d := sign * (DELTA / 2.0);
    var s := Narrower(Shifted(r, d));
    forall x, y | s.Contains(x, y)
      ensures r.Contains(x, y)
    {
      hide Rect.Along, Rect.Across, Rect.Length;
      Sideways(r, d, x, y);
      NarrowSame(Shifted(r, d), x, y);
    }
  }

  lemma NarrowSame(r: Rect, x: real, y: real)
    ensures Narrower(r).Along(x, y) == r.Along(x, y) && Narrower(r).Across(x, y) == r.Across(x, y)
    ensures Narrower(r).Length() == r.Length()
  {
  }

  /** What each stage does to the points of a rectangle: the first and the last take none away, the second takes
      a quarter of a pixel off both sides, the third half a pixel off the right side and the fourth off the left
      side, seen in the direction (dx,dy). */
  lemma StagesCut(r: Rect, x: real, y: real)
    requires r.Oriented()
    ensures |MOVES| == 5
    ensures Apply(MOVES[0], r).Contains(x, y) <==> r.Contains(x, y)
    ensures Apply(MOVES[1], r).Contains(x, y) <==> r.Contains(x, y) && Abs(r.Across(x, y)) <= r.width / 2.0 - 0.25
    ensures Apply(MOVES[2], r).Contains(x, y) <==> r.Contains(x, y) && r.Across(x, y) >= -r.width / 2.0 + 0.5
    ensures Apply(MOVES[3], r).Contains(x, y) <==> r.Contains(x, y) && r.Across(x, y) <= r.width / 2.0 - 0.5
    ensures Apply(MOVES[4], r).Contains(x, y) <==> r.Contains(x, y)
  {
    FinerSamePoints(r, x, y);
    NarrowSame(r, x, y);
    SideCut(r, 1.0, x, y);
    SideCut(r, -1.0, x, y);
    assert Apply(MOVES[2], r) == Narrower(Shifted(r, 1.0 * (DELTA / 2.0)));
    assert Apply(MOVES[3], r) == Narrower(Shifted(r, -1.0 * (DELTA / 2.0)));
    hide Rect.Along, Rect.Across, Rect.Length, Shifted, Finer;
  }

  lemma FinerSamePoints(r: Rect, x: real, y: real)
    ensures Finer(r).Contains(x, y) <==> r.Contains(x, y)
  {
    FinerSeen(r, x, y);
    hide Rect.Along, Rect.Across, Rect.Length;
  }

  lemma FinerSeen(r: Rect, x: real, y: real)
    ensures Finer(r).Along(x, y) == r.Along(x, y) && Finer(r).Across(x, y) == r.Across(x, y)
    ensures Finer(r).Length() == r.Length()
  {
  }

  lemma SideCut(r: Rect, sign: real, x: real, y: real)
    requires r.Oriented() && (sign == 1.0 || sign == -1.0)
    ensures Narrower(Shifted(r, sign * (DELTA / 2.0))).Contains(x, y)
            <==> r.Contains(x, y) && if sign > 0.0 then r.Across(x, y) >= -r.width / 2.0 + 0.5
                                     else r.Across(x, y) <= r.width / 2.0 - 0.5
  {
    hide Rect.Along, Rect.Across, Rect.Length;
    var d := sign * (DELTA / 2.0);
    Sideways(r, d, x, y);
    NarrowSame(Shifted(r, d), x, y);
  }

  /** How far the stages get in n rounds: with every round of the first and the last the precision is half the one
      before, ... */
  lemma {:induction false} RoundsHalve(r: Rect, n: nat)
    ensures var c := Candidate(Precision, r, n);
            c.p * Pow(2.0, n) == r.p && c.width == r.width && (n > 0 ==> c.prec == c.p * PI)
  {
    if n > 0 {
      RoundsHalve(r, n - 1);
      CandidateStep(Precision, r, n - 1);
      HalfOf(Candidate(Precision, r, n - 1).p, Pow(2.0, n - 1));
    }
  }

  /** ... and with every round of the others the width is half a pixel less, until less than a pixel is left. */
  lemma {:induction false} RoundsCut(move: Move, r: Rect, n: nat) returns (t: nat)
    requires !move.Precision?
    ensures var c := Candidate(move, r, n);
            && t <= n && c.width == r.width - 0.5 * t as real && c.p == r.p && c.prec == r.prec
            && (t < n ==> c.width < 1.0) && (t > 0 ==> c.width >= 0.5)
  {
    t := 0;
    if n > 0 {
      t := RoundsCut(move, r, n - 1);
      CandidateStep(move, r, n - 1);
      var c := Candidate(move, r, n - 1);
      hide Candidate;
      CutKeeps(move, c);
      if Possible(move, c) {
        t := t + 1;
      }
    }
  }

  lemma CutKeeps(move: Move, r: Rect)
    requires !move.Precision?
    ensures var c := Apply(move, r); c.width == r.width - 0.5 && c.p == r.p && c.prec == r.prec
  {
  }

  lemma HalfOf(p: real, w: real)
    ensures (p / 2.0) * (2.0 * w) == p * w
  {
  }

  lemma ShiftNothing(r: Rect)
    ensures Shifted(r, 0.0) == r
  {
  }

  lemma InsideTransitive(a: Rect, b: Rect, c: Rect)
    requires Inside(a, b) && Inside(b, c)
    ensures Inside(a, c)
  {
  }

  lemma ShiftedOriented(r: Rect, d: real)
    requires r.Oriented()
    ensures Shifted(r, d).Oriented() && Shifted(r, d).Length() == r.Length()
  {
    assert r.dx * r.dx + r.dy * r.dy == 1.0;
    hide Shifted, Rect.Oriented, Rect.Length, Rect.Along, Rect.Across;
    Sideways(r, d, 0.0, 0.0);
    ShiftedEnds(r, d);
    SameOrientation(r, Shifted(r, d));
  }

  lemma SameOrientation(r: Rect, s: Rect)
    requires r.Oriented() && s.Length() == r.Length() && s.width == r.width && s.dx == r.dx && s.dy == r.dy
    requires s.x2 - s.x1 == r.x2 - r.x1 && s.y2 - s.y1 == r.y2 - r.y1
    ensures s.Oriented()
  {
    hide Rect.Length;
  }

  lemma ShiftedEnds(r: Rect, d: real)
    ensures var s := Shifted(r, d);
            && s.x2 - s.x1 == r.x2 - r.x1 && s.y2 - s.y1 == r.y2 - r.y1
            && s.dx == r.dx && s.dy == r.dy && s.width == r.width
  {
  }

  lemma NarrowOriented(r: Rect)
    requires r.Oriented() && r.width - DELTA > 0.0
    ensures Narrower(r).Oriented() && Narrower(r).Length() == r.Length()
  {
  }

  lemma FinerSame(r: Rect)
    ensures Finer(r).Length() == r.Length() && (r.Oriented() ==> Finer(r).Oriented()) && Inside(Finer(r), r)
  {
    forall x, y | Finer(r).Contains(x, y)
      ensures r.Contains(x, y)
    {
      hide Rect.Oriented;
    }
  }

  lemma FinerVariant(r0: Rect, r: Rect, k: nat, j: nat)
    requires Variant(r0, r, k, j)
    ensures Variant(r0, Finer(r), k + 1, j)
  {
    hide Rect.Oriented, Rect.Contains, Rect.Length, Inside;
    FinerSame(r);
    InsideTransitive(Finer(r), r, r0);
  }

  lemma CutVariant(r0: Rect, r: Rect, k: nat, j: nat, sign: real)
    requires Variant(r0, r, k, j) && r.width - DELTA >= 0.5 && -1.0 <= sign <= 1.0
    ensures Variant(r0, Narrower(Shifted(r, sign * (DELTA / 2.0))), k, j + 1)
  {
    hide Rect.Oriented, Rect.Contains, Rect.Length, Inside;
    var d := sign * (DELTA / 2.0);
    ShiftedOriented(r, d);
    NarrowOriented(Shifted(r, d));
    CutIsInside(r, sign);
    InsideTransitive(Narrower(Shifted(r, d)), r, r0);
  }

  /** Every move keeps a variant of the original a variant of it. */
  lemma MoveVariant(r0: Rect, r: Rect, k: nat, j: nat, move: Move)
    requires Variant(r0, r, k, j) && Possible(move, r) && move in MOVES
    ensures if move.Precision? then Variant(r0, Apply(move, r), k + 1, j) else Variant(r0, Apply(move, r), k, j + 1)
  {
    hide Variant, Shifted;
    match move
    case Precision => FinerVariant(r0, r, k, j);
    case Width =>
      CutVariant(r0, r, k, j, 0.0);
      ShiftNothing(r);
    case Side(sign) => CutVariant(r0, r, k, j, sign);
  }

  /** Number b is the first with the highest value among the rectangles 0..n tried from `r0`. */
  ghost predicate FirstBestAt(m: Libm, g: ImageDouble, logNT: real, move: Move, r0: Rect, b: nat, n: nat)
    requires g.Valid()
  {
    && b <= n
    && (forall i: nat | i <= n :: Usable(Candidate(move, r0, i)))
    && (forall i: nat | i < b :: TriedValue(m, g, logNT, move, r0, i) < TriedValue(m, g, logNT, move, r0, b))
    && (forall i: nat | i <= n :: TriedValue(m, g, logNT, move, r0, i) <= TriedValue(m, g, logNT, move, r0, b))
  }

  ghost function TriedValue(m: Libm, g: ImageDouble, logNT: real, move: Move, r0: Rect, i: nat): real
    requires g.Valid() && Usable(Candidate(move, r0, i))
  {
    RectValue(m, Candidate(move, r0, i), g, logNT)
  }

  ghost predicate FirstBest(m: Libm, g: ImageDouble, logNT: real, move: Move, r0: Rect, r: Rect, n: nat)
    requires g.Valid()
  {
    exists b: nat :: FirstBestAt(m, g, logNT, move, r0, b, n) && r == Candidate(move, r0, b)
  }

  /** One loop of rect_improve: five rounds of the same move, keeping the best rectangle. */
  method TryFive(m: Libm, move: Move, rec0: Rect, g: ImageDouble, logNT: real, logNfa0: real, table: Inverses,
                 ghost r0: Rect, ghost k0: nat, ghost j0: nat)
    returns (rec: Rect, logNfa: real, ghost k: nat, ghost j: nat)
    requires g.Valid() && table.Valid() && move in MOVES
    requires Variant(r0, rec0, k0, j0) && logNfa0 == RectValue(m, rec0, g, logNT)
    modifies table.inv
    ensures table.Valid() && Variant(r0, rec, k, j) && logNfa == RectValue(m, rec, g, logNT)
    ensures FirstBest(m, g, logNT, move, rec0, rec, 5)
    ensures if move.Precision? then k0 <= k <= k0 + 5 && j == j0 else k == k0 && j0 <= j <= j0 + 5
  {
    hide RectValue, Variant, Apply, Candidate, FirstBest, Usable;
    rec, logNfa, k, j := rec0, logNfa0, k0, j0;
    BestStart(m, g, logNT, move, r0, rec0, k0, j0);
    var r := rec0;
    ghost var kr: nat, jr: nat := k0, j0;
    var n := 0;
    while n < 5
      invariant 0 <= n <= 5 && table.Valid()
      invariant if move.Precision? then kr == k0 + n && jr == j0 else kr == k0 && j0 <= jr <= j0 + n
      invariant Variant(r0, r, kr, jr) && Usable(r) && r == Candidate(move, rec0, n)
      invariant Variant(r0, rec, k, j) && Usable(rec) && logNfa == RectValue(m, rec, g, logNT)
      invariant FirstBest(m, g, logNT, move, rec0, rec, n)
      invariant if move.Precision? then k0 <= k <= k0 + n && j == j0 else k == k0 && j0 <= j <= j0 + n
    {
      BestBound(m, g, logNT, move, rec0, rec, n);
      CandidateStep(move, rec0, n);
      ghost var best := rec;
      if Possible(move, r) {
        MoveVariant(r0, r, kr, jr, move);
        r := Apply(move, r);
        kr, jr := if move.Precision? then kr + 1 else kr, if move.Precision? then jr else jr + 1;
        VariantUsable(r0, r, kr, jr);
        var logNfaNew := RectNfa(m, r, g, logNT, table);
        if logNfaNew > logNfa {
          logNfa, rec := logNfaNew, r;
          k, j := kr, jr;
        }
      }
      BestStep(m, g, logNT, move, rec0, best, n);
      n := n + 1;
    }
  }

  lemma BestStart(m: Libm, g: ImageDouble, logNT: real, move: Move, r0: Rect, r: Rect, k: nat, j: nat)
    requires g.Valid() && Variant(r0, r, k, j)
    ensures Usable(r) && FirstBest(m, g, logNT, move, r, r, 0) && Candidate(move, r, 0) == r
  {
    assert FirstBestAt(m, g, logNT, move, r, 0, 0);
  }

  lemma CandidateStep(move: Move, r: Rect, n: nat)
    ensures var c := Candidate(move, r, n);
            Candidate(move, r, n + 1) == if Possible(move, c) then Apply(move, c) else c
  {
  }

  lemma VariantUsable(r0: Rect, r: Rect, k: nat, j: nat)
    requires Variant(r0, r, k, j)
    ensures Usable(r)
  {
  }

  lemma BestStep(m: Libm, g: ImageDouble, logNT: real, move: Move, r0: Rect, r: Rect, n: nat)
    requires g.Valid() && FirstBest(m, g, logNT, move, r0, r, n) && Usable(Candidate(move, r0, n + 1)) && Usable(r)
    ensures var c := Candidate(move, r0, n + 1);
            FirstBest(m, g, logNT, move, r0,
                      if RectValue(m, c, g, logNT) > RectValue(m, r, g, logNT) then c else r, n + 1)
  {
    hide RectValue, Usable, Candidate;
    var b: nat :| FirstBestAt(m, g, logNT, move, r0, b, n) && r == Candidate(move, r0, b);
    BestAtStep(m, g, logNT, move, r0, b, n);
  }

  lemma BestAtStep(m: Libm, g: ImageDouble, logNT: real, move: Move, r0: Rect, b: nat, n: nat)
    requires g.Valid() && FirstBestAt(m, g, logNT, move, r0, b, n) && Usable(Candidate(move, r0, n + 1))
    ensures if TriedValue(m, g, logNT, move, r0, n + 1) > TriedValue(m, g, logNT, move, r0, b)
            then FirstBestAt(m, g, logNT, move, r0, n + 1, n + 1)
            else FirstBestAt(m, g, logNT, move, r0, b, n + 1)
  {
    hide TriedValue, Usable, Candidate;
  }

  /** No rectangle tried so far has a higher value than the best. */
  lemma BestBound(m: Libm, g: ImageDouble, logNT: real, move: Move, r0: Rect, r: Rect, n: nat)
    requires g.Valid() && FirstBest(m, g, logNT, move, r0, r, n) && Usable(Candidate(move, r0, n)) && Usable(r)
    ensures RectValue(m, Candidate(move, r0, n), g, logNT) <= RectValue(m, r, g, logNT)
  {
    hide RectValue, Usable, Candidate;
    var b: nat :| FirstBestAt(m, g, logNT, move, r0, b, n) && r == Candidate(move, r0, b);
    assert TriedValue(m, g, logNT, move, r0, n) <= TriedValue(m, g, logNT, move, r0, b);
  }

  /** A run of the search: stage after stage from the initial rectangle, each keeping the best of
      its move, going on while the value is not above log_eps. */
  ghost predicate Climb(m: Libm, g: ImageDouble, logNT: real, logEps: real, stages: seq<Rect>)
    requires g.Valid()
  {
    && 1 <= |stages| <= 6
    && (forall i | 0 <= i < |stages| :: Usable(stages[i]))
    && (forall i | 0 <= i < |stages| - 1 ::
          RectValue(m, stages[i], g, logNT) <= logEps
          && FirstBest(m, g, logNT, MOVES[i], stages[i], stages[i + 1], 5))
  }

  lemma ClimbStep(m: Libm, g: ImageDouble, logNT: real, logEps: real, stages: seq<Rect>, next: Rect)
    requires g.Valid() && Climb(m, g, logNT, logEps, stages) && |stages| < 6 && Usable(next)
    requires var last := stages[|stages| - 1];
             RectValue(m, last, g, logNT) <= logEps && FirstBest(m, g, logNT, MOVES[|stages| - 1], last, next, 5)
    ensures Climb(m, g, logNT, logEps, stages + [next])
  {
    hide RectValue, Usable, FirstBest;
  }

  /** No stage loses value. */
  lemma {:induction false} ClimbNeverWorse(m: Libm, g: ImageDouble, logNT: real, logEps: real, stages: seq<Rect>)
    requires g.Valid() && Climb(m, g, logNT, logEps, stages)
    ensures RectValue(m, stages[0], g, logNT) <= RectValue(m, stages[|stages| - 1], g, logNT)
  {
    hide RectValue, Usable;
    if |stages| > 1 {
      var t, n := stages[..|stages| - 1], |stages| - 2;
      ClimbNeverWorse(m, g, logNT, logEps, t);
      assert FirstBest(m, g, logNT, MOVES[n], stages[n], stages[n + 1], 5);
      var b: nat :| FirstBestAt(m, g, logNT, MOVES[n], stages[n], b, 5)
                    && stages[n + 1] == Candidate(MOVES[n], stages[n], b);
      assert Candidate(MOVES[n], stages[n], 0) == stages[n];
      hide Candidate;
      assert TriedValue(m, g, logNT, MOVES[n], stages[n], 0) <= TriedValue(m, g, logNT, MOVES[n], stages[n], b);
    }
  }

  lemma FirstBestUnique(m: Libm, g: ImageDouble, logNT: real, move: Move, r0: Rect, r1: Rect, r2: Rect, n: nat)
    requires g.Valid() && FirstBest(m, g, logNT, move, r0, r1, n) && FirstBest(m, g, logNT, move, r0, r2, n)
    ensures r1 == r2
  {
    hide TriedValue, Candidate, Usable;
    var b1: nat :| FirstBestAt(m, g, logNT, move, r0, b1, n) && r1 == Candidate(move, r0, b1);
    var b2: nat :| FirstBestAt(m, g, logNT, move, r0, b2, n) && r2 == Candidate(move, r0, b2);
    BestAtUnique(m, g, logNT, move, r0, b1, b2, n);
  }

  lemma BestAtUnique(m: Libm, g: ImageDouble, logNT: real, move: Move, r0: Rect, b1: nat, b2: nat, n: nat)
    requires g.Valid() && FirstBestAt(m, g, logNT, move, r0, b1, n) && FirstBestAt(m, g, logNT, move, r0, b2, n)
    ensures b1 == b2
  {
    hide TriedValue, Candidate, Usable;
    var v1, v2 := TriedValue(m, g, logNT, move, r0, b1), TriedValue(m, g, logNT, move, r0, b2);
    assert v1 <= v2 && v2 <= v1;
  }

  /** Two runs of the search from one rectangle agree as far as both go. */
  lemma {:induction false} ClimbAgrees(m: Libm, g: ImageDouble, logNT: real, logEps: real, a: seq<Rect>,
                                       b: seq<Rect>, i: nat)
    requires g.Valid() && Climb(m, g, logNT, logEps, a) && Climb(m, g, logNT, logEps, b) && a[0] == b[0]
    requires i < |a| && i < |b|
    ensures a[i] == b[i]
  {
    hide FirstBest, RectValue, Usable;
    if i > 0 {
      ClimbAgrees(m, g, logNT, logEps, a, b, i - 1);
      assert FirstBest(m, g, logNT, MOVES[i - 1], a[i - 1], a[i - 1 + 1], 5);
      assert FirstBest(m, g, logNT, MOVES[i - 1], b[i - 1], b[i - 1 + 1], 5);
      FirstBestUnique(m, g, logNT, MOVES[i - 1], a[i - 1], a[i], b[i], 5);
    }
  }

  /** The search ends when the threshold is passed or the moves are used up. */
  ghost predicate Finished(m: Libm, g: ImageDouble, logNT: real, logEps: real, stages: seq<Rect>)
    requires g.Valid()
  {
    Climb(m, g, logNT, logEps, stages)
    && (|stages| < 6 ==> RectValue(m, stages[|stages| - 1], g, logNT) > logEps)
  }

  /** A search refuses its rectangle if and only if none of the rectangles of the five stages, five rounds each, has
      a value above the threshold. */
  lemma RefusedExactly(m: Libm, g: ImageDouble, logNT: real, logEps: real, stages: seq<Rect>)
    requires g.Valid() && Finished(m, g, logNT, logEps, stages)
    ensures RectValue(m, stages[|stages| - 1], g, logNT) <= logEps <==>
            |stages| == 6 && forall i, n: nat | 0 <= i < 5 && n <= 5 ::
              Usable(Candidate(MOVES[i], stages[i], n))
              && RectValue(m, Candidate(MOVES[i], stages[i], n), g, logNT) <= logEps
  {
    hide RectValue, Usable, Candidate, FirstBest;
    if RectValue(m, stages[|stages| - 1], g, logNT) <= logEps {
      forall i | 0 <= i < 5
        ensures forall n: nat | n <= 5 ::
                  Usable(Candidate(MOVES[i], stages[i], n))
                  && RectValue(m, Candidate(MOVES[i], stages[i], n), g, logNT) <= logEps
      {
        assert FirstBest(m, g, logNT, MOVES[i], stages[i], stages[i + 1], 5);
        assert RectValue(m, stages[i + 1], g, logNT) <= logEps by {
          assert i + 1 == |stages| - 1 || i + 1 < |stages| - 1;
        }
        var b := BestIsFirst(m, g, logNT, MOVES[i], stages[i], stages[i + 1], 5);
      }
    } else if |stages| == 6 {
      assert FirstBest(m, g, logNT, MOVES[4], stages[4], stages[4 + 1], 5);
      var b := BestIsFirst(m, g, logNT, MOVES[4], stages[4], stages[5], 5);
    }
  }

  /** The rectangle that a stage keeps is one of those it tried, none is better, and all before it are worse. */
  lemma BestIsFirst(m: Libm, g: ImageDouble, logNT: real, move: Move, r0: Rect, r: Rect, n: nat) returns (b: nat)
    requires g.Valid() && FirstBest(m, g, logNT, move, r0, r, n) && Usable(r)
    ensures b <= n && r == Candidate(move, r0, b)
    ensures forall i: nat | i <= n :: Usable(Candidate(move, r0, i))
    ensures forall i: nat | i <= n :: RectValue(m, Candidate(move, r0, i), g, logNT) <= RectValue(m, r, g, logNT)
    ensures forall i: nat | i < b :: RectValue(m, Candidate(move, r0, i), g, logNT) < RectValue(m, r, g, logNT)
  {
    hide RectValue, Usable, Candidate;
    b :| FirstBestAt(m, g, logNT, move, r0, b, n) && r == Candidate(move, r0, b);
    forall i: nat | i <= n
      ensures Usable(Candidate(move, r0, i))
      ensures RectValue(m, Candidate(move, r0, i), g, logNT) <= RectValue(m, r, g, logNT)
      ensures i < b ==> RectValue(m, Candidate(move, r0, i), g, logNT) < RectValue(m, r, g, logNT)
    {
      assert TriedValue(m, g, logNT, move, r0, i) <= TriedValue(m, g, logNT, move, r0, b);
      assert i < b ==> TriedValue(m, g, logNT, move, r0, i) < TriedValue(m, g, logNT, move, r0, b);
    }
  }

  /** A finished search has one outcome only. */
  lemma ClimbUnique(m: Libm, g: ImageDouble, logNT: real, logEps: real, a: seq<Rect>, b: seq<Rect>)
    requires g.Valid() && Finished(m, g, logNT, logEps, a) && Finished(m, g, logNT, logEps, b) && a[0] == b[0]
    ensures a == b
  {
    hide FirstBest, RectValue, Usable;
    var n := if |a| < |b| then |a| - 1 else |b| - 1;
    ClimbAgrees(m, g, logNT, logEps, a, b, n);
    forall i | 0 <= i <= n
      ensures a[i] == b[i]
    {
      ClimbAgrees(m, g, logNT, logEps, a, b, i);
    }
  }

  /** A variant after at most 10 halvings of the precision and 15 cuts. */
  ghost predicate Reachable(r0: Rect, r: Rect) {
    exists k: nat, j: nat :: k <= 10 && j <= 15 && Variant(r0, r, k, j)
  }

  method RectImprove(m: Libm, rec0: Rect, g: ImageDouble, logNT: real, logEps: real, table: Inverses)
    returns (rec: Rect, logNfa: real, ghost stages: seq<Rect>)
    requires g.Valid() && Usable(rec0) && table.Valid()
    modifies table.inv
    ensures table.Valid() && Usable(rec) && logNfa == RectValue(m, rec, g, logNT)
    ensures logNfa >= RectValue(m, rec0, g, logNT)
    ensures Reachable(rec0, rec)
    ensures Climb(m, g, logNT, logEps, stages) && stages[0] == rec0 && stages[|stages| - 1] == rec
    ensures |stages| < 6 ==> logNfa > logEps
  {
    hide RectValue, Variant, FirstBest, Usable, Climb;
    ghost var k, j := 0, 0;
    rec, stages := rec0, [rec0];
    logNfa := RectNfa(m, rec, g, logNT, table);
    StartClimb(m, g, logNT, logEps, rec0);
    if logNfa > logEps {
      return;
    }

    // half the precision
    rec, logNfa, k, j, stages := Stage(m, 0, rec, g, logNT, logEps, logNfa, table, rec0, k, j, stages);
    if logNfa > logEps {
      return;
    }

    // a narrower rectangle
    rec, logNfa, k, j, stages := Stage(m, 1, rec, g, logNT, logEps, logNfa, table, rec0, k, j, stages);
    if logNfa > logEps {
      return;
    }

    // cut on the left
    rec, logNfa, k, j, stages := Stage(m, 2, rec, g, logNT, logEps, logNfa, table, rec0, k, j, stages);
    if logNfa > logEps {
      return;
    }

    // cut on the right
    rec, logNfa, k, j, stages := Stage(m, 3, rec, g, logNT, logEps, logNfa, table, rec0, k, j, stages);
    if logNfa > logEps {
      return;
    }

    // half the precision again
    rec, logNfa, k, j, stages := Stage(m, 4, rec, g, logNT, logEps, logNfa, table, rec0, k, j, stages);
  }

  /** Where the search stands: the last stage and its value. */
  ghost predicate Climbing(m: Libm, g: ImageDouble, logNT: real, logEps: real, r0: Rect, rec: Rect,
                           logNfa: real, k: nat, j: nat, stages: seq<Rect>)
    requires g.Valid()
  {
    && Climb(m, g, logNT, logEps, stages) && stages[0] == r0 && stages[|stages| - 1] == rec
    && Variant(r0, rec, k, j) && Usable(rec) && logNfa == RectValue(m, rec, g, logNT)
  }

  /** One stage of the search, with the bookkeeping of the run. */
  method Stage(m: Libm, n: nat, rec0: Rect, g: ImageDouble, logNT: real, logEps: real, logNfa0: real,
               table: Inverses, ghost r0: Rect, ghost k0: nat, ghost j0: nat, ghost stages0: seq<Rect>)
    returns (rec: Rect, logNfa: real, ghost k: nat, ghost j: nat, ghost stages: seq<Rect>)
    requires g.Valid() && table.Valid() && n < 5 && |stages0| == n + 1 && logNfa0 <= logEps
    requires Climbing(m, g, logNT, logEps, r0, rec0, logNfa0, k0, j0, stages0)
    modifies table.inv
    ensures table.Valid() && Climbing(m, g, logNT, logEps, r0, rec, logNfa, k, j, stages)
    ensures |stages| == n + 2
    ensures if MOVES[n].Precision? then k <= k0 + 5 && j == j0 else k == k0 && j <= j0 + 5
    ensures RectValue(m, r0, g, logNT) <= logNfa
  {
    hide RectValue, Variant, FirstBest, Usable, Climb;
    rec, logNfa, k, j := TryFive(m, MOVES[n], rec0, g, logNT, logNfa0, table, r0, k0, j0);
    VariantUsable(r0, rec, k, j);
    ClimbStep(m, g, logNT, logEps, stages0, rec);
    stages := stages0 + [rec];
    ClimbNeverWorse(m, g, logNT, logEps, stages);
  }

  lemma StartClimb(m: Libm, g: ImageDouble, logNT: real, logEps: real, r0: Rect)
    requires g.Valid() && Usable(r0)
    ensures Climb(m, g, logNT, logEps, [r0]) && Variant(r0, r0, 0, 0)
  {
  }
}
