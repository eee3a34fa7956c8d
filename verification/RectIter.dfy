/** Enumeration of the pixels of a rotated rectangle (lsd.cpp: rect_iter, ri_ini, ri_inc, ri_end). */
module RectIter {
  import opened MathLib
  import opened Pixels
  import opened Rectangle
  import opened Quad

  /** The corner c of the rectangle, lines 1426-1433. */
  function Corner(r: Rect, c: int): Vec
    requires 0 <= c < 4
  {
    var h := HalfWidth(r);
    if c == 0 then Vec(r.x1 - h.x, r.y1 + h.y)
    else if c == 1 then Vec(r.x2 - h.x, r.y2 + h.y)
    else if c == 2 then Vec(r.x2 + h.x, r.y2 - h.y)
    else Vec(r.x1 + h.x, r.y1 - h.y)
  }

  function HalfWidth(r: Rect): Vec {
    Vec(r.dy * r.width / 2.0, r.dx * r.width / 2.0)
  }

  /** Rotation of the corners that puts the leftmost one first, lines 1441-1444. */
  function Offset(r: Rect): int {
    if r.x1 < r.x2 && r.y1 <= r.y2 then 0
    else if r.x1 >= r.x2 && r.y1 < r.y2 then 1
    else if r.x1 > r.x2 && r.y1 >= r.y2 then 2
    else 3
  }

  function Corners(r: Rect): Quad {
    var o := Offset(r);
    Quad(Corner(r, o % 4), Corner(r, (o + 1) % 4), Corner(r, (o + 2) % 4), Corner(r, (o + 3) % 4))
  }

  /** A vector given by its components along and across a direction (dx,dy). */
  function InFrame(dx: real, dy: real, u: real, v: real): Vec {
    Vec(u * dx - v * dy, u * dy + v * dx)
  }

  /** Components of a vector along and across (dx,dy). */
  function AlongOf(p: Vec, dx: real, dy: real): real {
    p.x * dx + p.y * dy
  }

  function AcrossOf(p: Vec, dx: real, dy: real): real {
    p.y * dx - p.x * dy
  }

  function Det(u: real, v: real, pu: real, pv: real): real {
    u * pv - v * pu
  }

  lemma FrameCross(dx: real, dy: real, u: real, v: real, p: Vec)
    ensures Cross(InFrame(dx, dy, u, v), p) == Det(u, v, AlongOf(p, dx, dy), AcrossOf(p, dx, dy))
  {
  }

  lemma CrossSwap(a: Vec, b: Vec)
    ensures Cross(a, b) == -Cross(b, a)
  {
  }

  lemma FrameArea(dx: real, dy: real, u: real, v: real, u': real, v': real)
    requires dx * dx + dy * dy == 1.0
    ensures Cross(InFrame(dx, dy, u, v), InFrame(dx, dy, u', v')) == u * v' - v * u'
  {
    assert Cross(InFrame(dx, dy, u, v), InFrame(dx, dy, u', v')) == (u * v' - v * u') * (dx * dx + dy * dy);
  }

  /** The two sides that leave the first corner, in the frame of the rectangle. */
  function SideA(r: Rect): (real, real) {
    var o, l, w := Offset(r), r.Length(), r.width;
    if o == 0 then (0.0, -w) else if o == 1 then (-l, 0.0) else if o == 2 then (0.0, w) else (l, 0.0)
  }

  function SideB(r: Rect): (real, real) {
    var o, l, w := Offset(r), r.Length(), r.width;
    if o == 0 then (l, 0.0) else if o == 1 then (0.0, -w) else if o == 2 then (-l, 0.0) else (0.0, w)
  }

  function Neg(v: Vec): Vec { Vec(-v.x, -v.y) }

  lemma SidesOfCorners(r: Rect)
    ensures var q, o, l, h := Corners(r), Offset(r), Vec(r.x2 - r.x1, r.y2 - r.y1), HalfWidth(r);
            var w := Vec(2.0 * h.x, -2.0 * h.y);
            && q.v2 == Add(q.v0, Add(q.A(), q.B()))
            && q.A() == (if o == 0 then w else if o == 1 then Neg(l) else if o == 2 then Neg(w) else l)
            && q.B() == (if o == 0 then l else if o == 1 then w else if o == 2 then Neg(l) else Neg(w))
  {
    hide HalfWidth;
  }

  lemma LengthInFrame(r: Rect, l: real, w: real)
    requires r.Oriented() && l == r.Length() && w == r.width
    ensures Vec(r.x2 - r.x1, r.y2 - r.y1) == InFrame(r.dx, r.dy, l, 0.0)
    ensures Neg(Vec(r.x2 - r.x1, r.y2 - r.y1)) == InFrame(r.dx, r.dy, -l, 0.0)
    ensures var h := HalfWidth(r);
            && Vec(2.0 * h.x, -2.0 * h.y) == InFrame(r.dx, r.dy, 0.0, -w)
            && Neg(Vec(2.0 * h.x, -2.0 * h.y)) == InFrame(r.dx, r.dy, 0.0, w)
  {
  }

  lemma SidesInFrame(r: Rect)
    requires r.Oriented()
    ensures var q := Corners(r);
            && q.A() == InFrame(r.dx, r.dy, SideA(r).0, SideA(r).1)
            && q.B() == InFrame(r.dx, r.dy, SideB(r).0, SideB(r).1)
            && q.v2 == Add(q.v0, Add(q.A(), q.B()))
  {
    hide InFrame, HalfWidth, Corners, Rect.Length, Rect.Oriented, Quad.A, Quad.B, Offset, Neg;
    SidesOfCorners(r);
    LengthInFrame(r, r.Length(), r.width);
  }

  /** The first corner is leftmost: both sides run to the right. */
  lemma SidesRunRight(r: Rect)
    requires r.Oriented() && r.Length() > 0.0
    ensures var a, b := SideA(r), SideB(r);
            InFrame(r.dx, r.dy, a.0, a.1).x >= 0.0 && InFrame(r.dx, r.dy, b.0, b.1).x >= 0.0
    ensures var a, b := SideA(r), SideB(r); a.0 * b.1 - a.1 * b.0 == r.Length() * r.width
  {
    var l := r.Length();
    assert r.x2 - r.x1 == l * r.dx && r.y2 - r.y1 == l * r.dy;
    Signs(l, r.dx);
    Signs(l, r.dy);
    RunRight(Offset(r), l, r.width, r.dx, r.dy, SideA(r), SideB(r));
  }

  lemma RunRight(o: int, l: real, w: real, dx: real, dy: real, a: (real, real), b: (real, real))
    requires l > 0.0 && w > 0.0
    requires || (o == 0 && dx > 0.0 && dy >= 0.0 && a == (0.0, -w) && b == (l, 0.0))
             || (o == 1 && dx <= 0.0 && dy > 0.0 && a == (-l, 0.0) && b == (0.0, -w))
             || (o == 2 && dx < 0.0 && dy <= 0.0 && a == (0.0, w) && b == (-l, 0.0))
             || (o == 3 && dx >= 0.0 && dy <= 0.0 && a == (l, 0.0) && b == (0.0, w))
    ensures InFrame(dx, dy, a.0, a.1).x >= 0.0 && InFrame(dx, dy, b.0, b.1).x >= 0.0
    ensures a.0 * b.1 - a.1 * b.0 == l * w
  {
    Signs(l, dx);
    Signs(w, dy);
  }

  /** With positive length the corners form a parallelogram in the order ri_ini wants:
      the first one leftmost, whatever the orientation, axis-parallel ones included. */
  lemma CornersValid(r: Rect)
    requires r.Oriented() && r.Length() > 0.0
    ensures Corners(r).Valid() && Corners(r).Area() == r.Length() * r.width
  {
    hide InFrame, SideA, SideB, Corners;
    SidesInFrame(r);
    SidesRunRight(r);
    var a, b := SideA(r), SideB(r);
    FrameArea(r.dx, r.dy, a.0, a.1, b.0, b.1);
    MulPos(r.Length(), r.width);
  }

  lemma Signs(l: real, d: real)
    requires l > 0.0
    ensures l * d > 0.0 <==> d > 0.0
    ensures l * d < 0.0 <==> d < 0.0
  {
    if d > 0.0 {
      MulPos(l, d);
    } else if d < 0.0 {
      MulPos(l, -d);
    }
  }

  /** Position of the first corner along and across the segment. */
  function Start(r: Rect): (real, real) {
    var o, l, w := Offset(r), r.Length(), r.width / 2.0;
    if o == 0 then (0.0, w) else if o == 1 then (l, w) else if o == 2 then (l, -w) else (0.0, -w)
  }

  lemma FramePosition(dx: real, dy: real, u: real, v: real)
    requires dx * dx + dy * dy == 1.0
    ensures var p := InFrame(dx, dy, u, v); AlongOf(p, dx, dy) == u && AcrossOf(p, dx, dy) == v
  {
    assert (u * dx - v * dy) * dx + (u * dy + v * dx) * dy == u * (dx * dx + dy * dy);
    assert (u * dy + v * dx) * dx - (u * dx - v * dy) * dy == v * (dx * dx + dy * dy);
  }

  lemma StartInFrame(r: Rect)
    requires r.Oriented()
    ensures Sub(Corners(r).v0, Vec(r.x1, r.y1)) == InFrame(r.dx, r.dy, Start(r).0, Start(r).1)
  {
    StartFromEnds(r);
    HalfInFrame(r, r.Length(), r.width / 2.0);
    hide InFrame, HalfWidth, Corners, Rect.Length, Rect.Oriented, Offset, Add;
  }

  lemma StartFromEnds(r: Rect)
    ensures var o, h, d := Offset(r), HalfWidth(r), Sub(Corners(r).v0, Vec(r.x1, r.y1));
            var l := Vec(r.x2 - r.x1, r.y2 - r.y1);
            d == if o == 0 then Vec(-h.x, h.y)
                 else if o == 1 then Add(l, Vec(-h.x, h.y))
                 else if o == 2 then Add(l, Vec(h.x, -h.y))
                 else Vec(h.x, -h.y)
  {
    hide HalfWidth;
  }

  lemma HalfInFrame(r: Rect, l: real, w: real)
    requires r.Oriented() && l == r.Length() && w == r.width / 2.0
    ensures var h, d := HalfWidth(r), Vec(r.x2 - r.x1, r.y2 - r.y1);
            && Vec(-h.x, h.y) == InFrame(r.dx, r.dy, 0.0, w)
            && Vec(h.x, -h.y) == InFrame(r.dx, r.dy, 0.0, -w)
            && Add(d, Vec(-h.x, h.y)) == InFrame(r.dx, r.dy, l, w)
            && Add(d, Vec(h.x, -h.y)) == InFrame(r.dx, r.dy, l, -w)
  {
  }

  lemma ScaledRange(k: real, t: real, n: real)
    requires k > 0.0
    ensures 0.0 <= Product(k, t) <= Product(k, n) <==> 0.0 <= t <= n
  {
    Signs(k, t);
    Signs(k, n - t);
    assert k * (n - t) == k * n - k * t;
  }

  /** Positions of a point relative to the first corner, along and across. */
  lemma Relative(r: Rect, p: Vec)
    requires r.Oriented()
    ensures var d := Sub(p, Corners(r).v0);
            && AlongOf(d, r.dx, r.dy) == r.Along(p.x, p.y) - Start(r).0
            && AcrossOf(d, r.dx, r.dy) == r.Across(p.x, p.y) - Start(r).1
  {
    hide Corners, InFrame, Start, Rect.Length, Rect.Oriented;
    OrientedFacts(r);
    StartInFrame(r);
    FramePosition(r.dx, r.dy, Start(r).0, Start(r).1);
    var c, o := Corners(r).v0, Vec(r.x1, r.y1);
    DotSplit(Sub(p, o), Sub(c, o), Sub(p, c), r.dx, r.dy);
  }

  lemma OrientedFacts(r: Rect)
    requires r.Oriented()
    ensures r.dx * r.dx + r.dy * r.dy == 1.0 && r.width > 0.0
  {
  }

  lemma DotSplit(a: Vec, b: Vec, d: Vec, dx: real, dy: real)
    requires d == Sub(a, b)
    ensures AlongOf(d, dx, dy) == AlongOf(a, dx, dy) - AlongOf(b, dx, dy)
    ensures AcrossOf(d, dx, dy) == AcrossOf(a, dx, dy) - AcrossOf(b, dx, dy)
  {
  }

  /** The parallelogram of the corners is the closed rectangle. */
  lemma CornersContain(r: Rect, p: Vec)
    requires r.Oriented() && r.Length() > 0.0
    ensures Corners(r).Contains(p) <==> r.Contains(p.x, p.y)
  {
    hide Corners, InFrame, Rect.Along, Rect.Across, Rect.Length, Rect.Oriented, Cross, Offset, Quad.Valid, Quad.A,
         Quad.B, Det, AlongOf, AcrossOf;
    OrientedFacts(r);
    CornersValid(r);
    SidesInFrame(r);
    Relative(r, p);
    var a, b, d := SideA(r), SideB(r), Sub(p, Corners(r).v0);
    FrameCross(r.dx, r.dy, a.0, a.1, d);
    FrameCross(r.dx, r.dy, b.0, b.1, d);
    CrossSwap(d, Corners(r).B());
    ByOffset(Offset(r), r.Length(), r.width, r.Along(p.x, p.y), r.Across(p.x, p.y), Start(r), a, b);
  }

  lemma ByOffset(o: int, l: real, w: real, u: real, v: real, c: (real, real), a: (real, real), b: (real, real))
    requires l > 0.0 && w > 0.0
    requires if o == 0 then c == (0.0, w / 2.0) && a == (0.0, -w) && b == (l, 0.0)
             else if o == 1 then c == (l, w / 2.0) && a == (-l, 0.0) && b == (0.0, -w)
             else if o == 2 then c == (l, -(w / 2.0)) && a == (0.0, w) && b == (-l, 0.0)
             else c == (0.0, -(w / 2.0)) && a == (l, 0.0) && b == (0.0, w)
    ensures var pu, pv := u - c.0, v - c.1;
            0.0 <= Det(a.0, a.1, pu, pv) <= l * w && 0.0 <= -Det(b.0, b.1, pu, pv) <= l * w
            <==> 0.0 <= u <= l && -w / 2.0 <= v <= w / 2.0
  {
    var pu, pv := u - c.0, v - c.1;
    DetsByOffset(o, l, w, u, v, pu, pv, a, b);
    ScaledRange(w, u, l);
    ScaledRange(w, l - u, l);
    ScaledRange(l, w / 2.0 - v, w);
    ScaledRange(l, v + w / 2.0, w);
    assert Product(l, w) == l * w && Product(w, l) == l * w;
    hide Det, Product;
  }

  /** Each side measures one coordinate of the point, from one end. */
  lemma DetsByOffset(o: int, l: real, w: real, u: real, v: real, pu: real, pv: real, a: (real, real), b: (real, real))
    requires if o == 0 then pu == u && pv == v - w / 2.0 && a == (0.0, -w) && b == (l, 0.0)
             else if o == 1 then pu == u - l && pv == v - w / 2.0 && a == (-l, 0.0) && b == (0.0, -w)
             else if o == 2 then pu == u - l && pv == v + w / 2.0 && a == (0.0, w) && b == (-l, 0.0)
             else pu == u && pv == v + w / 2.0 && a == (l, 0.0) && b == (0.0, w)
    ensures var da, db := Det(a.0, a.1, pu, pv), -Det(b.0, b.1, pu, pv);
            if o == 0 then da == Product(w, u) && db == Product(l, w / 2.0 - v)
            else if o == 1 then da == Product(l, w / 2.0 - v) && db == Product(w, l - u)
            else if o == 2 then da == Product(w, l - u) && db == Product(l, v + w / 2.0)
            else da == Product(l, v + w / 2.0) && db == Product(w, u)
  {
  }

  /** Column by column, upward in each column. */
  predicate Before(p: Point, q: Point) {
    p.x < q.x || (p.x == q.x && p.y < q.y)
  }

  function AsVec(p: Point): Vec { Vec(p.x as real, p.y as real) }

  /** No pixel of the quad lies after `a` and before `b`. */
  ghost predicate Gapless(q: Quad, a: Point, b: Point) {
    forall p: Point | q.Contains(AsVec(p)) && Before(a, p) :: !Before(p, b)
  }

  /** The limits of column x are set and y has not fallen below the lower one. */
  predicate InColumn(q: Quad, x: int, y: int, ys: real, ye: real) {
    && q.v0.x <= x as real <= q.v2.x
    && (if x as real < q.v3.x then Edge(x as real, q.v0, q.v3) else Edge(x as real, q.v3, q.v2))
    && (if x as real < q.v1.x then Edge(x as real, q.v0, q.v1) else Edge(x as real, q.v1, q.v2))
    && ys == q.Low(x as real) && ye == q.High(x as real) && ys <= y as real
  }

  lemma NextInColumn(q: Quad, a: Point)
    ensures Gapless(q, a, Point(a.x, a.y + 1))
  {
  }

  /** Past the upper limit the column holds nothing more; nor does a column left of the quad. */
  lemma ColumnDone(q: Quad, a: Point, x: int, y: int, ys: real, ye: real)
    requires q.Valid() && Gapless(q, a, Point(x, y)) && y as real > ye
    requires InColumn(q, x, y, ys, ye) || x as real < q.v0.x
    ensures forall p: Point | q.Contains(AsVec(p)) && Before(a, p) :: p.x >= x + 1
  {
    forall p: Point | q.Contains(AsVec(p)) && Before(a, p)
      ensures p.x >= x + 1
    {
      NoSliceOutside(q, AsVec(p));
      if p.x == x {
        Slice(q, x as real, p.y as real);
      }
    }
  }

  /** The first pixel of a column is at the rounded lower limit. */
  lemma ColumnStarts(q: Quad, a: Point, x: int, low: real)
    requires q.Valid() && q.v0.x <= x as real <= q.v2.x
    requires forall p: Point | q.Contains(AsVec(p)) && Before(a, p) :: p.x >= x
    requires if x as real < q.v3.x then Edge(x as real, q.v0, q.v3) else Edge(x as real, q.v3, q.v2)
    requires low == q.Low(x as real)
    ensures Gapless(q, a, Point(x, Ceil(low)))
  {
    forall p: Point | q.Contains(AsVec(p)) && Before(a, p)
      ensures !Before(p, Point(x, Ceil(low)))
    {
      if p.x == x {
        Slice(q, x as real, p.y as real);
      }
    }
  }

  lemma PastEnd(q: Quad, x: int)
    requires q.Valid() && x as real > q.v2.x
    ensures forall p: Point | q.Contains(AsVec(p)) :: p.x < x
  {
    forall p: Point | q.Contains(AsVec(p))
      ensures p.x < x
    {
      NoSliceOutside(q, AsVec(p));
    }
  }

  class Iterator {
    var quad: Quad    // vx and vy, as points
    var ys: real      // where column x enters the quad
    var ye: real      // ... and where it leaves it
    var x: int        // the pixel that is visited
    var y: int

    /** On a pixel of the quad, with the limits of its column. */
    ghost predicate AtPixel()
      reads this
    {
      InColumn(quad, x, y, ys, ye) && y as real <= ye
    }

    /** Just left of the first column. */
    ghost predicate Fresh()
      reads this
    {
      x == Ceil(quad.v0.x) - 1 && ye <= y as real
    }

    function Pos(): Point
      reads this
    {
      Point(x, y)
    }

    predicate End()
      reads this
    {
      x as real > quad.v2.x
    }

    method Inc()
      requires quad.Valid() && (End() || AtPixel() || Fresh())
      modifies this
      ensures quad == old(quad)
      ensures old(End()) ==> End() && Pos() == old(Pos())
      ensures End() || (AtPixel() && Before(old(Pos()), Pos()) && (x == old(x) ==> ye == old(ye)))
      ensures forall p: Point | quad.Contains(AsVec(p)) && Before(old(Pos()), p) :: !End() && !Before(p, Pos())
    {
      hide Quad.Contains, Quad.Valid, InterLow, InterHi;
      ghost var a := Pos();

      // the next pixel above
      if !End() {
        y := y + 1;
        NextInColumn(quad, a);
      } else {
        PastEnd(quad, x);
      }

      // columns without pixels are passed over
      while y as real > ye && !End()
        invariant quad == old(quad) && (x == old(x) ==> ye == old(ye))
        invariant if old(End()) then End() && Pos() == a else Before(a, Pos())
        invariant old(End()) || InColumn(quad, x, y, ys, ye) || (x == Ceil(quad.v0.x) - 1 && y as real > ye)
        invariant Gapless(quad, a, Pos())
        decreases quad.v2.x.Floor - x
      {
        ColumnDone(quad, a, x, y, ys, ye);

        x := x + 1;

        if End() {
          PastEnd(quad, x);
          return;
        }

        // where the two sides cut the column
        EdgesFit(quad, x as real);
        if x as real < quad.v3.x {
          ys := InterLow(x as real, quad.v0, quad.v3);
        } else {
          ys := InterLow(x as real, quad.v3, quad.v2);
        }
        if x as real < quad.v1.x {
          ye := InterHi(x as real, quad.v0, quad.v1);
        } else {
          ye := InterHi(x as real, quad.v1, quad.v2);
        }
        ColumnStarts(quad, a, x, ys);

        y := Ceil(ys);
      }
    }

    constructor Ini(r: Rect)
      requires r.Oriented() && r.Length() > 0.0
      ensures quad == Corners(r) && quad.Valid()
      ensures AtPixel() || End()
      ensures forall p: Point | r.Contains(p.x as real, p.y as real) :: !End() && !Before(p, Pos())
    {
      hide Rect.Contains, Quad.Contains, Quad.Valid, Rect.Oriented, Rect.Length;
      quad := Corners(r);
      x := Ceil(Corners(r).v0.x) - 1;
      y := Ceil(Corners(r).v0.y);
      // stands for -DBL_MAX: some value below every y that occurs
      ys := Ceil(Corners(r).v0.y) as real - 1.0;
      ye := Ceil(Corners(r).v0.y) as real - 1.0;
      new;
      CornersValid(r);
      forall p: Point | r.Contains(p.x as real, p.y as real)
        ensures quad.Contains(AsVec(p)) && Before(Pos(), p)
      {
        CornersContain(r, AsVec(p));
        NoSliceOutside(quad, AsVec(p));
      }

      // from a place in front of the first column
      Inc();
    }
  }

  /** Everything up to the current pixel has been visited, and nothing else. */
  ghost predicate Visited(r: Rect, seen: set<Point>, end: bool, pos: Point) {
    forall p: Point :: p in seen <==> r.Contains(p.x as real, p.y as real) && (end || Before(p, pos))
  }

  lemma VisitStep(r: Rect, seen: set<Point>, pos: Point, end: bool, next: Point)
    requires r.Oriented() && r.Length() > 0.0
    requires Visited(r, seen, false, pos) && Corners(r).Contains(AsVec(pos))
    requires !end ==> Before(pos, next)
    requires forall p: Point | Corners(r).Contains(AsVec(p)) && Before(pos, p) :: !end && !Before(p, next)
    ensures Visited(r, seen + {pos}, end, next)
  {
    hide Rect.Contains, Quad.Contains, Rect.Oriented, Rect.Length, Corners;
    forall p: Point
      ensures p in seen + {pos} <==> r.Contains(p.x as real, p.y as real) && (end || Before(p, next))
    {
      CornersContain(r, AsVec(p));
      assert Before(p, pos) || p == pos || Before(pos, p);
    }
  }

  lemma CurrentIsInside(q: Quad, x: int, y: int, ys: real, ye: real)
    requires q.Valid() && InColumn(q, x, y, ys, ye) && y as real <= ye
    ensures q.Contains(AsVec(Point(x, y)))
  {
    Slice(q, x as real, y as real);
  }

  /** The pattern in which the iterator is used, lines 1210-1220: it visits every pixel of the
      closed rectangle exactly once, column by column, and no other pixel. */
  method Explore(r: Rect) returns (visited: seq<Point>)
    requires r.Oriented() && r.Length() > 0.0
    ensures forall i, j | 0 <= i < j < |visited| :: Before(visited[i], visited[j])
    ensures forall p: Point :: p in visited <==> r.Contains(p.x as real, p.y as real)
  {
    hide Rect.Contains, Quad.Contains, Rect.Oriented, Rect.Length, Corners, Quad.Valid, InColumn;
    visited := [];
    var it := new Iterator.Ini(r);
    assert Visited(r, {}, it.End(), it.Pos());
    while !it.End()
      invariant fresh(it) && it.quad == Corners(r) && it.quad.Valid() && (it.End() || it.AtPixel())
      invariant Visited(r, Elems(visited), it.End(), it.Pos())
      invariant !it.End() ==> forall i | 0 <= i < |visited| :: Before(visited[i], it.Pos())
      invariant forall i, j | 0 <= i < j < |visited| :: Before(visited[i], visited[j])
      decreases !it.End(), it.quad.v2.x.Floor - it.x, it.ye.Floor - it.y
    {
      ghost var pos := it.Pos();
      CurrentIsInside(it.quad, it.x, it.y, it.ys, it.ye);
      AtPixelBounds(it);
      visited := visited + [Point(it.x, it.y)];
      it.Inc();
      VisitStep(r, Elems(visited[..|visited| - 1]), pos, it.End(), it.Pos());
      assert Elems(visited) == Elems(visited[..|visited| - 1]) + {pos};
      if !it.End() {
        AtPixelBounds(it);
      }
    }
    assert forall p: Point :: p in visited <==> p in Elems(visited);
  }

  /** The current pixel lies left of the last corner and below the upper side. */
  lemma AtPixelBounds(it: Iterator)
    requires it.AtPixel()
    ensures it.x as real <= it.quad.v2.x && it.y as real <= it.ye
  {
  }
}
