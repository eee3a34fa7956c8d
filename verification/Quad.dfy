/** Vertical slices of a parallelogram, by the interpolation of lsd.cpp (inter_low, inter_hi). */
module Quad {
  import opened MathLib

  datatype Vec = Vec(x: real, y: real)

  function Add(a: Vec, b: Vec): Vec { Vec(a.x + b.x, a.y + b.y) }
  function Sub(a: Vec, b: Vec): Vec { Vec(a.x - b.x, a.y - b.y) }
  function Cross(a: Vec, b: Vec): real { a.x * b.y - a.y * b.x }

  /** An edge on which interpolation is possible: run from left to right, not a single point
      (there the source computes 0/0). */
  predicate Edge(x: real, p: Vec, q: Vec) {
    p.x <= x <= q.x && p != q
  }

  function Slope(t: real, h: real, d: real): real
    requires d != 0.0
  {
    t * h / d
  }

  /** The y of the line from p to q at x; the smaller end of a vertical edge. */
  function InterLow(x: real, p: Vec, q: Vec): real
    requires Edge(x, p, q)
  {
    if p.x == q.x && p.y < q.y then p.y
    else if p.x == q.x && p.y > q.y then q.y
    else p.y + Slope(x - p.x, q.y - p.y, q.x - p.x)
  }

  /** The y of the line from p to q at x; the larger end of a vertical edge. */
  function InterHi(x: real, p: Vec, q: Vec): real
    requires Edge(x, p, q)
  {
    if p.x == q.x && p.y < q.y then q.y
    else if p.x == q.x && p.y > q.y then p.y
    else p.y + Slope(x - p.x, q.y - p.y, q.x - p.x)
  }

  /** Four corners in circular order, the leftmost first. */
  datatype Quad = Quad(v0: Vec, v1: Vec, v2: Vec, v3: Vec) {
    /** The sides that leave the first corner downward and upward. */
    function A(): Vec { Sub(v3, v0) }
    function B(): Vec { Sub(v1, v0) }
    function Area(): real { Cross(A(), B()) }

    ghost predicate Valid() {
      v2 == Add(v0, Add(A(), B())) && A().x >= 0.0 && B().x >= 0.0 && Area() > 0.0
    }

    /** Above the two lower sides, below the two upper sides. */
    ghost predicate AboveLower(p: Vec) {
      Cross(A(), Sub(p, v0)) >= 0.0 && Cross(Sub(p, v0), B()) <= Area()
    }
    ghost predicate BelowUpper(p: Vec) {
      Cross(Sub(p, v0), B()) >= 0.0 && Cross(A(), Sub(p, v0)) <= Area()
    }
    ghost predicate Contains(p: Vec) {
      AboveLower(p) && BelowUpper(p)
    }

    function Low(x: real): real
      requires if x < v3.x then Edge(x, v0, v3) else Edge(x, v3, v2)
    {
      if x < v3.x then InterLow(x, v0, v3) else InterLow(x, v3, v2)
    }

    function High(x: real): real
      requires if x < v1.x then Edge(x, v0, v1) else Edge(x, v1, v2)
    {
      if x < v1.x then InterHi(x, v0, v1) else InterHi(x, v1, v2)
    }
  }

  /** Interpolation never leaves the range it checks. */
  lemma EdgesFit(q: Quad, x: real)
    requires q.Valid() && q.v0.x <= x <= q.v2.x
    ensures if x < q.v3.x then Edge(x, q.v0, q.v3) else Edge(x, q.v3, q.v2)
    ensures if x < q.v1.x then Edge(x, q.v0, q.v1) else Edge(x, q.v1, q.v2)
  {
    NoFlatSide(q.A(), q.B());
  }

  lemma NoFlatSide(a: Vec, b: Vec)
    requires Cross(a, b) > 0.0
    ensures a != Vec(0.0, 0.0) && b != Vec(0.0, 0.0)
    ensures a.x == 0.0 ==> -a.y * b.x > 0.0
    ensures b.x == 0.0 ==> a.x * b.y > 0.0
  {
  }

  lemma SlopeOrder(t: real, h: real, d: real, y: real)
    requires d > 0.0
    ensures Slope(t, h, d) <= y <==> t * h <= y * d
    ensures y <= Slope(t, h, d) <==> y * d <= t * h
  {
    var q := Slope(t, h, d);
    assert q * d == t * h;
    if q < y {
      MulMonoStrict(q, y, d);
    } else if y < q {
      MulMonoStrict(y, q, d);
    }
  }

  /** Cramer's rule: a point is a combination of the two sides. */
  lemma Cramer(a: Vec, b: Vec, p: Vec)
    ensures Cross(a, b) * p.x == a.x * Cross(p, b) + b.x * Cross(a, p)
  {
  }

  /** Left of the lower corner the second lower side is no constraint. */
  lemma LeftOfCorner(a: Vec, b: Vec, p: Vec)
    requires a.x > 0.0 && b.x >= 0.0 && Cross(a, b) > 0.0 && p.x <= a.x && Cross(a, p) >= 0.0
    ensures Cross(p, b) <= Cross(a, b)
  {
    Cramer(a, b, p);
    var d, s, t := Cross(a, b), Cross(p, b), Cross(a, p);
    MulNonNeg(b.x, t);
    MulMono(p.x, a.x, d);
    assert a.x * s <= a.x * d;
    if s > d {
      MulMonoStrict(d, s, a.x);
    }
  }

  /** Right of it the first lower side is none. */
  lemma RightOfCorner(a: Vec, b: Vec, p: Vec)
    requires a.x >= 0.0 && b.x > 0.0 && Cross(a, b) > 0.0 && p.x >= a.x && Cross(p, b) <= Cross(a, b)
    ensures Cross(a, p) >= 0.0
  {
    Cramer(a, b, p);
    var d, s, t := Cross(a, b), Cross(p, b), Cross(a, p);
    MulMono(s, d, a.x);
    MulMono(a.x, p.x, d);
    assert b.x * t >= 0.0;
    if t < 0.0 {
      MulPos(b.x, -t);
    }
  }

  lemma LowLeft(a: Vec, b: Vec, p: Vec)
    requires a.x > 0.0 && b.x >= 0.0 && Cross(a, b) > 0.0 && p.x <= a.x
    ensures Slope(p.x, a.y, a.x) <= p.y <==> Cross(a, p) >= 0.0 && Cross(p, b) <= Cross(a, b)
  {
    SlopeOrder(p.x, a.y, a.x, p.y);
    if Cross(a, p) >= 0.0 {
      LeftOfCorner(a, b, p);
    }
  }

  lemma LowRight(a: Vec, b: Vec, p: Vec)
    requires a.x >= 0.0 && b.x > 0.0 && Cross(a, b) > 0.0 && p.x >= a.x
    ensures a.y + Slope(p.x - a.x, b.y, b.x) <= p.y <==> Cross(a, p) >= 0.0 && Cross(p, b) <= Cross(a, b)
  {
    SlopeOrder(p.x - a.x, b.y, b.x, p.y - a.y);
    assert (p.x - a.x) * b.y <= (p.y - a.y) * b.x <==> Cross(p, b) <= Cross(a, b);
    if Cross(p, b) <= Cross(a, b) {
      RightOfCorner(a, b, p);
    }
  }

  lemma LowVertical(a: Vec, b: Vec, p: Vec)
    requires b.x == 0.0 && a.x >= 0.0 && Cross(a, b) > 0.0 && p.x == a.x
    ensures b.y > 0.0
    ensures a.y <= p.y <==> Cross(a, p) >= 0.0 && Cross(p, b) <= Cross(a, b)
  {
    assert a.x > 0.0 && b.y > 0.0 by {
      if b.y <= 0.0 {
        MulNonNeg(a.x, -b.y);
      }
    }
    if a.y <= p.y {
      MulMono(a.y, p.y, a.x);
    } else {
      MulMonoStrict(p.y, a.y, a.x);
    }
  }

  lemma LowSlice(q: Quad, x: real, y: real)
    requires q.Valid() && q.v0.x <= x <= q.v2.x
    requires if x < q.v3.x then Edge(x, q.v0, q.v3) else Edge(x, q.v3, q.v2)
    ensures q.Low(x) <= y <==> q.AboveLower(Vec(x, y))
  {
    hide Cross, Slope;
    var a, b, p := q.A(), q.B(), Sub(Vec(x, y), q.v0);
    if x < q.v3.x {
      LowLeft(a, b, p);
    } else if b.x > 0.0 {
      assert q.v2.x - q.v3.x == b.x && q.v2.y - q.v3.y == b.y && x - q.v3.x == p.x - a.x;
      LowRight(a, b, p);
    } else {
      LowVertical(a, b, p);
    }
  }

  /** Reflection in the x axis exchanges the lower and the upper sides. */
  function Flip(v: Vec): Vec { Vec(v.x, -v.y) }
  function FlipQuad(q: Quad): Quad { Quad(Flip(q.v0), Flip(q.v3), Flip(q.v2), Flip(q.v1)) }

  lemma HighSlice(q: Quad, x: real, y: real)
    requires q.Valid() && q.v0.x <= x <= q.v2.x
    requires if x < q.v1.x then Edge(x, q.v0, q.v1) else Edge(x, q.v1, q.v2)
    ensures y <= q.High(x) <==> q.BelowUpper(Vec(x, y))
  {
    hide Cross, Slope, InterLow, InterHi;
    var a, b, p := q.A(), q.B(), Sub(Vec(x, y), q.v0);
    FlipCross(a, b);
    FlipCross(p, b);
    FlipCross(a, p);
    FlipSides(q, Vec(x, y));
    LowSlice(FlipQuad(q), x, -y);
    FlipSlope(q, x);
  }

  lemma FlipCross(a: Vec, b: Vec)
    ensures Cross(Flip(b), Flip(a)) == Cross(a, b)
  {
  }

  lemma FlipSides(q: Quad, v: Vec)
    ensures FlipQuad(q).A() == Flip(q.B()) && FlipQuad(q).B() == Flip(q.A())
    ensures Sub(Flip(v), Flip(q.v0)) == Flip(Sub(v, q.v0))
    ensures q.v2 == Add(q.v0, Add(q.A(), q.B())) ==> Flip(q.v2) == Add(Flip(q.v0), Add(Flip(q.B()), Flip(q.A())))
  {
  }

  lemma FlipSlope(q: Quad, x: real)
    requires q.Valid() && q.v0.x <= x <= q.v2.x
    requires if x < q.v1.x then Edge(x, q.v0, q.v1) else Edge(x, q.v1, q.v2)
    ensures FlipQuad(q).Low(x) == -q.High(x)
  {
    hide Cross;
    if x < q.v1.x {
      SlopeNegated(x - q.v0.x, q.v1.y - q.v0.y, q.v1.x - q.v0.x);
    } else if q.v1.x < q.v2.x {
      SlopeNegated(x - q.v1.x, q.v2.y - q.v1.y, q.v2.x - q.v1.x);
    }
  }

  lemma SlopeNegated(t: real, h: real, d: real)
    requires d > 0.0
    ensures Slope(t, -h, d) == -Slope(t, h, d)
  {
  }

  /** A vertical slice of the parallelogram is the interval between the two interpolated sides. */
  lemma Slice(q: Quad, x: real, y: real)
    requires q.Valid() && q.v0.x <= x <= q.v2.x
    ensures if x < q.v3.x then Edge(x, q.v0, q.v3) else Edge(x, q.v3, q.v2)
    ensures if x < q.v1.x then Edge(x, q.v0, q.v1) else Edge(x, q.v1, q.v2)
    ensures q.Low(x) <= y <= q.High(x) <==> q.Contains(Vec(x, y))
  {
    EdgesFit(q, x);
    LowSlice(q, x, y);
    HighSlice(q, x, y);
  }

  /** It has no slice outside the range of the outer corners. */
  lemma NoSliceOutside(q: Quad, p: Vec)
    requires q.Valid() && q.Contains(p)
    ensures q.v0.x <= p.x <= q.v2.x
  {
    hide Cross;
    var a, b, r := q.A(), q.B(), Sub(p, q.v0);
    BoundedCombination(a, b, r);
  }

  lemma BoundedCombination(a: Vec, b: Vec, r: Vec)
    requires a.x >= 0.0 && b.x >= 0.0 && Cross(a, b) > 0.0
    requires 0.0 <= Cross(a, r) <= Cross(a, b) && 0.0 <= Cross(r, b) <= Cross(a, b)
    ensures 0.0 <= r.x <= a.x + b.x
  {
    Cramer(a, b, r);
    Average(Cross(a, b), a.x, b.x, Cross(r, b), Cross(a, r), r.x);
  }

  lemma Average(d: real, m: real, n: real, s: real, t: real, r: real)
    requires d > 0.0 && m >= 0.0 && n >= 0.0 && 0.0 <= s <= d && 0.0 <= t <= d
    requires d * r == m * s + n * t
    ensures 0.0 <= r <= m + n
  {
    MulNonNeg(m, s);
    MulNonNeg(n, t);
    MulMono(s, d, m);
    MulMono(t, d, n);
    if r < 0.0 {
      MulPos(d, -r);
    } else if r > m + n {
      MulMonoStrict(m + n, r, d);
    }
  }
}
