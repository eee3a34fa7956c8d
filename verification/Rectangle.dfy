/** Rectangles: a line segment with a width (lsd.cpp: struct rect). */
module Rectangle {
  import opened MathLib

  datatype Rect = Rect(
    x1: real, y1: real, x2: real, y2: real,  // the two ends of the middle line
    width: real,                             // across the middle line
    x: real, y: real,                        // weighted mean of the region
    theta: real,                             // direction of the middle line, as an angle
    dx: real, dy: real,                      // ... and as a unit vector
    prec: real,                              // how far the angle of an aligned pixel may be off
    p: real)                                 // chance that a random angle is aligned
  {
    /** Signed length of the segment along (dx,dy). */
    function Length(): real {
      (x2 - x1) * dx + (y2 - y1) * dy
    }

    /** (dx,dy) is a unit vector and the segment runs along it. */
    ghost predicate Oriented() {
      && dx * dx + dy * dy == 1.0
      && Length() >= 0.0
      && x2 - x1 == Length() * dx && y2 - y1 == Length() * dy
      && width > 0.0
    }

    /** Position of a point along and across the segment, seen from its first end. */
    function Along(px: real, py: real): real {
      (px - x1) * dx + (py - y1) * dy
    }

    function Across(px: real, py: real): real {
      (py - y1) * dx - (px - x1) * dy
    }

    /** The closed rectangle. */
    predicate Contains(px: real, py: real) {
      && 0.0 <= Along(px, py) <= Length()
      && -width / 2.0 <= Across(px, py) <= width / 2.0
    }
  }

  /** A multiple of a unit vector has the multiple as its length ... */
  lemma UnitSquare(l: real, dx: real, dy: real)
    requires dx * dx + dy * dy == 1.0
    ensures Sqr(l * dx) + Sqr(l * dy) == Sqr(l)
  {
    assert (l * dx) * (l * dx) + (l * dy) * (l * dy) == (l * l) * (dx * dx + dy * dy);
  }

  /** ... and projects back to it. */
  lemma UnitProjection(l: real, dx: real, dy: real)
    requires dx * dx + dy * dy == 1.0
    ensures (l * dx) * dx + (l * dy) * dy == l
  {
    assert (l * dx) * dx + (l * dy) * dy == l * (dx * dx + dy * dy);
  }

  /** The distance between the two ends is the length. */
  lemma LengthIsDist(m: Libm, r: Rect)
    requires m.Lawful() && r.Oriented()
    ensures Dist(m, r.x1, r.y1, r.x2, r.y2) == r.Length()
  {
    UnitSquare(r.Length(), r.dx, r.dy);
    SqrtOfSquare(m, r.Length());
  }
}
