/** Pixels, images stored row by row in one array, and the set of pixels that carry a mark. */
module Pixels {
  /** State of a pixel in the detection (the values 0 and 1 of the image `used`). */
  datatype Mark = NOTUSED | USED

  datatype Point = Point(x: int, y: int)

  predicate InGrid(p: Point, xsize: nat, ysize: nat) {
    0 <= p.x < xsize && 0 <= p.y < ysize
  }

  /** Position of a pixel in the data array. */
  function Adr(p: Point, xsize: nat): int {
    p.x + p.y * xsize
  }

  lemma AdrBounds(p: Point, xsize: nat, ysize: nat)
    requires InGrid(p, xsize, ysize)
    ensures 0 <= Adr(p, xsize) < xsize * ysize
  {
    MulBound(p.y, ysize - 1, xsize);
    assert (ysize - 1) * xsize == ysize * xsize - xsize;
  }

  lemma MulBound(a: nat, b: nat, c: nat)
    requires a <= b
    ensures 0 <= a * c <= b * c
  {
    assert b * c == a * c + (b - a) * c;
  }

  lemma AdrInjective(p: Point, q: Point, xsize: nat, ysize: nat)
    requires InGrid(p, xsize, ysize) && InGrid(q, xsize, ysize)
    requires Adr(p, xsize) == Adr(q, xsize)
    ensures p == q
  {
    if p.y < q.y {
      MulBound(p.y + 1, q.y, xsize);
    } else if q.y < p.y {
      MulBound(q.y + 1, p.y, xsize);
    }
  }

  /** Reading a stored image. */
  function Pix<T>(data: seq<T>, xsize: nat, ysize: nat, p: Point): T
    requires |data| == xsize * ysize && InGrid(p, xsize, ysize)
  {
    AdrBounds(p, xsize, ysize);
    data[Adr(p, xsize)]
  }

  lemma PixUpdate<T>(data: seq<T>, xsize: nat, ysize: nat, p: Point, v: T, q: Point)
    requires |data| == xsize * ysize && InGrid(p, xsize, ysize) && InGrid(q, xsize, ysize)
    ensures 0 <= Adr(p, xsize) < |data|
    ensures Pix(data[Adr(p, xsize) := v], xsize, ysize, q) == if q == p then v else Pix(data, xsize, ysize, q)
  {
    AdrBounds(p, xsize, ysize);
    AdrBounds(q, xsize, ysize);
    if Adr(p, xsize) == Adr(q, xsize) {
      AdrInjective(p, q, xsize, ysize);
    }
  }

  /** An image that is only read: gradient angles, gradient norms, gray levels. */
  datatype ImageDouble = ImageDouble(data: seq<real>, xsize: nat, ysize: nat) {
    ghost predicate Valid() {
      xsize > 0 && ysize > 0 && |data| == xsize * ysize
    }

    predicate Has(p: Point) {
      InGrid(p, xsize, ysize)
    }

    function At(p: Point): real
      requires Valid() && Has(p)
    {
      Pix(data, xsize, ysize, p)
    }
  }

  /** The pixel stored at position i. */
  function PointAt(i: nat, xsize: nat): Point
    requires xsize > 0
  {
    Point(i % xsize, i / xsize)
  }

  lemma PointAtAdr(i: nat, xsize: nat, ysize: nat)
    requires xsize > 0 && i < xsize * ysize
    ensures InGrid(PointAt(i, xsize), xsize, ysize) && Adr(PointAt(i, xsize), xsize) == i
  {
    var y := i / xsize;
    assert i == y * xsize + i % xsize;
    assert xsize * ysize == ysize * xsize;
    if y >= ysize {
      MulBound(ysize, y, xsize);
    }
  }

  /** Two images with the same pixels are stored alike. */
  lemma SameData<T>(a: seq<T>, b: seq<T>, xsize: nat, ysize: nat)
    requires |a| == |b| == xsize * ysize
    requires forall p | InGrid(p, xsize, ysize) :: Pix(a, xsize, ysize, p) == Pix(b, xsize, ysize, p)
    ensures a == b
  {
    forall i | 0 <= i < |a|
      ensures a[i] == b[i]
    {
      assert xsize > 0;
      PointAtAdr(i, xsize, ysize);
      assert Pix(a, xsize, ysize, PointAt(i, xsize)) == Pix(b, xsize, ysize, PointAt(i, xsize));
    }
  }

  /** The image of a function on pixels. */
  ghost function Drawn(xsize: nat, ysize: nat, f: Point -> real): (im: ImageDouble)
    requires xsize > 0 && ysize > 0
    ensures im.Valid() && im.xsize == xsize && im.ysize == ysize && forall p | im.Has(p) :: im.At(p) == f(p)
  {
    var im := ImageDouble(seq(xsize * ysize, i requires 0 <= i < xsize * ysize => f(PointAt(i, xsize))), xsize, ysize);
    assert forall p | im.Has(p) :: im.At(p) == f(p) by {
      forall p | im.Has(p)
        ensures im.At(p) == f(p)
      {
        AdrBounds(p, xsize, ysize);
        PointAtAdr(Adr(p, xsize), xsize, ysize);
        AdrInjective(p, PointAt(Adr(p, xsize), xsize), xsize, ysize);
      }
    }
    im
  }

  /** All pixels of an image. */
  ghost function Grid(xsize: nat, ysize: nat): (s: set<Point>)
    ensures forall p :: p in s <==> InGrid(p, xsize, ysize)
  {
    set x: int, y: int | 0 <= x < xsize && 0 <= y < ysize :: Point(x, y)
  }

  /** The pixels marked USED. */
  ghost function Marked(data: seq<Mark>, xsize: nat, ysize: nat): set<Point>
    requires |data| == xsize * ysize
  {
    set p | p in Grid(xsize, ysize) && Pix(data, xsize, ysize, p) == USED
  }

  lemma MarkOne(data: seq<Mark>, xsize: nat, ysize: nat, p: Point)
    requires |data| == xsize * ysize && InGrid(p, xsize, ysize)
    ensures 0 <= Adr(p, xsize) < |data|
    ensures Marked(data[Adr(p, xsize) := USED], xsize, ysize) == Marked(data, xsize, ysize) + {p}
  {
    AdrBounds(p, xsize, ysize);
    forall q | q in Grid(xsize, ysize)
      ensures q in Marked(data[Adr(p, xsize) := USED], xsize, ysize) <==> q in Marked(data, xsize, ysize) + {p}
    {
      PixUpdate(data, xsize, ysize, p, USED, q);
    }
  }

  lemma UnmarkOne(data: seq<Mark>, xsize: nat, ysize: nat, p: Point)
    requires |data| == xsize * ysize && InGrid(p, xsize, ysize)
    ensures 0 <= Adr(p, xsize) < |data|
    ensures Marked(data[Adr(p, xsize) := NOTUSED], xsize, ysize) == Marked(data, xsize, ysize) - {p}
  {
    AdrBounds(p, xsize, ysize);
    forall q | q in Grid(xsize, ysize)
      ensures q in Marked(data[Adr(p, xsize) := NOTUSED], xsize, ysize) <==> q in Marked(data, xsize, ysize) - {p}
    {
      PixUpdate(data, xsize, ysize, p, NOTUSED, q);
    }
  }

  ghost function Elems<T>(s: seq<T>): set<T> {
    set e | e in s
  }

  ghost predicate Distinct<T>(s: seq<T>) {
    forall i, j | 0 <= i < j < |s| :: s[i] != s[j]
  }

  lemma {:induction false} DistinctCount<T>(s: seq<T>)
    requires Distinct(s)
    ensures |Elems(s)| == |s|
  {
    if s != [] {
      var t := s[..|s| - 1];
      DistinctCount(t);
      assert s == t + [s[|s| - 1]];
      assert Elems(s) == Elems(t) + {s[|s| - 1]};
      assert s[|s| - 1] !in Elems(t);
    }
  }

  lemma SubsetCount<T>(a: set<T>, b: set<T>)
    requires a <= b
    ensures |a| <= |b|
  {
    assert b == a + (b - a);
  }

  lemma GridCount(xsize: nat, ysize: nat)
    ensures |Grid(xsize, ysize)| == xsize * ysize
  {
    if ysize == 0 {
      assert Grid(xsize, ysize) == {};
    } else {
      GridCount(xsize, ysize - 1);
      RowCount(xsize, ysize - 1);
      var row := Row(xsize, ysize - 1);
      assert Grid(xsize, ysize) == Grid(xsize, ysize - 1) + row;
      assert xsize * ysize == xsize * (ysize - 1) + xsize;
    }
  }

  ghost function Row(xsize: nat, y: int): (s: set<Point>)
    ensures forall p :: p in s <==> p.y == y && 0 <= p.x < xsize
  {
    set x: int | 0 <= x < xsize :: Point(x, y)
  }

  lemma RowCount(xsize: nat, y: int)
    ensures |Row(xsize, y)| == xsize
  {
    if xsize > 0 {
      RowCount(xsize - 1, y);
      assert Row(xsize, y) == Row(xsize - 1, y) + {Point(xsize - 1, y)};
    }
  }

  /** Distinct pixels of an image are no more than the image has room for. */
  lemma DistinctFit(s: seq<Point>, xsize: nat, ysize: nat)
    requires Distinct(s) && forall p | p in s :: InGrid(p, xsize, ysize)
    ensures |s| <= xsize * ysize
  {
    DistinctCount(s);
    GridCount(xsize, ysize);
    SubsetCount(Elems(s), Grid(xsize, ysize));
  }
}
