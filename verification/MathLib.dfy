/** The C library functions and the constants that the line segment detector relies on.
    Doubles are modelled by exact reals. The transcendental functions are not defined here:
    a `Libm` value supplies them, and `Lawful` lists the only facts that are used about them. */
module MathLib {

  // The three literals of lsd.cpp, digit by digit. TWO_PI and THREE_HALVES_PI are
  // not exact multiples of PI, and nothing in the model pretends that they are.
  const PI: real := 3.14159265358979323846
  const TWO_PI: real := 6.28318530718
  const THREE_HALVES_PI: real := 4.71238898038

  datatype Libm = Libm(
    sqrt: real -> real,
    cos: real -> real,
    sin: real -> real,
    atan2: (real, real) -> real,
    exp: real -> real,
    ln: real -> real,
    log10: real -> real,
    logGamma: real -> real,
    // what the machine delivers for the cast of a non-finite double to unsigned int
    badCast: real -> nat)
  {
    ghost predicate Lawful() {
      && (forall x :: x >= 0.0 ==> sqrt(x) >= 0.0 && sqrt(x) * sqrt(x) == x)
      && (forall t :: cos(t) * cos(t) + sin(t) * sin(t) == 1.0)
      && (forall t :: 0.0 < t < PI ==> sin(t) > 0.0)
      && (forall y, x :: -PI <= atan2(y, x) <= PI)
      && (forall x :: exp(x) > 0.0)
      && (forall x :: x > 1.0 ==> ln(x) > 0.0)
      && (forall x :: 0.0 < x < 1.0 ==> log10(x) < 0.0)
      && (forall x :: x >= 1.0 ==> 0.0 <= log10(x) <= x - 1.0)
      && (forall x, y :: x > 0.0 && y > 0.0 ==> log10(Product(x, y)) == log10(x) + log10(y))
      && (forall y, x {:trigger Polar(y, x)} :: Polar(y, x))
      && (forall t {:trigger HalfTurn(t)} :: HalfTurn(t))
    }

    function Norm(x: real, y: real): real {
      sqrt(Sqr(x) + Sqr(y))
    }

    /** atan2 yields the polar angle. */
    ghost predicate Polar(y: real, x: real) {
      var r := Norm(x, y);
      r * cos(atan2(y, x)) == x && r * sin(atan2(y, x)) == y
    }

    /** PI is half a turn. */
    ghost predicate HalfTurn(t: real) {
      cos(t + PI) == -cos(t) && sin(t + PI) == -sin(t)
    }
  }

  function Product(x: real, y: real): real {
    x * y
  }

  function Abs(x: real): real {
    if x < 0.0 then -x else x
  }

  function Ceil(x: real): (n: int)
    ensures n as real - 1.0 < x <= n as real
  {
    -(-x).Floor
  }

  /** The C cast (int), which truncates toward zero. */
  function Trunc(x: real): int {
    if x >= 0.0 then x.Floor else Ceil(x)
  }

  function Sqr(a: real): real {
    a * a
  }

  function SqrDist(x1: real, y1: real, x2: real, y2: real): real {
    Sqr(x2 - x1) + Sqr(y2 - y1)
  }

  ghost function Sum(d: seq<real>): real {
    if d == [] then 0.0 else Sum(d[..|d| - 1]) + d[|d| - 1]
  }

  /** Euclidean distance between (x1,y1) and (x2,y2). */
  function Dist(m: Libm, x1: real, y1: real, x2: real, y2: real): real {
    m.sqrt(SqrDist(x1, y1, x2, y2))
  }

  lemma SqrtLaw(m: Libm, x: real)
    requires m.Lawful() && x >= 0.0
    ensures m.sqrt(x) >= 0.0 && Sqr(m.sqrt(x)) == x
  {
  }

  lemma SqrtOfSquare(m: Libm, l: real)
    requires m.Lawful() && l >= 0.0
    ensures m.sqrt(Sqr(l)) == l
  {
    SqrLaw(l);
    SqrtLaw(m, Sqr(l));
    SqrOrder(m.sqrt(Sqr(l)), l);
    SqrOrder(l, m.sqrt(Sqr(l)));
  }

  lemma UnitCircle(m: Libm, t: real)
    requires m.Lawful()
    ensures m.cos(t) * m.cos(t) + m.sin(t) * m.sin(t) == 1.0
  {
  }

  lemma NormLaw(m: Libm, x: real, y: real)
    requires m.Lawful()
    ensures m.Norm(x, y) >= 0.0 && Sqr(m.Norm(x, y)) == Sqr(x) + Sqr(y)
  {
    SqrLaw(x);
    SqrLaw(y);
    hide Libm.Lawful, Sqr;
    SqrtLaw(m, Sqr(x) + Sqr(y));
  }

  lemma PolarLaw(m: Libm, y: real, x: real)
    requires m.Lawful()
    ensures var r, t := m.Norm(x, y), m.atan2(y, x);
            r * m.cos(t) == x && r * m.sin(t) == y && -PI <= t <= PI
  {
    hide Libm.Norm;
    assert m.Polar(y, x);
  }

  lemma MulNonNeg(a: real, b: real)
    requires a >= 0.0 && b >= 0.0
    ensures a * b >= 0.0
  {
  }

  lemma MulMono(a: real, b: real, c: real)
    requires a <= b && c >= 0.0
    ensures a * c <= b * c
  {
    MulNonNeg(b - a, c);
  }

  lemma MulPos(a: real, b: real)
    requires a > 0.0 && b > 0.0
    ensures a * b > 0.0
  {
  }

  lemma TimesBack(a: real, d: real)
    requires d != 0.0
    ensures (a / d) * d == a
  {
  }

  lemma QuotientPos(a: real, b: real)
    requires a > 0.0 && b > 0.0
    ensures a / b > 0.0
  {
  }

  lemma QuotientNonNeg(a: real, b: real)
    requires a >= 0.0 && b > 0.0
    ensures a / b >= 0.0
  {
  }

  lemma MulMonoStrict(a: real, b: real, c: real)
    requires a < b && c > 0.0
    ensures a * c < b * c
  {
    MulPos(b - a, c);
  }

  lemma Cancel(k: real, f: real, g: real)
    requires k > 0.0 && k * f == k * g
    ensures f == g
  {
    if f < g {
      MulMonoStrict(f, g, k);
    } else if g < f {
      MulMonoStrict(g, f, k);
    }
  }

  lemma SqrLaw(a: real)
    ensures Sqr(a) >= 0.0
    ensures a != 0.0 ==> Sqr(a) > 0.0
  {
    if a < 0.0 {
      ProductPos(-a, -a, Sqr(a));
    } else if a > 0.0 {
      ProductPos(a, a, Sqr(a));
    }
  }

  // The solver turns `a * a > 0` into `a != 0`, so the product gets a name of its own.
  lemma ProductPos(a: real, b: real, q: real)
    requires a > 0.0 && b > 0.0 && q == Product(a, b)
    ensures q > 0.0
  {
  }

  lemma SqrOrder(a: real, b: real)
    requires a >= 0.0 && b >= 0.0
    ensures a < b <==> Sqr(a) < Sqr(b)
  {
    assert b * b - a * a == (b - a) * (b + a);
    if a < b {
      MulPos(b - a, b + a);
    } else {
      MulNonNeg(a - b, b + a);
      assert (a - b) * (b + a) == a * a - b * b;
    }
  }

  /** Comparing a distance with a radius is comparing their squares. */
  lemma DistVersusRadius(m: Libm, x1: real, y1: real, x2: real, y2: real, r: real)
    requires m.Lawful() && r >= 0.0
    ensures var d2 := SqrDist(x1, y1, x2, y2);
            && d2 >= 0.0 && Dist(m, x1, y1, x2, y2) >= 0.0
            && (Dist(m, x1, y1, x2, y2) > r <==> d2 > Sqr(r))
            && (Dist(m, x1, y1, x2, y2) < r <==> d2 < Sqr(r))
  {
    var d2 := SqrDist(x1, y1, x2, y2);
    SqrLaw(x2 - x1);
    SqrLaw(y2 - y1);
    SqrtLaw(m, d2);
    SqrOrder(m.sqrt(d2), r);
    SqrOrder(r, m.sqrt(d2));
  }
}
