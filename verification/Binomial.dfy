/** The tail of the binomial distribution and a bound for its truncation. */
module Binomial {
  import opened MathLib

  function Pow(x: real, n: nat): real {
    if n == 0 then 1.0 else x * Pow(x, n - 1)
  }

  lemma {:induction false} PowPos(x: real, n: nat)
    requires x > 0.0
    ensures Pow(x, n) > 0.0
  {
    if n > 0 {
      PowPos(x, n - 1);
      MulPos(x, Pow(x, n - 1));
    }
  }

  /** Binomial coefficient, by Pascal's rule. */
  function Choose(n: nat, k: int): nat {
    if k < 0 || k > n then 0
    else if n == 0 then 1
    else Choose(n - 1, k - 1) + Choose(n - 1, k)
  }

  /** Consecutive coefficients of one row. */
  lemma {:induction false} ChooseRatio(n: nat, i: nat)
    requires 1 <= i <= n
    ensures i * Choose(n, i) == (n - i + 1) * Choose(n, i - 1)
  {
    var c, up, down := Choose(n - 1, i - 1), Choose(n - 1, i), Choose(n - 1, i - 2);
    assert Choose(n, i) == c + up && Choose(n, i - 1) == down + c;
    hide Choose;
    if i < n {
      ChooseRatio(n - 1, i);
    } else {
      ChooseBeyond(n - 1, i);
    }
    if i > 1 {
      ChooseRatio(n - 1, i - 1);
    } else {
      ChooseBeyond(n - 1, i - 2);
    }
    RatioStep(n, i, c, up, down);
  }

  lemma ChooseBeyond(n: nat, i: int)
    requires i < 0 || i > n
    ensures Choose(n, i) == 0
  {
  }

  lemma RatioStep(n: int, i: int, c: int, up: int, down: int)
    requires i * up == (n - i) * c && (n - i + 1) * down == (i - 1) * c
    ensures i * (c + up) == (n - i + 1) * (down + c)
  {
    assert i * (c + up) == i * c + i * up;
    assert (n - i + 1) * (down + c) == (n - i + 1) * down + (n - i + 1) * c;
  }

  lemma {:induction false} ChoosePos(n: nat, k: nat)
    requires k <= n
    ensures Choose(n, k) > 0
  {
    if n > 0 {
      if k < n {
        ChoosePos(n - 1, k);
      } else {
        ChoosePos(n - 1, k - 1);
      }
    }
  }

  lemma {:induction false} EndChoose(n: nat)
    ensures Choose(n, 0) == 1 && Choose(n, n) == 1
  {
    if n > 0 {
      EndChoose(n - 1);
      ChooseBeyond(n - 1, n);
      ChooseBeyond(n - 1, -1);
    }
  }

  function Factorial(n: nat): (f: nat)
    ensures f > 0
  {
    if n == 0 then 1 else Positive(n, Factorial(n - 1))
  }

  function Positive(a: nat, b: nat): (c: nat)
    requires a > 0 && b > 0
    ensures c > 0
  {
    a * b
  }

  /** The coefficients are the quotients of factorials. */
  lemma {:induction false} ChooseFactorial(n: nat, k: nat)
    requires k <= n
    ensures Choose(n, k) * (Factorial(k) * Factorial(n - k)) == Factorial(n)
  {
    if k == 0 || k == n {
      EndChoose(n);
    } else {
      var a, b := Choose(n - 1, k - 1), Choose(n - 1, k);
      ChooseFactorial(n - 1, k - 1);
      ChooseFactorial(n - 1, k);
      assert Choose(n, k) == a + b;
      assert Factorial(k) == k * Factorial(k - 1) && Factorial(n) == n * Factorial(n - 1);
      assert Factorial(n - k) == (n - k) * Factorial(n - k - 1);
      hide Choose, Factorial;
      FactorialStep(a, b, k, n - k, Factorial(k - 1), Factorial(n - k - 1), Factorial(n - 1));
    }
  }

  lemma FactorialStep(a: int, b: int, k: int, l: int, x: int, y: int, f: int)
    requires a * (x * (l * y)) == f && b * ((k * x) * y) == f
    ensures (a + b) * ((k * x) * (l * y)) == (k + l) * f
  {
    assert a * ((k * x) * (l * y)) == k * (a * (x * (l * y)));
    assert b * ((k * x) * (l * y)) == l * (b * ((k * x) * y));
  }

  /** Probability of exactly i successes in n trials. */
  function Term(n: nat, i: int, p: real): real {
    if 0 <= i <= n then Weigh(Choose(n, i) as real, Pow(p, i), Pow(1.0 - p, n - i)) else 0.0
  }

  function Weigh(c: real, a: real, b: real): real {
    c * (a * b)
  }

  /** Probability of k or more successes. */
  function Tail(n: nat, k: int, p: real): real
    decreases n - k
  {
    if k > n then 0.0 else Term(n, k, p) + Tail(n, k + 1, p)
  }

  /** Quotient of the terms i and i-1. */
  function Ratio(n: nat, i: nat, p: real): real
    requires 1 <= i && p != 1.0
  {
    Quotient((n - i + 1) as real, i as real, p)
  }

  function Quotient(k: real, i: real, p: real): real
    requires i != 0.0 && p != 1.0
  {
    (k * (1.0 / i)) * (p / (1.0 - p))
  }

  lemma TermPos(n: nat, i: nat, p: real)
    requires i <= n && 0.0 < p < 1.0
    ensures Term(n, i, p) > 0.0
  {
    ChoosePos(n, i);
    PowPos(p, i);
    PowPos(1.0 - p, n - i);
    MulPos(Pow(p, i), Pow(1.0 - p, n - i));
    MulPos(Choose(n, i) as real, Pow(p, i) * Pow(1.0 - p, n - i));
  }

  lemma CastProduct(a: int, b: int)
    ensures (a * b) as real == a as real * b as real
  {
  }

  /** The recurrence by which nfa walks along the series. */
  lemma TermStep(n: nat, i: nat, p: real)
    requires 1 <= i <= n && 0.0 < p < 1.0
    ensures Term(n, i, p) == Term(n, i - 1, p) * Ratio(n, i, p)
  {
    hide Choose, Weigh, Quotient;
    ChooseRatio(n, i);
    CastProduct(i, Choose(n, i));
    CastProduct(n - i + 1, Choose(n, i - 1));
    var c, d, k := Choose(n, i) as real, Choose(n, i - 1) as real, (n - i + 1) as real;
    var a, b, x, y := Pow(p, i - 1), Pow(1.0 - p, n - i), Pow(p, i), Pow(1.0 - p, n - (i - 1));
    PowStep(p, i);
    PowStep(1.0 - p, n - i + 1);
    hide Pow;
    RatioAlgebra(c, d, i as real, k, p, a, b, x, y);
  }

  lemma PowStep(x: real, n: nat)
    requires n > 0
    ensures Pow(x, n) == x * Pow(x, n - 1)
  {
  }

  lemma RatioAlgebra(c: real, d: real, i: real, k: real, p: real, a: real, b: real, x: real, y: real)
    requires i > 0.0 && 0.0 < p < 1.0 && i * c == k * d && x == p * a && y == (1.0 - p) * b
    ensures Weigh(c, x, b) == Weigh(d, a, y) * Quotient(k, i, p)
  {
    var q, v := 1.0 - p, 1.0 / i;
    var s := p / q;
    assert i * v == 1.0 && s * q == p;
    assert c == (k * d) * v by { assert c == c * (i * v); }
    calc {
      (d * (a * y)) * ((k * v) * s);
      (d * (a * (q * b))) * ((k * v) * s);
      ((k * d) * v) * ((s * q) * (a * b));
      c * (p * (a * b));
      c * (x * b);
    }
  }

  /** The sum m + m^2 + ... + m^c. */
  function Geometric(m: real, c: nat): real {
    if c == 0 then 0.0 else m * (1.0 + Geometric(m, c - 1))
  }

  /** Its closed form, line 1144. */
  lemma {:induction false} GeometricClosed(m: real, c: nat)
    requires m != 1.0
    ensures (1.0 - Pow(m, c + 1)) / (1.0 - m) - 1.0 == Geometric(m, c)
  {
    GeometricProduct(m, c);
    DivideBack(Geometric(m, c) + 1.0, 1.0 - m, 1.0 - Pow(m, c + 1));
  }

  lemma DivideBack(a: real, d: real, b: real)
    requires d != 0.0 && a * d == b
    ensures b / d == a
  {
  }

  lemma {:induction false} GeometricProduct(m: real, c: nat)
    ensures (Geometric(m, c) + 1.0) * (1.0 - m) == 1.0 - Pow(m, c + 1)
  {
    if c > 0 {
      GeometricProduct(m, c - 1);
      var g, w := Geometric(m, c - 1), Pow(m, c);
      assert (m * (1.0 + g) + 1.0) * (1.0 - m) == m * ((g + 1.0) * (1.0 - m)) + (1.0 - m);
    }
  }

  lemma {:induction false} GeometricNonNeg(m: real, c: nat)
    requires m >= 0.0
    ensures Geometric(m, c) >= 0.0
  {
    if c > 0 {
      GeometricNonNeg(m, c - 1);
      MulNonNeg(m, 1.0 + Geometric(m, c - 1));
    }
  }

  /** The quotients fall along the row. */
  lemma RatioFalls(n: nat, i: nat, j: nat, p: real)
    requires 1 <= i <= j <= n && 0.0 < p < 1.0
    ensures 0.0 < Ratio(n, j, p) <= Ratio(n, i, p)
  {
    var a, b := (n - j + 1) as real, (n - i + 1) as real;
    var u, v := 1.0 / j as real, 1.0 / i as real;
    var s := p / (1.0 - p);
    QuotientPos(p, 1.0 - p);
    InverseFalls(i as real, j as real);
    MulMono(a, b, u);
    MulMono(u, v, b);
    MulPos(a, u);
    assert s > 0.0;
    MulPos(a * u, s);
    MulMono(a * u, b * v, s);
  }

  lemma InverseFalls(a: real, b: real)
    requires 0.0 < a <= b
    ensures 0.0 < 1.0 / b <= 1.0 / a
  {
  }

  /** What is left after term j is bounded by a geometric series with any later quotient's bound. */
  lemma {:induction false} TailBound(n: nat, j: nat, p: real, m: real)
    requires j <= n && 0.0 < p < 1.0 && m >= 0.0
    requires j < n ==> Ratio(n, j + 1, p) <= m
    ensures 0.0 <= Tail(n, j + 1, p) <= Term(n, j, p) * Geometric(m, n - j)
    decreases n - j
  {
    hide Term, Ratio;
    if j < n {
      RatioFalls(n, j + 1, j + 1, p);
      if j + 1 < n {
        RatioFalls(n, j + 1, j + 2, p);
      }
      TailBound(n, j + 1, p, m);
      TermStep(n, j + 1, p);
      TermPos(n, j, p);
      TermPos(n, j + 1, p);
      GeometricNonNeg(m, n - j - 1);
      BoundStep(Term(n, j, p), Term(n, j + 1, p), Ratio(n, j + 1, p), m, Geometric(m, n - j - 1), Tail(n, j + 2, p));
    }
  }

  lemma BoundStep(t: real, t': real, r: real, m: real, g: real, rest: real)
    requires t > 0.0 && t' == t * r && r <= m && g >= 0.0 && rest <= t' * g
    ensures t' + rest <= t * (m * (1.0 + g))
  {
    MulMono(r, m, t);
    MulMono(t', t * m, 1.0 + g);
    assert t' * (1.0 + g) == t' + t' * g;
    assert (t * m) * (1.0 + g) == t * (m * (1.0 + g));
  }

  /** Pascal's rule for terms and for tails. */
  lemma TermPascal(n: nat, j: int, p: real)
    requires n > 0
    ensures Term(n, j, p) == p * Term(n - 1, j - 1, p) + (1.0 - p) * Term(n - 1, j, p)
  {
    hide Weigh;
    if 0 <= j <= n {
      var a, b := Choose(n - 1, j - 1), Choose(n - 1, j);
      assert Choose(n, j) == a + b;
      var x, y := Pow(p, if j > 0 then j - 1 else 0), Pow(p, j);
      var z, u := Pow(1.0 - p, if j < n then n - 1 - j else 0), Pow(1.0 - p, n - j);
      if j < n {
        PascalAlgebra(a as real, b as real, p, x, y, z, u);
        NoWeight(x, u);
      } else {
        WeighTop(a as real, p, x, y, u);
      }
    }
  }

  lemma NoWeight(x: real, y: real)
    ensures Weigh(0.0, x, y) == 0.0
  {
  }

  lemma WeighTop(a: real, p: real, x: real, y: real, u: real)
    requires y == p * x
    ensures Weigh(a, y, u) == p * Weigh(a, x, u)
  {
  }

  lemma PascalAlgebra(a: real, b: real, p: real, x: real, y: real, z: real, u: real)
    requires a == 0.0 || y == p * x
    requires u == (1.0 - p) * z
    ensures Weigh(a + b, y, u) == p * Weigh(a, x, u) + (1.0 - p) * Weigh(b, y, z)
  {
  }

  lemma {:induction false} TailPascal(n: nat, k: int, p: real)
    requires n > 0
    ensures Tail(n, k, p) == p * Tail(n - 1, k - 1, p) + (1.0 - p) * Tail(n - 1, k, p)
    decreases n - k
  {
    hide Term;
    if k <= n {
      TermPascal(n, k, p);
      TailPascal(n, k + 1, p);
      assert Tail(n - 1, k, p) == Term(n - 1, k, p) + Tail(n - 1, k + 1, p) by {
        TermBeyond(n - 1, n, p);
      }
      Distribute(p, Term(n - 1, k - 1, p), Tail(n - 1, k, p), Tail(n - 1, k - 1, p));
      Distribute(1.0 - p, Term(n - 1, k, p), Tail(n - 1, k + 1, p), Tail(n - 1, k, p));
    }
  }

  lemma Distribute(a: real, b: real, c: real, s: real)
    requires s == b + c
    ensures a * s == a * b + a * c
  {
  }

  lemma TermBeyond(n: nat, i: int, p: real)
    requires i < 0 || i > n
    ensures Term(n, i, p) == 0.0
  {
  }

  /** Some number of successes is certain. */
  lemma {:induction false} TailTotal(n: nat, p: real)
    ensures Tail(n, 0, p) == 1.0
  {
    if n == 0 {
      assert Tail(0, 1, p) == 0.0;
      assert Term(0, 0, p) == 1.0;
    } else {
      TailPascal(n, 0, p);
      assert Tail(n - 1, -1, p) == Term(n - 1, -1, p) + Tail(n - 1, 0, p);
      TailTotal(n - 1, p);
    }
  }
}
