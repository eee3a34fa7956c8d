/** Number of false alarms (lsd.cpp: nfa), with its table of inverses. */
module Nfa {
  import opened MathLib
  import opened Binomial

  const TABSIZE: nat := 100000
  const TOLERANCE: real := 0.1

  /** Logarithm of the first term, from the gamma function. */
  function Log1Term(m: Libm, n: nat, k: nat, p: real): real {
    m.logGamma(n as real + 1.0) - m.logGamma(k as real + 1.0) - m.logGamma((n - k) as real + 1.0)
    + k as real * m.ln(p) + (n - k) as real * m.ln(1.0 - p)
  }

  /** Bound of what is neglected when the series stops after term i. */
  function TruncationError(term: real, mult: real, rest: nat): real
    requires mult != 1.0
  {
    term * ((1.0 - Pow(mult, rest + 1)) / (1.0 - mult) - 1.0)
  }

  function Allowed(m: Libm, tail: real, logNT: real): real {
    TOLERANCE * Abs(-m.log10(tail) - logNT) * tail
  }

  /** Does the series stop after the current term? For mult == 1 the source computes 0/0,
      and no comparison with a NaN holds. */
  predicate Stops(m: Libm, binTerm: real, mult: real, term: real, tail: real, rest: nat, logNT: real) {
    binTerm < 1.0 && mult != 1.0 && TruncationError(term, mult, rest) < Allowed(m, tail, logNT)
  }

  function BinTerm(n: nat, i: nat): real
    requires 1 <= i <= n
  {
    (n - i + 1) as real * (1.0 / i as real)
  }

  function MultTerm(n: nat, i: nat, pTerm: real): real
    requires 1 <= i <= n
  {
    BinTerm(n, i) * pTerm
  }

  /** The loop of nfa without the table: terms i..n are added until the error is small. */
  function SumFrom(m: Libm, n: nat, i: nat, pTerm: real, term: real, tail: real, logNT: real): real
    requires 1 <= i <= n + 1
    decreases n - i
  {
    if i > n then
      tail
    else
      var mult := MultTerm(n, i, pTerm);
      var t := Product(term, mult);
      if Stops(m, BinTerm(n, i), mult, t, tail + t, n - i, logNT) then tail + t
      else SumFrom(m, n, i + 1, pTerm, t, tail + t, logNT)
  }

  lemma SumFromStep(m: Libm, n: nat, i: nat, pTerm: real, term: real, tail: real, logNT: real)
    requires 1 <= i <= n
    ensures var mult := MultTerm(n, i, pTerm);
            var t := Product(term, mult);
            SumFrom(m, n, i, pTerm, term, tail, logNT)
            == if Stops(m, BinTerm(n, i), mult, t, tail + t, n - i, logNT) then tail + t
               else SumFrom(m, n, i + 1, pTerm, t, tail + t, logNT)
  {
  }

  lemma SumFromEnd(m: Libm, n: nat, pTerm: real, term: real, tail: real, logNT: real)
    ensures SumFrom(m, n, n + 1, pTerm, term, tail, logNT) == tail
  {
  }

  predicate Arguments(n: int, k: int, p: real) {
    0 <= k <= n && 0.0 < p < 1.0
  }

  /** The value nfa stands for. */
  function Value(m: Libm, n: nat, k: nat, p: real, logNT: real): real
    requires Arguments(n, k, p)
  {
    var log1 := Log1Term(m, n, k, p);
    var term := m.exp(log1);
    if n == 0 || k == 0 then -logNT
    else if n == k then -logNT - n as real * m.log10(p)
    else if term == 0.0 then
      if k as real > n as real * p then -log1 / LN10 - logNT else -logNT
    else
      -m.log10(SumFrom(m, n, k + 1, p / (1.0 - p), term, term, logNT)) - logNT
  }

  const LN10: real := 2.30258509299404568402

  /** The static table: entry i is 0 as long as it is not needed, then the inverse of i. */
  class Inverses {
    const inv: array<real>

    ghost predicate Valid()
      reads inv
    {
      inv.Length == TABSIZE && forall i | 1 <= i < TABSIZE :: inv[i] == 0.0 || inv[i] == 1.0 / i as real
    }

    constructor ()
      ensures Valid() && fresh(inv)
    {
      inv := new real[TABSIZE](_ => 0.0);
    }

    method Inverse(i: nat) returns (v: real)
      requires Valid() && 1 <= i
      modifies inv
      ensures Valid() && v == 1.0 / i as real
    {
      if i < TABSIZE {
        if inv[i] != 0.0 {
          v := inv[i];
        } else {
          inv[i] := 1.0 / i as real;
          v := inv[i];
        }
      } else {
        v := 1.0 / i as real;
      }
    }

    /** Whatever calls filled the table before, the result is the one computed without it. */
    method Compute(m: Libm, n: nat, k: nat, p: real, logNT: real) returns (r: real)
      requires Valid() && Arguments(n, k, p)
      modifies inv
      ensures Valid() && r == Value(m, n, k, p, logNT)
    {
      hide Stops, Log1Term, SumFrom;
      if n == 0 || k == 0 {
        return -logNT;
      }
      if n == k {
        return -logNT - n as real * m.log10(p);
      }

      var pTerm := p / (1.0 - p);

      // the first term may decide already
      var log1 := Log1Term(m, n, k, p);
      var term := m.exp(log1);

      if term == 0.0 {
        if k as real > n as real * p {
          return -log1 / LN10 - logNT;
        } else {
          return -logNT;
        }
      }

      // the rest of the tail, term by term
      ghost var first := term;
      var tail := term;
      var i := k + 1;
      while i <= n
        invariant k + 1 <= i <= n + 1 && Valid()
        invariant SumFrom(m, n, i, pTerm, term, tail, logNT) == SumFrom(m, n, k + 1, pTerm, first, first, logNT)
      {
        SumFromStep(m, n, i, pTerm, term, tail, logNT);
        var v := Inverse(i);
        var binTerm := (n - i + 1) as real * v;
        assert binTerm == BinTerm(n, i);
        var mult := binTerm * pTerm;
        assert mult == MultTerm(n, i, pTerm) && term * mult == Product(term, mult);
        term := term * mult;
        tail := tail + term;
        if Stops(m, binTerm, mult, term, tail, n - i, logNT) {
          return -m.log10(tail) - logNT;
        }
        i := i + 1;
      }
      SumFromEnd(m, n, pTerm, term, tail, logNT);
      return -m.log10(tail) - logNT;
    }
  }

  /** log-gamma and exp deliver the first term of the series exactly. */
  ghost predicate FirstTermExact(m: Libm, n: nat, k: nat, p: real) {
    k <= n && m.exp(Log1Term(m, n, k, p)) == Term(n, k, p)
  }

  /** From an exact term on, the loop keeps terms exact; when it stops, the neglected part of the
      tail is not negative and within the allowed error. */
  lemma {:induction false} SumIsTail(m: Libm, n: nat, k: nat, i: nat, p: real, tail: real, logNT: real)
    requires 1 <= i <= n + 1 && 0.0 < p < 1.0 && tail > 0.0
    ensures var s := SumFrom(m, n, i, p / (1.0 - p), Term(n, i - 1, p), tail, logNT);
            && s > 0.0
            && (s == tail + Tail(n, i, p)
                || 0.0 <= (tail + Tail(n, i, p)) - s < Allowed(m, s, logNT))
    decreases n - i
  {
    hide *;
    var pTerm, t0, rest := p / (1.0 - p), Term(n, i - 1, p), Tail(n, i, p);
    if i <= n {
      RatioIs(n, i, p);
      TermIs(n, i, p);
      TermPos(n, i, p);
      TailUnfold(n, i, p);
      SumFromStep(m, n, i, pTerm, t0, tail, logNT);
      var mult, t := MultTerm(n, i, pTerm), Term(n, i, p);
      if Stops(m, BinTerm(n, i), mult, t, tail + t, n - i, logNT) {
        StopsWithin(m, n, i, p, tail + t, logNT);
      } else {
        SumIsTail(m, n, k, i + 1, p, tail + t, logNT);
      }
    } else {
      SumFromEnd(m, n, pTerm, t0, tail, logNT);
      TailUnfold(n, i, p);
    }
  }

  lemma TermIs(n: nat, i: nat, p: real)
    requires 1 <= i <= n && 0.0 < p < 1.0
    ensures Term(n, i, p) == Product(Term(n, i - 1, p), Ratio(n, i, p))
  {
    TermStep(n, i, p);
  }

  lemma TailUnfold(n: nat, i: nat, p: real)
    ensures Tail(n, i, p) == if i > n then 0.0 else Term(n, i, p) + Tail(n, i + 1, p)
  {
  }

  lemma StopsWithin(m: Libm, n: nat, i: nat, p: real, s: real, logNT: real)
    requires 1 <= i <= n && 0.0 < p < 1.0
    requires Stops(m, BinTerm(n, i), Ratio(n, i, p), Term(n, i, p), s, n - i, logNT)
    ensures 0.0 <= Tail(n, i + 1, p) < Allowed(m, s, logNT)
  {
    NeglectedPart(n, i, p, Ratio(n, i, p));
  }

  lemma RatioIs(n: nat, i: nat, p: real)
    requires 1 <= i <= n && 0.0 < p < 1.0
    ensures Ratio(n, i, p) == MultTerm(n, i, p / (1.0 - p))
  {
  }

  lemma ErrorIs(term: real, mult: real, rest: nat)
    requires mult != 1.0
    ensures TruncationError(term, mult, rest) == term * Geometric(mult, rest)
  {
    GeometricClosed(mult, rest);
    hide Pow, Geometric;
  }

  /** The truncation error of line 1144 bounds the neglected terms, for any quotient but 1. */
  lemma NeglectedPart(n: nat, i: nat, p: real, mult: real)
    requires 1 <= i <= n && 0.0 < p < 1.0 && mult != 1.0 && mult == Ratio(n, i, p)
    ensures 0.0 <= Tail(n, i + 1, p) <= TruncationError(Term(n, i, p), mult, n - i)
  {
    RatioFalls(n, i, i, p);
    if i < n {
      RatioFalls(n, i, i + 1, p);
    }
    TailBound(n, i, p, mult);
    ErrorIs(Term(n, i, p), mult, n - i);
    hide *;
  }

  /** After term j the terms fall, by their quotient, and a geometric series with the quotient j as its bound is within
      a tenth of the logarithm of the sum `s`. */
  ghost predicate Enough(m: Libm, n: nat, j: nat, p: real, s: real, logNT: real)
    requires 1 <= j <= n && 0.0 < p < 1.0
  {
    && 2 * j > n + 1 && Ratio(n, j, p) != 1.0
    && Product(Term(n, j, p), Geometric(Ratio(n, j, p), n - j)) < Product(0.1 * Abs(-m.log10(s) - logNT), s)
  }

  /** Probability of i..j successes. */
  ghost function Terms(n: nat, i: nat, j: nat, p: real): real {
    Tail(n, i, p) - Tail(n, j + 1, p)
  }

  /** Where the loop stops: at the first term that is enough, or at the end. */
  lemma {:induction false} SumStops(m: Libm, n: nat, k: nat, i: nat, p: real, logNT: real) returns (e: nat)
    requires 1 <= k < i <= n + 1 && 0.0 < p < 1.0
    ensures i - 1 <= e <= n && (i <= n ==> i <= e)
    ensures SumFrom(m, n, i, p / (1.0 - p), Term(n, i - 1, p), Terms(n, k, i - 1, p), logNT) == Terms(n, k, e, p)
    ensures i <= e < n ==> Enough(m, n, e, p, Terms(n, k, e, p), logNT)
    ensures forall j: nat | i <= j < e :: !Enough(m, n, j, p, Terms(n, k, j, p), logNT)
    decreases n - i
  {
    hide *;
    var pTerm, t0 := p / (1.0 - p), Term(n, i - 1, p);
    e := n;
    if i <= n {
      RatioIs(n, i, p);
      TermIs(n, i, p);
      NextTerms(n, k, i, p);
      SumFromStep(m, n, i, pTerm, t0, Terms(n, k, i - 1, p), logNT);
      var t, s := Term(n, i, p), Terms(n, k, i, p);
      StopsEnough(m, n, i, p, s, logNT);
      if Stops(m, BinTerm(n, i), MultTerm(n, i, pTerm), t, s, n - i, logNT) {
        e := i;
      } else {
        e := SumStops(m, n, k, i + 1, p, logNT);
      }
    } else {
      SumFromEnd(m, n, pTerm, t0, Terms(n, k, n, p), logNT);
    }
  }

  lemma NextTerms(n: nat, k: nat, i: nat, p: real)
    requires 1 <= i <= n
    ensures Terms(n, k, i, p) == Terms(n, k, i - 1, p) + Term(n, i, p)
  {
    TailUnfold(n, i, p);
    hide Tail, Term;
  }

  /** So the value is that of k to e successes, for the first e past k that is enough, or for e == n. */
  lemma ValueOfTerms(m: Libm, n: nat, k: nat, p: real, logNT: real) returns (e: nat)
    requires m.Lawful() && LogLawful(m) && ExpLawful(m) && 0 < k < n && 0.0 < p < 1.0
    ensures k < e <= n && Value(m, n, k, p, logNT) == -m.log10(Terms(n, k, e, p)) - logNT
    ensures e < n ==> Enough(m, n, e, p, Terms(n, k, e, p), logNT)
    ensures forall j: nat | k < j < e :: !Enough(m, n, j, p, Terms(n, k, j, p), logNT)
  {
    hide Libm.Lawful, LogLawful, ExpLawful, Value, Term, Tail, Enough, SumFrom;
    FirstTermIsExact(m, n, k, p);
    TermPos(n, k, p);
    TailUnfold(n, k, p);
    assert Terms(n, k, k, p) == Term(n, k, p);
    ValueIs(m, n, k, p, logNT);
    e := SumStops(m, n, k, k + 1, p, logNT);
  }

  lemma StopsEnough(m: Libm, n: nat, i: nat, p: real, s: real, logNT: real)
    requires 1 <= i <= n && 0.0 < p < 1.0
    ensures Stops(m, BinTerm(n, i), MultTerm(n, i, p / (1.0 - p)), Term(n, i, p), s, n - i, logNT)
            <==> Enough(m, n, i, p, s, logNT)
  {
    RatioIs(n, i, p);
    SecondHalf(n, i);
    hide BinTerm, MultTerm, Term, Ratio, Geometric, TruncationError;
    if Ratio(n, i, p) != 1.0 {
      ErrorIs(Term(n, i, p), Ratio(n, i, p), n - i);
    }
  }

  lemma SecondHalf(n: nat, i: nat)
    requires 1 <= i <= n
    ensures BinTerm(n, i) < 1.0 <==> 2 * i > n + 1
  {
    var k := (n - i + 1) as real;
    InverseTimes(k, i as real);
    BelowOne(k * (1.0 / i as real), k, i as real);
  }

  lemma InverseTimes(k: real, i: real)
    requires i > 0.0
    ensures (k * (1.0 / i)) * i == k
  {
    var v := 1.0 / i;
    assert v * i == 1.0;
    assert (k * v) * i == k * (v * i);
  }

  lemma BelowOne(q: real, k: real, i: real)
    requires i > 0.0 && q * i == k
    ensures q < 1.0 <==> k < i
  {
    if q < 1.0 {
      MulMonoStrict(q, 1.0, i);
    } else {
      MulMono(1.0, q, i);
    }
  }

  /** The exact number of false alarms, on the logarithmic scale. */
  ghost function Exact(m: Libm, n: nat, k: nat, p: real, logNT: real): real {
    -m.log10(Tail(n, k, p)) - logNT
  }

  /* The first term is exact whenever the logarithms are. */

  /** Laws of the natural logarithm and of the logarithm of the gamma function, n! being the gamma function of n+1. */
  ghost predicate LogLawful(m: Libm) {
    && (forall x, y :: x > 0.0 && y > 0.0 ==> m.ln(Product(x, y)) == m.ln(x) + m.ln(y))
    && (forall n: nat :: m.logGamma(n as real + 1.0) == m.ln(Factorial(n) as real))
  }

  /** The exponential undoes the natural logarithm. */
  ghost predicate ExpLawful(m: Libm) {
    forall x :: x > 0.0 ==> m.exp(m.ln(x)) == x
  }

  lemma LnProduct(m: Libm, x: real, y: real)
    requires LogLawful(m) && x > 0.0 && y > 0.0
    ensures m.ln(Product(x, y)) == m.ln(x) + m.ln(y)
  {
  }

  lemma LnGamma(m: Libm, n: nat)
    requires LogLawful(m)
    ensures m.logGamma(n as real + 1.0) == m.ln(Factorial(n) as real)
  {
  }

  lemma {:induction false} LnPow(m: Libm, x: real, n: nat)
    requires LogLawful(m) && x > 0.0
    ensures m.ln(Pow(x, n)) == n as real * m.ln(x)
  {
    hide LogLawful;
    if n == 0 {
      assert Product(1.0, 1.0) == 1.0;
      LnProduct(m, 1.0, 1.0);
    } else {
      LnPow(m, x, n - 1);
      PowPos(x, n - 1);
      LnProduct(m, x, Pow(x, n - 1));
      assert Pow(x, n) == Product(x, Pow(x, n - 1));
      var l := m.ln(x);
      Distribute(l, (n - 1) as real, 1.0, n as real);
      assert m.ln(Pow(x, n)) == l + (n - 1) as real * l;
    }
  }

  lemma LnChoose(m: Libm, n: nat, k: nat)
    requires LogLawful(m) && k <= n
    ensures Choose(n, k) > 0
    ensures m.ln(Choose(n, k) as real)
            == m.logGamma(n as real + 1.0) - m.logGamma(k as real + 1.0) - m.logGamma((n - k) as real + 1.0)
  {
    hide LogLawful, Choose, Factorial;
    var c, f, g := Choose(n, k), Factorial(k), Factorial(n - k);
    ChoosePos(n, k);
    ChooseFactorial(n, k);
    CastProduct(f, g);
    CastProduct(c, f * g);
    MulPos(f as real, g as real);
    LnProduct(m, f as real, g as real);
    LnProduct(m, c as real, Product(f as real, g as real));
    assert Factorial(n) as real == Product(c as real, Product(f as real, g as real));
    LnGamma(m, n);
    LnGamma(m, k);
    LnGamma(m, n - k);
  }

  lemma LnWeigh(m: Libm, c: real, a: real, b: real)
    requires LogLawful(m) && c > 0.0 && a > 0.0 && b > 0.0
    ensures m.ln(Weigh(c, a, b)) == m.ln(c) + (m.ln(a) + m.ln(b))
  {
    hide LogLawful;
    MulPos(a, b);
    LnProduct(m, a, b);
    LnProduct(m, c, Product(a, b));
    assert Weigh(c, a, b) == Product(c, Product(a, b));
  }

  /** The logarithm with which nfa starts is that of the probability of exactly k successes. */
  lemma FirstTermLog(m: Libm, n: nat, k: nat, p: real)
    requires LogLawful(m) && k <= n && 0.0 < p < 1.0
    ensures Term(n, k, p) > 0.0 && m.ln(Term(n, k, p)) == Log1Term(m, n, k, p)
  {
    TermPos(n, k, p);
    var c, a, b := Choose(n, k) as real, Pow(p, k), Pow(1.0 - p, n - k);
    assert Term(n, k, p) == Weigh(c, a, b);
    hide LogLawful, Choose, Pow, Term, Weigh;
    LnChoose(m, n, k);
    PowPos(p, k);
    PowPos(1.0 - p, n - k);
    LnWeigh(m, c, a, b);
    LnPow(m, p, k);
    LnPow(m, 1.0 - p, n - k);
  }

  lemma FirstTermIsExact(m: Libm, n: nat, k: nat, p: real)
    requires LogLawful(m) && ExpLawful(m) && k <= n && 0.0 < p < 1.0
    ensures FirstTermExact(m, n, k, p)
  {
    hide LogLawful, Log1Term, Term;
    FirstTermLog(m, n, k, p);
  }

  /** Where the exponential underflows the result is that of the first term alone, or of a certain event. */
  lemma Underflow(m: Libm, n: nat, k: nat, p: real, logNT: real)
    requires LogLawful(m) && Arguments(n, k, p) && 0 < k < n && m.exp(m.ln(Term(n, k, p))) == 0.0
    requires m.log10(Term(n, k, p)) == m.ln(Term(n, k, p)) / 2.30258509299404568402
    ensures Value(m, n, k, p, logNT)
            == if k as real > n as real * p then -m.log10(Term(n, k, p)) - logNT else -logNT
  {
    hide LogLawful, Log1Term, Term;
    FirstTermLog(m, n, k, p);
  }

  /** What the documentation of nfa promises: for a number of tests t the result never falls short of the
      exact -log10(t * tail), and exceeds it by at most 10% of the result. */
  lemma WithinTenPercent(m: Libm, n: nat, k: nat, p: real, t: real)
    requires m.Lawful() && LogLawful(m) && ExpLawful(m) && Arguments(n, k, p) && t > 0.0
    ensures var r, exact := Value(m, n, k, p, m.log10(t)), -m.log10(t * Tail(n, k, p));
            Tail(n, k, p) > 0.0 && 0.0 <= r - exact <= 0.1 * Abs(r)
  {
    hide Libm.Lawful, LogLawful, ExpLawful, FirstTermExact, Value;
    FirstTermIsExact(m, n, k, p);
    NearExact(m, n, k, p, m.log10(t));
    TailPos(n, k, p);
    LogProduct(m, t, Tail(n, k, p));
    assert t * Tail(n, k, p) == Product(t, Tail(n, k, p));
  }

  lemma {:induction false} TailNonNeg(n: nat, k: nat, p: real)
    requires 0.0 < p < 1.0
    ensures Tail(n, k, p) >= 0.0
    decreases n - k
  {
    hide Term;
    if k <= n {
      TermPos(n, k, p);
      TailNonNeg(n, k + 1, p);
    }
  }

  lemma TailPos(n: nat, k: nat, p: real)
    requires k <= n && 0.0 < p < 1.0
    ensures Tail(n, k, p) > 0.0
  {
    hide Term;
    TermPos(n, k, p);
    TailNonNeg(n, k + 1, p);
  }

  /** An exact first term is enough. */
  lemma NearExact(m: Libm, n: nat, k: nat, p: real, logNT: real)
    requires m.Lawful() && Arguments(n, k, p) && FirstTermExact(m, n, k, p)
    ensures var r := Value(m, n, k, p, logNT);
            0.0 <= r - Exact(m, n, k, p, logNT) <= TOLERANCE * Abs(r)
  {
    assert k <= n;
    hide *;
    if k == 0 {
      NoSuccess(m, n, p, logNT);
    } else if n == k {
      AllSuccesses(m, n, p, logNT);
    } else {
      SomeSuccesses(m, n, k, p, logNT);
    }
  }

  lemma SomeSuccesses(m: Libm, n: nat, k: nat, p: real, logNT: real)
    requires m.Lawful() && Arguments(n, k, p) && 0 < k < n && FirstTermExact(m, n, k, p)
    ensures var r := Value(m, n, k, p, logNT);
            0.0 <= r - Exact(m, n, k, p, logNT) <= TOLERANCE * Abs(r)
  {
    assert 0.0 < p < 1.0;
    hide *;
    TermPos(n, k, p);
    var s := SumFrom(m, n, k + 1, p / (1.0 - p), Term(n, k, p), Term(n, k, p), logNT);
    ValueIs(m, n, k, p, logNT);
    SumIsTail(m, n, k, k + 1, p, Term(n, k, p), logNT);
    TailUnfold(n, k, p);
    SumIsNear(m, s, Tail(n, k, p), logNT);
  }

  lemma NoSuccess(m: Libm, n: nat, p: real, logNT: real)
    requires m.Lawful() && Arguments(n, 0, p)
    ensures var r := Value(m, n, 0, p, logNT);
            0.0 <= r - Exact(m, n, 0, p, logNT) <= TOLERANCE * Abs(r)
  {
    hide Log1Term, SumFrom, Term, Tail, Libm.Lawful;
    TailTotal(n, p);
    LogAboveOne(m, 1.0);
  }

  lemma AllSuccesses(m: Libm, n: nat, p: real, logNT: real)
    requires m.Lawful() && Arguments(n, n, p) && n > 0
    ensures var r := Value(m, n, n, p, logNT);
            0.0 <= r - Exact(m, n, n, p, logNT) <= TOLERANCE * Abs(r)
  {
    hide Log1Term, SumFrom, Term, Tail, Pow, Libm.Lawful;
    TopTerm(n, p);
    LogPow(m, p, n);
  }

  lemma ValueIs(m: Libm, n: nat, k: nat, p: real, logNT: real)
    requires Arguments(n, k, p) && 0 < k < n && FirstTermExact(m, n, k, p) && Term(n, k, p) > 0.0
    ensures Value(m, n, k, p, logNT)
            == -m.log10(SumFrom(m, n, k + 1, p / (1.0 - p), Term(n, k, p), Term(n, k, p), logNT)) - logNT
    ensures Exact(m, n, k, p, logNT) == -m.log10(Tail(n, k, p)) - logNT
  {
    hide Log1Term, SumFrom, Term, Tail;
  }

  /** A sum within the allowed error of the tail has nearly the same logarithm. */
  lemma SumIsNear(m: Libm, s: real, t: real, logNT: real)
    requires m.Lawful() && s > 0.0 && (s == t || 0.0 <= t - s < Allowed(m, s, logNT))
    ensures var r := -m.log10(s) - logNT;
            0.0 <= r - (-m.log10(t) - logNT) <= TOLERANCE * Abs(r)
  {
    hide Libm.Lawful;
    LogNear(m, s, t, TOLERANCE * Abs(-m.log10(s) - logNT));
  }

  lemma TopTerm(n: nat, p: real)
    ensures Tail(n, n, p) == Pow(p, n)
  {
    EndChoose(n);
    assert Tail(n, n + 1, p) == 0.0;
  }

  lemma {:induction false} LogPow(m: Libm, p: real, n: nat)
    requires m.Lawful() && p > 0.0
    ensures m.log10(Pow(p, n)) == n as real * m.log10(p)
  {
    hide Libm.Lawful;
    if n == 0 {
      LogAboveOne(m, 1.0);
    } else {
      LogPow(m, p, n - 1);
      PowPos(p, n - 1);
      LogProduct(m, p, Pow(p, n - 1));
      assert Pow(p, n) == Product(p, Pow(p, n - 1));
      var l := m.log10(p);
      Distribute(l, (n - 1) as real, 1.0, n as real);
      assert m.log10(Pow(p, n)) == l + (n - 1) as real * l;
    }
  }

  lemma LogProduct(m: Libm, x: real, y: real)
    requires m.Lawful() && x > 0.0 && y > 0.0
    ensures m.log10(Product(x, y)) == m.log10(x) + m.log10(y)
  {
  }

  /** A relative error of e moves the logarithm by at most e. */
  lemma LogNear(m: Libm, s: real, t: real, e: real)
    requires m.Lawful() && s > 0.0 && e >= 0.0 && 0.0 <= t - s && (t == s || t - s < e * s)
    ensures 0.0 <= m.log10(t) - m.log10(s) <= e
  {
    var q := t / s;
    assert q * s == t;
    assert 1.0 <= q <= 1.0 + e by {
      if q < 1.0 {
        MulMonoStrict(q, 1.0, s);
      } else if q > 1.0 + e {
        MulNonNeg(e, s);
        assert (1.0 + e) * s == s + e * s;
        MulMonoStrict(1.0 + e, q, s);
      }
    }
    assert t == Product(q, s);
    LogProduct(m, q, s);
    LogAboveOne(m, q);
  }

  lemma LogAboveOne(m: Libm, q: real)
    requires m.Lawful() && q >= 1.0
    ensures 0.0 <= m.log10(q) <= q - 1.0
  {
  }
}
