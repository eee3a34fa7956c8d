/** Gaussian sub-sampling by two one-dimensional passes (lsd.cpp: gaussian_kernel, gaussian_sampler). */
module Gaussian {
  import opened MathLib
  import opened Pixels

  /** Weights that average: none negative, their sum is one. */
  ghost predicate Averaging(k: seq<real>) {
    (forall i | 0 <= i < |k| :: k[i] >= 0.0) && Sum(k) == 1.0
  }

  function Bell(m: Libm, i: int, sigma: real, mean: real): real
    requires sigma > 0.0
  {
    m.exp(-0.5 * Sqr((i as real - mean) / sigma))
  }

  /** The kernel before normalization. */
  ghost function Bells(m: Libm, n: nat, sigma: real, mean: real): seq<real>
    requires sigma > 0.0
  {
    seq(n, i requires 0 <= i < n => Bell(m, i, sigma, mean))
  }

  lemma {:induction false} SumPositive(k: seq<real>)
    requires forall i | 0 <= i < |k| :: k[i] > 0.0
    ensures Sum(k) >= 0.0 && (k != [] ==> Sum(k) > 0.0)
  {
    if k != [] {
      SumPositive(k[..|k| - 1]);
    }
  }

  ghost function Scaled(k: seq<real>, d: real): seq<real>
    requires d != 0.0
  {
    seq(|k|, i requires 0 <= i < |k| => k[i] / d)
  }

  lemma {:induction false} SumScaled(k: seq<real>, d: real)
    requires d != 0.0
    ensures Sum(Scaled(k, d)) == Sum(k) / d
  {
    if k != [] {
      SumScaled(k[..|k| - 1], d);
      assert Scaled(k, d)[..|k| - 1] == Scaled(k[..|k| - 1], d);
      SumOfQuotients(Sum(k[..|k| - 1]), k[|k| - 1], d);
    }
  }

  lemma SumOfQuotients(a: real, b: real, d: real)
    requires d != 0.0
    ensures a / d + b / d == (a + b) / d
  {
  }

  lemma QuotientSign(a: real, d: real)
    requires a > 0.0 && d > 0.0
    ensures a / d >= 0.0 && d / d == 1.0
  {
  }

  /** Normalization makes the kernel an average. */
  lemma KernelAverages(m: Libm, n: nat, sigma: real, mean: real)
    requires m.Lawful() && sigma > 0.0 && n > 0
    ensures Sum(Bells(m, n, sigma, mean)) > 0.0
    ensures Averaging(Scaled(Bells(m, n, sigma, mean), Sum(Bells(m, n, sigma, mean))))
  {
    var k := Bells(m, n, sigma, mean);
    SumPositive(k);
    var d := Sum(k);
    hide Libm.Lawful, Bell;
    SumScaled(k, d);
    QuotientSign(d, d);
    forall i | 0 <= i < n
      ensures Scaled(k, d)[i] >= 0.0
    {
      BellPositive(m, i, sigma, mean);
      QuotientSign(k[i], d);
    }
  }

  lemma BellPositive(m: Libm, i: int, sigma: real, mean: real)
    requires m.Lawful() && sigma > 0.0
    ensures Bell(m, i, sigma, mean) > 0.0
  {
  }

  method GaussianKernel(m: Libm, kernel: array<real>, sigma: real, mean: real)
    requires m.Lawful() && sigma > 0.0 && kernel.Length > 0
    modifies kernel
    ensures var k := Bells(m, kernel.Length, sigma, mean);
            Sum(k) > 0.0 && kernel[..] == Scaled(k, Sum(k))
    ensures Averaging(kernel[..])
  {
    hide Libm.Lawful, Bell, Averaging, Sum;
    ghost var k := Bells(m, kernel.Length, sigma, mean);
    KernelAverages(m, kernel.Length, sigma, mean);
    var sum := 0.0;
    SumStart(k);
    var i := 0;
    while i < kernel.Length
      invariant 0 <= i <= kernel.Length && kernel[..i] == k[..i] && sum == Sum(k[..i])
    {
      SumStep(k, i);
      kernel[i] := Bell(m, i, sigma, mean);
      sum := sum + kernel[i];
      i := i + 1;
    }
    assert k[..i] == k && kernel[..i] == kernel[..];

    // divided by its sum
    if sum >= 0.0 {
      i := 0;
      while i < kernel.Length
        invariant 0 <= i <= kernel.Length
        invariant forall j | 0 <= j < i :: kernel[j] == k[j] / sum
        invariant forall j | i <= j < kernel.Length :: kernel[j] == k[j]
      {
        kernel[i] := kernel[i] / sum;
        i := i + 1;
      }
    }
  }

  lemma SumStart(k: seq<real>)
    ensures Sum(k[..0]) == 0.0
  {
  }

  lemma SumStep(k: seq<real>, i: nat)
    requires i < |k|
    ensures Sum(k[..i + 1]) == Sum(k[..i]) + k[i]
  {
    assert k[..i + 1][..i] == k[..i];
  }

  /** Reflection at both ends of 0..size-1, of period 2*size. */
  function Mirror(j: int, size: nat): (r: int)
    requires size > 0
    ensures 0 <= r < size
  {
    var r := j % (2 * size);
    if r < size then r else 2 * size - 1 - r
  }

  lemma MirrorIsReflection(j: int, size: nat)
    requires size > 0
    ensures Mirror(j + 2 * size, size) == Mirror(j, size)
    ensures Mirror(-1 - j, size) == Mirror(j, size)
    ensures 0 <= j < size ==> Mirror(j, size) == j
  {
    var p := 2 * size;
    var q, r := j / p, j % p;
    assert j == q * p + r;
    ModUnique(j + p, p, q + 1, r);
    assert -1 - j == (-q - 1) * p + (p - 1 - r);
    ModUnique(-1 - j, p, -q - 1, p - 1 - r);
    if 0 <= j < size {
      ModUnique(j, p, 0, j);
    }
  }

  lemma ModUnique(j: int, p: int, q: int, r: int)
    requires p > 0 && j == q * p + r && 0 <= r < p
    ensures j % p == r
  {
    var q', r' := j / p, j % p;
    assert (q - q') * p == r' - r;
    if q > q' {
      MulBound(1, q - q', p);
    } else if q < q' {
      MulBound(1, q' - q, p);
    }
  }

  /** Symmetry boundary condition, lines 679-681. */
  method Reflect(j0: int, size: nat) returns (j: int)
    requires size > 0
    ensures j == Mirror(j0, size)
  {
    j := j0;
    var period := 2 * size;
    while j < 0
      invariant j % period == j0 % period
      decreases -j
    {
      AddPeriod(j, period);
      j := j + period;
    }
    while j >= period
      invariant j % period == j0 % period && j >= 0
      decreases j
    {
      AddPeriod(j - period, period);
      j := j - period;
    }
    ModUnique(j, period, 0, j);
    if j >= size {
      j := period - 1 - j;
    }
  }

  lemma AddPeriod(j: int, p: int)
    requires p > 0
    ensures (j + p) % p == j % p
  {
    ModUnique(j + p, p, j / p + 1, j % p);
  }

  /** Weighted sum of a row, mirrored at its ends: the pixels x0.. of row y. */
  ghost function RowSum(im: ImageDouble, k: seq<real>, x0: int, y: int): real
    requires im.Valid() && 0 <= y < im.ysize
  {
    if k == [] then 0.0
    else RowSum(im, k[..|k| - 1], x0, y) + Product(im.At(Point(Mirror(x0 + |k| - 1, im.xsize), y)), k[|k| - 1])
  }

  /** Weighted sum of a column, mirrored at its ends: the pixels y0.. of column x. */
  ghost function ColumnSum(im: ImageDouble, k: seq<real>, x: int, y0: int): real
    requires im.Valid() && 0 <= x < im.xsize
  {
    if k == [] then 0.0
    else ColumnSum(im, k[..|k| - 1], x, y0) + Product(im.At(Point(x, Mirror(y0 + |k| - 1, im.ysize))), k[|k| - 1])
  }

  /** The two-dimensional filter in one piece: every pixel of the mirrored window, weighted by
      the product of its two weights. */
  ghost function WindowSum(im: ImageDouble, kx: seq<real>, ky: seq<real>, x0: int, y0: int): real
    requires im.Valid()
  {
    if ky == [] then 0.0
    else WindowSum(im, kx, ky[..|ky| - 1], x0, y0)
         + WindowRow(im, kx, ky[|ky| - 1], x0, Mirror(y0 + |ky| - 1, im.ysize))
  }

  ghost function WindowRow(im: ImageDouble, kx: seq<real>, wy: real, x0: int, y: int): real
    requires im.Valid() && 0 <= y < im.ysize
  {
    if kx == [] then 0.0
    else WindowRow(im, kx[..|kx| - 1], wy, x0, y)
         + Product(im.At(Point(Mirror(x0 + |kx| - 1, im.xsize), y)), Product(kx[|kx| - 1], wy))
  }

  lemma {:induction false} RowFactor(im: ImageDouble, kx: seq<real>, wy: real, x0: int, y: int)
    requires im.Valid() && 0 <= y < im.ysize
    ensures WindowRow(im, kx, wy, x0, y) == Product(RowSum(im, kx, x0, y), wy)
  {
    hide Product, Mirror;
    NoSum(wy);
    if kx != [] {
      var n := |kx| - 1;
      RowFactor(im, kx[..n], wy, x0, y);
      FactorOut(RowSum(im, kx[..n], x0, y), im.At(Point(Mirror(x0 + n, im.xsize), y)), kx[n], wy);
    }
  }

  lemma FactorOut(a: real, b: real, c: real, w: real)
    ensures Product(a, w) + Product(b, Product(c, w)) == Product(a + Product(b, c), w)
  {
  }

  lemma TimesNothing(a: real)
    ensures Product(a, 0.0) == 0.0
  {
  }

  lemma NoSum(w: real)
    ensures Product(0.0, w) == 0.0
  {
  }

  /** Only one weight: which pixel it is the weight of. */
  ghost function Unit(n: nat, i: nat): seq<real> {
    seq(n, j requires 0 <= j < n => if j == i then 1.0 else 0.0)
  }

  lemma {:induction false} RowOfOne(im: ImageDouble, n: nat, i: nat, wy: real, x0: int, y: int)
    requires im.Valid() && 0 <= y < im.ysize
    ensures WindowRow(im, Unit(n, i), wy, x0, y)
            == if i < n then Product(im.At(Point(Mirror(x0 + i, im.xsize), y)), wy) else 0.0
  {
    hide Mirror;
    if n > 0 {
      RowOfOne(im, n - 1, i, wy, x0, y);
      assert Unit(n, i)[..n - 1] == Unit(n - 1, i);
    }
  }

  /** The weights kx[i] and ky[j] belong to the pixel i to the right of and j below the first one of the window,
      mirrored into the image. */
  lemma {:induction false} WindowOfOne(im: ImageDouble, nx: nat, ny: nat, i: nat, j: nat, x0: int, y0: int)
    requires im.Valid() && i < nx
    ensures WindowSum(im, Unit(nx, i), Unit(ny, j), x0, y0)
            == if j < ny then im.At(Point(Mirror(x0 + i, im.xsize), Mirror(y0 + j, im.ysize))) else 0.0
  {
    hide Mirror, WindowRow;
    if ny > 0 {
      WindowOfOne(im, nx, ny - 1, i, j, x0, y0);
      assert Unit(ny, j)[..ny - 1] == Unit(ny - 1, j);
      RowOfOne(im, nx, i, Unit(ny, j)[ny - 1], x0, Mirror(y0 + ny - 1, im.ysize));
    }
  }

  /** Column `x` of `aux` holds the row sums of `im` at x0. */
  ghost predicate RowsSummed(im: ImageDouble, aux: ImageDouble, kx: seq<real>, x0: int, x: int) {
    && im.Valid() && aux.Valid() && aux.ysize == im.ysize && 0 <= x < aux.xsize
    && forall y | 0 <= y < im.ysize :: aux.At(Point(x, y)) == RowSum(im, kx, x0, y)
  }

  /** Separability: summing the row sums by column is the two-dimensional filter. */
  lemma {:induction false} Separable(im: ImageDouble, aux: ImageDouble, kx: seq<real>, ky: seq<real>,
                                     x0: int, y0: int, x: int)
    requires RowsSummed(im, aux, kx, x0, x)
    ensures ColumnSum(aux, ky, x, y0) == WindowSum(im, kx, ky, x0, y0)
  {
    hide Product, Mirror, RowSum;
    if ky != [] {
      var n := |ky| - 1;
      Separable(im, aux, kx, ky[..n], x0, y0, x);
      RowFactor(im, kx, ky[n], x0, Mirror(y0 + n, im.ysize));
    }
  }

  /** An average stays between the extremes. */
  lemma {:induction false} RowSumBounds(im: ImageDouble, k: seq<real>, x0: int, y: int, lo: real, hi: real)
    requires im.Valid() && 0 <= y < im.ysize && forall p | im.Has(p) :: lo <= im.At(p) <= hi
    requires forall i | 0 <= i < |k| :: k[i] >= 0.0
    ensures Product(lo, Sum(k)) <= RowSum(im, k, x0, y) <= Product(hi, Sum(k))
  {
    hide Product, Mirror;
    if k != [] {
      var n := |k| - 1;
      RowSumBounds(im, k[..n], x0, y, lo, hi);
      var v := im.At(Point(Mirror(x0 + n, im.xsize), y));
      WeightedBounds(lo, v, hi, k[n], Sum(k[..n]));
    } else {
      TimesNothing(lo);
      TimesNothing(hi);
    }
  }

  lemma WeightedBounds(lo: real, v: real, hi: real, w: real, t: real)
    requires lo <= v <= hi && w >= 0.0
    ensures Product(lo, t) + Product(v, w) >= Product(lo, t + w)
    ensures Product(hi, t) + Product(v, w) <= Product(hi, t + w)
  {
    MulMono(lo, v, w);
    MulMono(v, hi, w);
  }

  lemma {:induction false} ColumnSumBounds(im: ImageDouble, k: seq<real>, x: int, y0: int, lo: real, hi: real)
    requires im.Valid() && 0 <= x < im.xsize && forall y | 0 <= y < im.ysize :: lo <= im.At(Point(x, y)) <= hi
    requires forall i | 0 <= i < |k| :: k[i] >= 0.0
    ensures Product(lo, Sum(k)) <= ColumnSum(im, k, x, y0) <= Product(hi, Sum(k))
  {
    hide Product, Mirror;
    if k != [] {
      var n := |k| - 1;
      ColumnSumBounds(im, k[..n], x, y0, lo, hi);
      var v := im.At(Point(x, Mirror(y0 + n, im.ysize)));
      WeightedBounds(lo, v, hi, k[n], Sum(k[..n]));
    } else {
      TimesNothing(lo);
      TimesNothing(hi);
    }
  }

  /** Every output of the filter lies between the smallest and the largest input. */
  lemma WindowSumBounds(im: ImageDouble, aux: ImageDouble, kx: seq<real>, ky: seq<real>,
                        x0: int, y0: int, x: int, lo: real, hi: real)
    requires RowsSummed(im, aux, kx, x0, x) && Averaging(kx) && Averaging(ky)
    requires forall p | im.Has(p) :: lo <= im.At(p) <= hi
    ensures lo <= WindowSum(im, kx, ky, x0, y0) <= hi
  {
    hide RowSum, ColumnSum, WindowSum;
    forall y | 0 <= y < im.ysize
      ensures lo <= aux.At(Point(x, y)) <= hi
    {
      RowSumBounds(im, kx, x0, y, lo, hi);
    }
    ColumnSumBounds(aux, ky, x, y0, lo, hi);
    Separable(im, aux, kx, ky, x0, y0, x);
  }

  /** What one call of gaussian_sampler works with: scale, standard deviation, half kernel size. */
  datatype Sampling = Sampling(scale: real, sigma: real, half: nat)

  /** The pixel on which sample x is centered, lines 663-666. */
  function Center(c: Sampling, x: int): int
    requires c.scale > 0.0
  {
    (x as real / c.scale + 0.5).Floor
  }

  /** The first pixel of the window of sample x. */
  function First(c: Sampling, x: int): int
    requires c.scale > 0.0
  {
    Center(c, x) - c.half
  }

  function Mean(c: Sampling, x: int): real
    requires c.scale > 0.0
  {
    c.half as real + x as real / c.scale - Center(c, x) as real
  }

  /** The weights of sample x. */
  ghost function Weights(m: Libm, c: Sampling, x: int): seq<real>
    requires m.Lawful() && c.scale > 0.0 && c.sigma > 0.0
    ensures Averaging(Weights(m, c, x))
  {
    KernelAverages(m, 1 + 2 * c.half, c.sigma, Mean(c, x));
    var k := Bells(m, 1 + 2 * c.half, c.sigma, Mean(c, x));
    Scaled(k, Sum(k))
  }

  ghost predicate Proper(m: Libm, c: Sampling) {
    m.Lawful() && c.scale > 0.0 && c.sigma > 0.0
  }

  /** The window of sample x is centered on the pixel nearest to x/scale. */
  lemma CenterIsNearest(c: Sampling, x: int)
    requires c.scale > 0.0
    ensures var at := x as real / c.scale;
            at - 0.5 <  Center(c, x) as real <= at + 0.5 && at * c.scale == x as real
    ensures First(c, x) + c.half == Center(c, x)
  {
  }

  /** The weight of a pixel of the window is the bell at its distance d from x/scale, exp(-d^2 / (2 sigma^2)), over
      the sum of the window. */
  lemma WeightOfPixel(m: Libm, c: Sampling, x: int, i: nat) returns (e: real)
    requires m.Lawful() && c.scale > 0.0 && c.sigma > 0.0 && i <= 2 * c.half
    ensures var d := (First(c, x) + i) as real - x as real / c.scale; e * (2.0 * Sqr(c.sigma)) == -Sqr(d)
    ensures var sum := Sum(Bells(m, 1 + 2 * c.half, c.sigma, Mean(c, x)));
            |Weights(m, c, x)| == 1 + 2 * c.half && sum > 0.0 && Weights(m, c, x)[i] * sum == m.exp(e)
  {
    hide Libm.Lawful, First, Center, Mean, Bell, Sum;
    var mean, d := Mean(c, x), (First(c, x) + i) as real - x as real / c.scale;
    e := -0.5 * Sqr((i as real - mean) / c.sigma);
    KernelAverages(m, 1 + 2 * c.half, c.sigma, mean);
    var k := Bells(m, 1 + 2 * c.half, c.sigma, mean);
    MeanIsCenter(c, x, i);
    HalfSquare(d, c.sigma);
    BellIs(m, i, c.sigma, mean);
    TimesBack(k[i], Sum(k));
  }

  lemma MeanIsCenter(c: Sampling, x: int, i: nat)
    requires c.scale > 0.0
    ensures i as real - Mean(c, x) == (First(c, x) + i) as real - x as real / c.scale
  {
  }

  lemma BellIs(m: Libm, i: int, sigma: real, mean: real)
    requires sigma > 0.0
    ensures Bell(m, i, sigma, mean) == m.exp(-0.5 * Sqr((i as real - mean) / sigma))
  {
  }

  lemma HalfSquare(d: real, sigma: real)
    requires sigma > 0.0
    ensures (-0.5 * Sqr(d / sigma)) * (2.0 * Sqr(sigma)) == -Sqr(d)
  {
    var q := d / sigma;
    assert q * sigma == d;
    assert (-0.5 * (q * q)) * (2.0 * (sigma * sigma)) == -((q * sigma) * (q * sigma));
  }

  /** The kernel is recomputed for each sample, because its offset differs. */
  method KernelFor(m: Libm, c: Sampling, kernel: array<real>, x: int)
    requires Proper(m, c) && kernel.Length == 1 + 2 * c.half
    modifies kernel
    ensures kernel[..] == Weights(m, c, x)
  {
    GaussianKernel(m, kernel, c.sigma, Mean(c, x));
  }

  method SumRow(im: ImageDouble, kernel: array<real>, x0: int, y: int) returns (sum: real)
    requires im.Valid() && 0 <= y < im.ysize
    ensures sum == RowSum(im, kernel[..], x0, y)
  {
    hide Mirror;
    sum := 0.0;
    var i := 0;
    while i < kernel.Length
      invariant 0 <= i <= kernel.Length && sum == RowSum(im, kernel[..i], x0, y)
    {
      assert kernel[..i + 1][..i] == kernel[..i];
      var j := Reflect(x0 + i, im.xsize);
      sum := sum + Product(im.At(Point(j, y)), kernel[i]);
      i := i + 1;
    }
    assert kernel[..i] == kernel[..];
  }

  method SumColumn(im: ImageDouble, kernel: array<real>, x: int, y0: int) returns (sum: real)
    requires im.Valid() && 0 <= x < im.xsize
    ensures sum == ColumnSum(im, kernel[..], x, y0)
  {
    hide Mirror;
    sum := 0.0;
    var i := 0;
    while i < kernel.Length
      invariant 0 <= i <= kernel.Length && sum == ColumnSum(im, kernel[..i], x, y0)
    {
      assert kernel[..i + 1][..i] == kernel[..i];
      var j := Reflect(y0 + i, im.ysize);
      sum := sum + Product(im.At(Point(x, j)), kernel[i]);
      i := i + 1;
    }
    assert kernel[..i] == kernel[..];
  }

  /** Columns before x of the intermediate image are done, and y pixels of column x. */
  ghost predicate Pass1(m: Libm, c: Sampling, im: ImageDouble, aux: seq<real>, n: nat, x: int, y: int) {
    && Proper(m, c) && im.Valid() && |aux| == n * im.ysize
    && forall q | InGrid(q, n, im.ysize) && (q.x < x || (q.x == x && q.y < y)) ::
         Pix(aux, n, im.ysize, q) == RowSum(im, Weights(m, c, q.x), First(c, q.x), q.y)
  }

  lemma Pass1Step(m: Libm, c: Sampling, im: ImageDouble, aux: seq<real>, n: nat, p: Point, v: real)
    requires Pass1(m, c, im, aux, n, p.x, p.y) && InGrid(p, n, im.ysize)
    requires v == RowSum(im, Weights(m, c, p.x), First(c, p.x), p.y)
    ensures 0 <= Adr(p, n) < |aux| && Pass1(m, c, im, aux[Adr(p, n) := v], n, p.x, p.y + 1)
  {
    hide RowSum, First, Pix, Weights, Libm.Lawful;
    AdrBounds(p, n, im.ysize);
    forall q | InGrid(q, n, im.ysize)
      ensures Pix(aux[Adr(p, n) := v], n, im.ysize, q) == if q == p then v else Pix(aux, n, im.ysize, q)
    {
      PixUpdate(aux, n, im.ysize, p, v, q);
    }
  }

  lemma Pass1Next(m: Libm, c: Sampling, im: ImageDouble, aux: seq<real>, n: nat, x: int)
    requires im.Valid() && Pass1(m, c, im, aux, n, x, im.ysize)
    ensures Pass1(m, c, im, aux, n, x + 1, 0)
  {
    hide RowSum, First, Pix, Weights, Libm.Lawful;
  }

  /** First subsampling: x axis, lines 655-687. */
  method SampleX(m: Libm, c: Sampling, im: ImageDouble, n: nat) returns (aux: ImageDouble)
    requires Proper(m, c) && im.Valid() && n > 0
    ensures aux.Valid() && aux.xsize == n && aux.ysize == im.ysize
    ensures forall x | 0 <= x < n :: RowsSummed(im, aux, Weights(m, c, x), First(c, x), x)
  {
    hide RowSum, First, Pix, Weights, Libm.Lawful, Pass1, RowsSummed;
    var kernel := new real[1 + 2 * c.half];
    var data := new real[n * im.ysize](_ => 0.0);
    Pass1Start(m, c, im, data[..], n);
    var x := 0;
    while x < n
      invariant 0 <= x <= n && Pass1(m, c, im, data[..], n, x, 0)
    {
      KernelFor(m, c, kernel, x);
      var y := 0;
      while y < im.ysize
        invariant 0 <= y <= im.ysize && Pass1(m, c, im, data[..], n, x, y)
        invariant kernel[..] == Weights(m, c, x)
      {
        var sum := SumRow(im, kernel, First(c, x), y);
        Pass1Step(m, c, im, data[..], n, Point(x, y), sum);
        ghost var u := data[..];
        data[x + y * n] := sum;
        assert data[..] == u[Adr(Point(x, y), n) := sum];
        y := y + 1;
      }
      Pass1Next(m, c, im, data[..], n, x);
      x := x + 1;
    }
    aux := ImageDouble(data[..], n, im.ysize);
    Pass1Done(m, c, im, aux, n);
  }

  lemma Pass1Start(m: Libm, c: Sampling, im: ImageDouble, aux: seq<real>, n: nat)
    requires Proper(m, c) && im.Valid() && |aux| == n * im.ysize
    ensures Pass1(m, c, im, aux, n, 0, 0)
  {
  }

  lemma Pass1Done(m: Libm, c: Sampling, im: ImageDouble, aux: ImageDouble, n: nat)
    requires aux.xsize == n && aux.Valid() && im.Valid() && aux.ysize == im.ysize && Pass1(m, c, im, aux.data, n, n, 0)
    ensures forall x | 0 <= x < n :: RowsSummed(im, aux, Weights(m, c, x), First(c, x), x)
  {
    hide RowSum, First, Weights, Libm.Lawful;
    forall x, y | 0 <= x < n && 0 <= y < im.ysize
      ensures aux.At(Point(x, y)) == RowSum(im, Weights(m, c, x), First(c, x), y)
    {
      assert InGrid(Point(x, y), n, im.ysize);
    }
  }

  /** Rows before y of the output are done, and x pixels of row y. */
  ghost predicate Pass2(m: Libm, c: Sampling, aux: ImageDouble, out: seq<real>, h: nat, x: int, y: int) {
    && Proper(m, c) && aux.Valid() && |out| == aux.xsize * h
    && forall q | InGrid(q, aux.xsize, h) && (q.y < y || (q.y == y && q.x < x)) ::
         Pix(out, aux.xsize, h, q) == ColumnSum(aux, Weights(m, c, q.y), q.x, First(c, q.y))
  }

  lemma Pass2Step(m: Libm, c: Sampling, aux: ImageDouble, out: seq<real>, h: nat, p: Point, v: real)
    requires Pass2(m, c, aux, out, h, p.x, p.y) && InGrid(p, aux.xsize, h)
    requires v == ColumnSum(aux, Weights(m, c, p.y), p.x, First(c, p.y))
    ensures 0 <= Adr(p, aux.xsize) < |out| && Pass2(m, c, aux, out[Adr(p, aux.xsize) := v], h, p.x + 1, p.y)
  {
    hide ColumnSum, First, Pix, Weights, Libm.Lawful;
    AdrBounds(p, aux.xsize, h);
    forall q | InGrid(q, aux.xsize, h)
      ensures Pix(out[Adr(p, aux.xsize) := v], aux.xsize, h, q) == if q == p then v else Pix(out, aux.xsize, h, q)
    {
      PixUpdate(out, aux.xsize, h, p, v, q);
    }
  }

  lemma Pass2Next(m: Libm, c: Sampling, aux: ImageDouble, out: seq<real>, h: nat, y: int)
    requires Pass2(m, c, aux, out, h, aux.xsize, y)
    ensures Pass2(m, c, aux, out, h, 0, y + 1)
  {
    hide ColumnSum, First, Pix, Weights, Libm.Lawful;
  }

  lemma Pass2Start(m: Libm, c: Sampling, aux: ImageDouble, out: seq<real>, h: nat)
    requires Proper(m, c) && aux.Valid() && |out| == aux.xsize * h
    ensures Pass2(m, c, aux, out, h, 0, 0)
  {
  }

  /** Second subsampling: y axis, lines 689-721. */
  method SampleY(m: Libm, c: Sampling, aux: ImageDouble, h: nat) returns (out: ImageDouble)
    requires Proper(m, c) && aux.Valid() && h > 0
    ensures out.Valid() && out.xsize == aux.xsize && out.ysize == h
    ensures Pass2(m, c, aux, out.data, h, 0, h)
  {
    hide ColumnSum, First, Pix, Weights, Libm.Lawful, Pass2;
    var kernel := new real[1 + 2 * c.half];
    var n := aux.xsize;
    var data := new real[n * h](_ => 0.0);
    Pass2Start(m, c, aux, data[..], h);
    var y := 0;
    while y < h
      invariant 0 <= y <= h && Pass2(m, c, aux, data[..], h, 0, y)
    {
      KernelFor(m, c, kernel, y);
      var x := 0;
      while x < n
        invariant 0 <= x <= n && Pass2(m, c, aux, data[..], h, x, y)
        invariant kernel[..] == Weights(m, c, y)
      {
        var sum := SumColumn(aux, kernel, x, First(c, y));
        Pass2Step(m, c, aux, data[..], h, Point(x, y), sum);
        ghost var u := data[..];
        data[x + y * n] := sum;
        assert data[..] == u[Adr(Point(x, y), n) := sum];
        x := x + 1;
      }
      Pass2Next(m, c, aux, data[..], h, y);
      y := y + 1;
    }
    out := ImageDouble(data[..], n, h);
  }

  /** All gray levels lie in [lo,hi]. */
  ghost predicate Between(im: ImageDouble, lo: real, hi: real) {
    im.Valid() && forall p | im.Has(p) :: lo <= im.At(p) <= hi
  }

  const PREC: real := 3.0

  function SamplingFor(m: Libm, scale: real, sigmaScale: real): (c: Sampling)
    requires m.Lawful() && scale > 0.0 && sigmaScale > 0.0
    ensures c.scale == scale && c.sigma > 0.0
  {
    var sigma := if scale < 1.0 then sigmaScale / scale else sigmaScale;
    var h := Ceil(sigma * m.sqrt(2.0 * PREC * m.ln(10.0)));
    HalfSizeNonNeg(m, sigmaScale, scale, sigma);
    Sampling(scale, sigma, h)
  }

  lemma HalfSizeNonNeg(m: Libm, sigmaScale: real, scale: real, sigma: real)
    requires m.Lawful() && scale > 0.0 && sigmaScale > 0.0
    requires sigma == if scale < 1.0 then sigmaScale / scale else sigmaScale
    ensures sigma > 0.0 && Ceil(sigma * m.sqrt(2.0 * PREC * m.ln(10.0))) >= 0
  {
    QuotientPos(sigmaScale, scale);
    LogOfTen(m);
    SqrtLaw(m, 2.0 * PREC * m.ln(10.0));
    MulNonNeg(sigma, m.sqrt(2.0 * PREC * m.ln(10.0)));
  }

  /** At distance d the bell is at least three decimal digits below its top: its exponent -d^2 / (2 sigma^2) is at
      most -3 * ln 10. */
  ghost predicate Negligible(m: Libm, d: real, sigma: real) {
    Sqr(d) >= (6.0 * m.ln(10.0)) * Sqr(sigma)
  }

  /** The standard deviation in pixels of the input is sigma_scale of a pixel of the output when shrinking, and of the
      input when enlarging; the half size is the smallest whose weights outside are negligible. */
  lemma SamplingReach(m: Libm, scale: real, sigmaScale: real, d: real)
    requires m.Lawful() && scale > 0.0 && sigmaScale > 0.0
    ensures var c := SamplingFor(m, scale, sigmaScale);
            && c.sigma * (if scale < 1.0 then scale else 1.0) == sigmaScale
            && (d >= c.half as real ==> Negligible(m, d, c.sigma))
            && (0.0 <= d <= c.half as real - 1.0 ==> !Negligible(m, d, c.sigma))
  {
    SamplingIs(m, scale, sigmaScale);
    hide Libm.Lawful, SamplingFor, Negligible;
    var c := SamplingFor(m, scale, sigmaScale);
    Reaches(m, c.sigma, c.half, d);
  }

  /** So every pixel left out of the window of a sample has a negligible bell there. */
  lemma DiscardedIsNegligible(m: Libm, scale: real, sigmaScale: real, x: int, i: int)
    requires m.Lawful() && scale > 0.0 && sigmaScale > 0.0
    ensures var c := SamplingFor(m, scale, sigmaScale);
            i < 0 || i > 2 * c.half ==>
              Negligible(m, Abs((First(c, x) + i) as real - x as real / scale), c.sigma)
  {
    hide Libm.Lawful, Negligible;
    var c := SamplingFor(m, scale, sigmaScale);
    var d := Abs((First(c, x) + i) as real - x as real / scale);
    CenterIsNearest(c, x);
    SamplingReach(m, scale, sigmaScale, d);
  }

  lemma SamplingIs(m: Libm, scale: real, sigmaScale: real)
    requires m.Lawful() && scale > 0.0 && sigmaScale > 0.0
    ensures var c := SamplingFor(m, scale, sigmaScale);
            && c.half == Ceil(c.sigma * m.sqrt(2.0 * PREC * m.ln(10.0))) && c.sigma > 0.0
            && c.sigma * (if scale < 1.0 then scale else 1.0) == sigmaScale
  {
    hide Libm.Lawful;
    TimesBack(sigmaScale, scale);
  }

  lemma Reaches(m: Libm, sigma: real, half: nat, d: real)
    requires m.Lawful() && sigma > 0.0 && half == Ceil(sigma * m.sqrt(2.0 * PREC * m.ln(10.0)))
    ensures d >= half as real ==> Negligible(m, d, sigma)
    ensures 0.0 <= d <= half as real - 1.0 ==> !Negligible(m, d, sigma)
  {
    LogOfTen(m);
    SqrtLaw(m, 2.0 * PREC * m.ln(10.0));
    ReachSquare(sigma, m.sqrt(2.0 * PREC * m.ln(10.0)), 6.0 * m.ln(10.0));
    hide Libm.Lawful, Sqr;
    var reach := sigma * m.sqrt(2.0 * PREC * m.ln(10.0));
    if d >= 0.0 {
      SqrOrder(d, reach);
    }
  }

  lemma ReachSquare(sigma: real, r: real, n: real)
    requires sigma > 0.0 && r >= 0.0 && Sqr(r) == n
    ensures sigma * r >= 0.0 && Sqr(sigma * r) == n * Sqr(sigma)
  {
    MulNonNeg(sigma, r);
    assert Sqr(sigma * r) == Sqr(r) * Sqr(sigma);
  }

  lemma LogOfTen(m: Libm)
    requires m.Lawful()
    ensures m.ln(10.0) > 0.0
  {
  }

  /** The meaning of the sampler: each pixel is the two-dimensional sum, over the window around it and
      over the mirrored image, weighted with the products of the kernels of its column and its row. */
  ghost predicate IsSampled(m: Libm, im: ImageDouble, scale: real, sigmaScale: real, out: ImageDouble) {
    && m.Lawful() && im.Valid() && scale > 0.0 && sigmaScale > 0.0
    && out.Valid() && out.xsize == Ceil(im.xsize as real * scale) && out.ysize == Ceil(im.ysize as real * scale)
    && var c := SamplingFor(m, scale, sigmaScale);
       forall p | out.Has(p) ::
         out.At(p) == WindowSum(im, Weights(m, c, p.x), Weights(m, c, p.y), First(c, p.x), First(c, p.y))
  }

  lemma SampledUnique(m: Libm, im: ImageDouble, scale: real, sigmaScale: real, a: ImageDouble, b: ImageDouble)
    requires IsSampled(m, im, scale, sigmaScale, a) && IsSampled(m, im, scale, sigmaScale, b)
    ensures a == b
  {
    hide WindowSum, Weights, First, SamplingFor;
    forall p | InGrid(p, a.xsize, a.ysize)
      ensures Pix(a.data, a.xsize, a.ysize, p) == Pix(b.data, a.xsize, a.ysize, p)
    {
      assert a.Has(p) && b.Has(p);
      assert a.At(p) == b.At(p);
    }
    SameData(a.data, b.data, a.xsize, a.ysize);
  }

  /** Two images with the same pixels in a window. */
  ghost predicate AgreeOn(a: ImageDouble, b: ImageDouble, x0: int, y0: int, nx: nat, ny: nat) {
    && a.Valid() && b.Valid() && a.xsize == b.xsize && a.ysize == b.ysize
    && forall i, j | x0 <= i < x0 + nx && y0 <= j < y0 + ny ::
         a.At(Point(Mirror(i, a.xsize), Mirror(j, a.ysize))) == b.At(Point(Mirror(i, a.xsize), Mirror(j, a.ysize)))
  }

  lemma {:induction false} SameRow(a: ImageDouble, b: ImageDouble, kx: seq<real>, wy: real, x0: int, y0: int, ny: nat,
                                   y: int)
    requires AgreeOn(a, b, x0, y0, |kx|, ny) && y0 <= y < y0 + ny
    ensures WindowRow(a, kx, wy, x0, Mirror(y, a.ysize)) == WindowRow(b, kx, wy, x0, Mirror(y, a.ysize))
  {
    hide Mirror, Product;
    if kx != [] {
      SameRow(a, b, kx[..|kx| - 1], wy, x0, y0, ny, y);
    }
  }

  lemma {:induction false} SameWindow(a: ImageDouble, b: ImageDouble, kx: seq<real>, ky: seq<real>, x0: int, y0: int)
    requires AgreeOn(a, b, x0, y0, |kx|, |ky|)
    ensures WindowSum(a, kx, ky, x0, y0) == WindowSum(b, kx, ky, x0, y0)
  {
    hide Mirror, WindowRow;
    if ky != [] {
      var n := |ky| - 1;
      SameWindow(a, b, kx, ky[..n], x0, y0);
      SameRow(a, b, kx, ky[n], x0, y0, |ky|, y0 + n);
    }
  }

  /** A sample depends on nothing but the square of pixels, mirrored at the border, that reaches half a kernel from
      the pixel nearest to its place in the input. */
  lemma SampleIsLocal(m: Libm, a: ImageDouble, b: ImageDouble, scale: real, sigmaScale: real, outA: ImageDouble,
                      outB: ImageDouble, p: Point)
    requires m.Lawful() && scale > 0.0 && sigmaScale > 0.0
    requires IsSampled(m, a, scale, sigmaScale, outA) && IsSampled(m, b, scale, sigmaScale, outB)
    requires outA.Has(p) && outB.Has(p)
    requires var c := SamplingFor(m, scale, sigmaScale);
             AgreeOn(a, b, Center(c, p.x) - c.half, Center(c, p.y) - c.half, 1 + 2 * c.half, 1 + 2 * c.half)
    ensures outA.At(p) == outB.At(p)
  {
    hide *;
    var c := SamplingFor(m, scale, sigmaScale);
    SampleValue(m, a, scale, sigmaScale, outA, p);
    SameSize(a, b, Center(c, p.x) - c.half, Center(c, p.y) - c.half, 1 + 2 * c.half, 1 + 2 * c.half);
    SampleValue(m, b, scale, sigmaScale, outB, p);
    WeightCount(m, c, p.x);
    WeightCount(m, c, p.y);
    SameWindow(a, b, Weights(m, c, p.x), Weights(m, c, p.y), Center(c, p.x) - c.half, Center(c, p.y) - c.half);
  }

  lemma SampleValue(m: Libm, im: ImageDouble, scale: real, sigmaScale: real, out: ImageDouble, p: Point)
    requires IsSampled(m, im, scale, sigmaScale, out) && out.Has(p)
    ensures var c := SamplingFor(m, scale, sigmaScale);
            out.At(p) == WindowSum(im, Weights(m, c, p.x), Weights(m, c, p.y),
                                   Center(c, p.x) - c.half, Center(c, p.y) - c.half)
  {
    hide Libm.Lawful, WindowSum, SamplingFor, Center, Weights;
  }

  lemma WeightCount(m: Libm, c: Sampling, x: int)
    requires m.Lawful() && c.scale > 0.0 && c.sigma > 0.0
    ensures |Weights(m, c, x)| == 1 + 2 * c.half
  {
    hide Libm.Lawful, Sum;
  }

  lemma SameSize(a: ImageDouble, b: ImageDouble, x0: int, y0: int, nx: nat, ny: nat)
    requires AgreeOn(a, b, x0, y0, nx, ny)
    ensures a.Valid() && b.Valid() && a.xsize == b.xsize && a.ysize == b.ysize
  {
  }

  /** gaussian_sampler, lines 611-728: both passes, and no gray level leaves the range of the input. */
  method GaussianSampler(m: Libm, im: ImageDouble, scale: real, sigmaScale: real) returns (out: ImageDouble)
    requires m.Lawful() && im.Valid() && scale > 0.0 && sigmaScale > 0.0
    ensures out.Valid() && IsSampled(m, im, scale, sigmaScale, out)
    ensures forall lo, hi | Between(im, lo, hi) :: Between(out, lo, hi)
  {
    hide Libm.Lawful, Pass2, RowsSummed, WindowSum, Weights, First, SamplingFor;
    MulPos(im.xsize as real, scale);
    MulPos(im.ysize as real, scale);
    var n, h := Ceil(im.xsize as real * scale), Ceil(im.ysize as real * scale);
    var c := SamplingFor(m, scale, sigmaScale);
    var aux := SampleX(m, c, im, n);
    out := SampleY(m, c, aux, h);
    SamplesAre(m, c, im, aux, out);
  }

  lemma SamplesAre(m: Libm, c: Sampling, im: ImageDouble, aux: ImageDouble, out: ImageDouble)
    requires Proper(m, c) && out.Valid() && aux.Valid() && im.Valid() && out.xsize == aux.xsize
    requires forall x | 0 <= x < out.xsize :: RowsSummed(im, aux, Weights(m, c, x), First(c, x), x)
    requires Pass2(m, c, aux, out.data, out.ysize, 0, out.ysize)
    ensures forall p | out.Has(p) ::
              out.At(p) == WindowSum(im, Weights(m, c, p.x), Weights(m, c, p.y), First(c, p.x), First(c, p.y))
    ensures forall lo, hi | Between(im, lo, hi) :: Between(out, lo, hi)
  {
    hide Libm.Lawful, Pass2, RowsSummed, WindowSum, Weights, First;
    forall p | out.Has(p)
      ensures out.At(p) == WindowSum(im, Weights(m, c, p.x), Weights(m, c, p.y), First(c, p.x), First(c, p.y))
    {
      SampleIs(m, c, im, aux, out, p);
    }
    forall lo, hi | Between(im, lo, hi)
      ensures Between(out, lo, hi)
    {
      forall p | out.Has(p)
        ensures lo <= out.At(p) <= hi
      {
        WindowSumBounds(im, aux, Weights(m, c, p.x), Weights(m, c, p.y), First(c, p.x), First(c, p.y), p.x, lo, hi);
      }
    }
  }

  lemma SampleIs(m: Libm, c: Sampling, im: ImageDouble, aux: ImageDouble, out: ImageDouble, p: Point)
    requires Proper(m, c) && out.Valid() && out.Has(p) && aux.Valid() && out.xsize == aux.xsize
    requires RowsSummed(im, aux, Weights(m, c, p.x), First(c, p.x), p.x)
    requires Pass2(m, c, aux, out.data, out.ysize, 0, out.ysize)
    ensures out.At(p) == WindowSum(im, Weights(m, c, p.x), Weights(m, c, p.y), First(c, p.x), First(c, p.y))
  {
    hide Libm.Lawful, WindowSum, Weights, First;
    Separable(im, aux, Weights(m, c, p.x), Weights(m, c, p.y), First(c, p.x), First(c, p.y), p.x);
  }
}
