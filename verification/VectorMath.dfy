/** Sums over vectors, and the cosine similarity both drift measures use.

Floats are modelled as reals. A square root is passed in as a value `n` with `IsNorm(n, v)`. */
module VectorMath {

  type Vector = seq<real>

  function Dot(a: Vector, b: Vector): real
    requires |a| == |b|
  {
    if |a| == 0 then 0.0 else Dot(a[..|a| - 1], b[..|b| - 1]) + a[|a| - 1] * b[|b| - 1]
  }

  function Sum(a: Vector): real {
    if |a| == 0 then 0.0 else Sum(a[..|a| - 1]) + a[|a| - 1]
  }

  predicate IsRoot(n: real, square: real) {
    n >= 0.0 && n * n == square
  }

  predicate IsNorm(n: real, a: Vector) {
    IsRoot(n, Dot(a, a))
  }

  function Cosine(a: Vector, b: Vector, na: real, nb: real): real {
    if |a| != |b| || |a| == 0 then 0.0
    else if na > 0.0 && nb > 0.0 then Dot(a, b) / (na * nb)
    else 0.0
  }

  // ----- The Cauchy-Schwarz inequality

  lemma ProductIsPositive(x: real, y: real, r: real)
    requires x > 0.0 && y > 0.0 && r == x * y
    ensures r > 0.0
  {
  }

  /** A product kept apart from the arithmetic around it. */
  function Times(x: real, y: real): real {
    x * y
  }

  /** d * d, as a value known to be non-negative and zero only at zero. */
  function Square(d: real): (r: real)
    ensures r == d * d && r >= 0.0
    ensures r == 0.0 ==> d == 0.0
  {
    var e := if d < 0.0 then -d else d;
    var r := e * e;
    if d == 0.0 then 0.0 else ProductIsPositive(e, e, r); r
  }

  /** The squared length of x * a - y * b. */
  function Gap(a: Vector, b: Vector, x: real, y: real): (r: real)
    requires |a| == |b|
    ensures r >= 0.0
  {
    if |a| == 0 then 0.0
    else
      var d := x * a[|a| - 1] - y * b[|b| - 1];
      Gap(a[..|a| - 1], b[..|b| - 1], x, y) + Square(d)
  }

  lemma SquareOfDifference(x: real, p: real, y: real, q: real, d: real)
    requires d == Times(x, p) - Times(y, q)
    ensures SquareExpands(Square(d), x, y, p, q)
  {
    var s := Square(d);
    hide Square;
    var u, v := x * p, y * q;
    assert s == u * u - 2.0 * (u * v) + v * v;
    assert u * u == (x * x) * (p * p);
    assert v * v == (y * y) * (q * q);
    assert u * v == (x * y) * (p * q);
  }

  lemma DistributeThree(xx: real, xy: real, yy: real, aa: real, ab: real, bb: real, pp: real, pq: real, qq: real)
    ensures xx * (aa + pp) - 2.0 * xy * (ab + pq) + yy * (bb + qq)
         == (xx * aa - 2.0 * xy * ab + yy * bb) + (xx * pp - 2.0 * xy * pq + yy * qq)
  {
    assert xx * (aa + pp) == xx * aa + xx * pp;
    assert xy * (ab + pq) == xy * ab + xy * pq;
    assert yy * (bb + qq) == yy * bb + yy * qq;
  }

  /** The expanded square of x * a - y * b in terms of three dot products. */
  predicate Expands(g: real, x: real, y: real, aa: real, ab: real, bb: real) {
    g == (x * x) * aa - 2.0 * (x * y) * ab + (y * y) * bb
  }

  predicate SquareExpands(d2: real, x: real, y: real, p: real, q: real) {
    d2 == (x * x) * (p * p) - 2.0 * (x * y) * (p * q) + (y * y) * (q * q)
  }

  lemma ExpandsStep(g: real, d2: real, x: real, y: real, aa: real, ab: real, bb: real, p: real, q: real)
    requires Expands(g, x, y, aa, ab, bb) && SquareExpands(d2, x, y, p, q)
    ensures Expands(g + d2, x, y, aa + Times(p, p), ab + Times(p, q), bb + Times(q, q))
  {
    DistributeThree(x * x, x * y, y * y, aa, ab, bb, p * p, p * q, q * q);
  }

  lemma ExpandsZero(x: real, y: real)
    ensures Expands(0.0, x, y, 0.0, 0.0, 0.0)
  {
  }

  lemma DotStep(a: Vector, b: Vector)
    requires |a| == |b| > 0
    ensures Dot(a, b) == Dot(a[..|a| - 1], b[..|b| - 1]) + Times(a[|a| - 1], b[|b| - 1])
  {
  }

  lemma DotZero(a: Vector, b: Vector)
    requires |a| == |b| == 0
    ensures Dot(a, b) == 0.0
  {
  }

  lemma GapStep(a: Vector, b: Vector, x: real, y: real)
    requires |a| == |b| > 0
    ensures Gap(a, b, x, y) ==
      Gap(a[..|a| - 1], b[..|b| - 1], x, y) + Square(Times(x, a[|a| - 1]) - Times(y, b[|b| - 1]))
  {
  }

  lemma GapZero(a: Vector, b: Vector, x: real, y: real)
    requires |a| == |b| == 0
    ensures Gap(a, b, x, y) == 0.0
  {
  }

  lemma {:induction false} GapExpands(a: Vector, b: Vector, x: real, y: real)
    requires |a| == |b|
    ensures Expands(Gap(a, b, x, y), x, y, Dot(a, a), Dot(a, b), Dot(b, b))
  {
    hide Times, Square, Expands, SquareExpands, Dot, Gap;
    if |a| == 0 {
      GapZero(a, b, x, y);
      DotZero(a, a);
      DotZero(a, b);
      DotZero(b, b);
      ExpandsZero(x, y);
    } else {
      var a', b', p, q := a[..|a| - 1], b[..|b| - 1], a[|a| - 1], b[|b| - 1];
      GapExpands(a', b', x, y);
      var d := Times(x, p) - Times(y, q);
      SquareOfDifference(x, p, y, q, d);
      ExpandsStep(Gap(a', b', x, y), Square(d), x, y, Dot(a', a'), Dot(a', b'), Dot(b', b'), p, q);
      GapStep(a, b, x, y);
      DotStep(a, a);
      DotStep(a, b);
      DotStep(b, b);
    }
  }

  /** The value g is twice the product of n and q. */
  predicate IsTwice(g: real, n: real, q: real) {
    g == 2.0 * (n * q)
  }

  lemma ParallelNorms(na: real, nb: real, aa: real, bb: real, d: real, g: real)
    requires IsRoot(na, aa) && IsRoot(nb, bb) && Expands(g, nb, na, aa, d, bb)
    ensures IsTwice(g, na * nb, na * nb - d)
  {
    var n := na * nb;
    assert (nb * nb) * aa == n * n && (na * na) * bb == n * n;
    assert n * (n - d) == n * n - n * d;
  }

  lemma AntiparallelNorms(na: real, nb: real, m: real, aa: real, bb: real, d: real, g: real)
    requires IsRoot(na, aa) && IsRoot(nb, bb) && m == -na && Expands(g, nb, m, aa, d, bb)
    ensures IsTwice(g, na * nb, na * nb + d)
  {
    var n := na * nb;
    assert nb * m == -n && m * m == na * na;
    assert (nb * nb) * aa == n * n && (na * na) * bb == n * n;
    assert n * (n + d) == n * n + n * d;
  }

  /** The gap to parallel, and to antiparallel, measured by the two norms. */
  lemma GapToParallel(a: Vector, b: Vector, na: real, nb: real)
    requires |a| == |b| && IsNorm(na, a) && IsNorm(nb, b)
    ensures IsTwice(Gap(a, b, nb, na), na * nb, na * nb - Dot(a, b))
  {
    GapExpands(a, b, nb, na);
    hide Gap, Dot, IsRoot, Expands, IsTwice;
    ParallelNorms(na, nb, Dot(a, a), Dot(b, b), Dot(a, b), Gap(a, b, nb, na));
  }

  lemma GapToAntiparallel(a: Vector, b: Vector, na: real, nb: real)
    requires |a| == |b| && IsNorm(na, a) && IsNorm(nb, b)
    ensures IsTwice(Gap(a, b, nb, -na), na * nb, na * nb + Dot(a, b))
  {
    GapExpands(a, b, nb, -na);
    hide Gap, Dot, IsRoot, Expands, IsTwice;
    AntiparallelNorms(na, nb, -na, Dot(a, a), Dot(b, b), Dot(a, b), Gap(a, b, nb, -na));
  }

  /** The dot product is at most the product of the norms, for vectors of every length. */
  lemma CauchySchwarz(a: Vector, b: Vector, na: real, nb: real)
    requires |a| == |b| && IsNorm(na, a) && IsNorm(nb, b) && na > 0.0 && nb > 0.0
    ensures -(na * nb) <= Dot(a, b) <= na * nb
  {
    hide Dot, Gap, IsNorm, IsTwice;
    GapToParallel(a, b, na, nb);
    GapToAntiparallel(a, b, na, nb);
    ProductIsPositive(na, nb, na * nb);
    NonNegativeFactor(na * nb, na * nb - Dot(a, b), Gap(a, b, nb, na));
    NonNegativeFactor(na * nb, na * nb + Dot(a, b), Gap(a, b, nb, -na));
  }

  lemma NonNegativeFactor(n: real, q: real, g: real)
    requires n > 0.0 && IsTwice(g, n, q) && g >= 0.0
    ensures q >= 0.0
  {
    if q < 0.0 {
      var p := -q;
      ProductIsPositive(n, p, n * p);
    }
  }

  lemma SignOfProduct(x: real, y: real)
    requires y > 0.0
    ensures x > 0.0 <==> x * y > 0.0
    ensures x < 0.0 <==> x * y < 0.0
  {
  }

  lemma CosineInRange(a: Vector, b: Vector, na: real, nb: real)
    requires IsNorm(na, a) && IsNorm(nb, b)
    ensures -1.0 <= Cosine(a, b, na, nb) <= 1.0
  {
    if |a| == |b| && |a| > 0 && na > 0.0 && nb > 0.0 {
      CauchySchwarz(a, b, na, nb);
      SignOfProduct(na, nb);
      QuotientInRange(Dot(a, b), na * nb);
    }
  }

  lemma QuotientInRange(d: real, n: real)
    requires n > 0.0 && -n <= d <= n
    ensures -1.0 <= d / n <= 1.0
    ensures d / n == 1.0 <==> d == n
  {
    var q := d / n;
    assert q * n == d;
    SignOfProduct(q - 1.0, n);
    SignOfProduct(q + 1.0, n);
    assert (q - 1.0) * n == d - n && (q + 1.0) * n == d + n;
  }

  /** The similarity times the norms is the dot product; it is 0 for vectors of different lengths and
      for a zero vector. */
  lemma CosineValue(a: Vector, b: Vector, na: real, nb: real)
    ensures |a| == |b| > 0 && na > 0.0 && nb > 0.0 ==> Cosine(a, b, na, nb) * (na * nb) == Dot(a, b)
    ensures |a| != |b| || |a| == 0 || na <= 0.0 || nb <= 0.0 ==> Cosine(a, b, na, nb) == 0.0
  {
    if |a| == |b| > 0 && na > 0.0 && nb > 0.0 {
      ProductIsPositive(na, nb, na * nb);
      QuotientTimes(Dot(a, b), na * nb);
    }
  }

  lemma QuotientTimes(d: real, n: real)
    requires n > 0.0
    ensures (d / n) * n == d
  {
  }

  /** The dot product of two vectors given component by component. */
  lemma DotOfThree(a: real, b: real, c: real, x: real, y: real, z: real)
    ensures Dot([a, b, c], [x, y, z]) == a * x + b * y + c * z
  {
    assert [a, b, c][..2] == [a, b] && [x, y, z][..2] == [x, y];
    assert [a, b][..1] == [a] && [x, y][..1] == [x];
    assert [a][..0] == [] && [x][..0] == [];
    assert Dot([a], [x]) == a * x && Dot([a, b], [x, y]) == Dot([a], [x]) + b * y;
  }

  // ----- When the similarity is exactly 1

  /** `b` is a positive multiple of the non-zero vector `a`. */
  ghost predicate PositiveMultiple(b: Vector, a: Vector) {
    |a| == |b| && Dot(a, a) > 0.0 && exists s: real :: s > 0.0 && IsMultiple(b, s, a)
  }

  ghost predicate IsMultiple(b: Vector, s: real, a: Vector)
    requires |a| == |b|
  {
    forall i :: 0 <= i < |a| ==> b[i] == s * a[i]
  }

  lemma {:induction false} ZeroGapIsParallel(a: Vector, b: Vector, x: real, y: real)
    requires |a| == |b| && Gap(a, b, x, y) == 0.0
    ensures forall i :: 0 <= i < |a| ==> x * a[i] == y * b[i]
  {
    if |a| > 0 {
      var d := x * a[|a| - 1] - y * b[|b| - 1];
      assert Square(d) == 0.0;
      ZeroGapIsParallel(a[..|a| - 1], b[..|b| - 1], x, y);
      assert forall i :: 0 <= i < |a| - 1 ==> a[..|a| - 1][i] == a[i] && b[..|b| - 1][i] == b[i];
    }
  }

  predicate IsScaled(ab: real, bb: real, s: real, aa: real) {
    ab == s * aa && bb == s * s * aa
  }

  lemma ScaledStep(ab: real, bb: real, s: real, aa: real, p: real, q: real)
    requires IsScaled(ab, bb, s, aa) && q == Times(s, p)
    ensures IsScaled(ab + Times(p, q), bb + Times(q, q), s, aa + Times(p, p))
  {
    var pp, t := p * p, s * s;
    assert p * q == s * pp;
    assert q * q == t * pp;
    assert s * (aa + pp) == s * aa + s * pp && t * (aa + pp) == t * aa + t * pp;
  }

  lemma ScaledZero(s: real)
    ensures IsScaled(0.0, 0.0, s, 0.0)
  {
  }

  lemma {:induction false} DotOfMultiple(a: Vector, b: Vector, s: real)
    requires |a| == |b| && IsMultiple(b, s, a)
    ensures IsScaled(Dot(a, b), Dot(b, b), s, Dot(a, a))
  {
    hide Times, IsScaled, Dot;
    if |a| == 0 {
      DotZero(a, a);
      DotZero(a, b);
      DotZero(b, b);
      ScaledZero(s);
    } else {
      var a', b' := a[..|a| - 1], b[..|b| - 1];
      PrefixIsMultiple(a, b, s);
      hide IsMultiple;
      DotOfMultiple(a', b', s);
      ScaledStep(Dot(a', b'), Dot(b', b'), s, Dot(a', a'), a[|a| - 1], b[|b| - 1]);
      DotStep(a, a);
      DotStep(a, b);
      DotStep(b, b);
    }
  }

  lemma PrefixIsMultiple(a: Vector, b: Vector, s: real)
    requires |a| == |b| > 0 && IsMultiple(b, s, a)
    ensures IsMultiple(b[..|b| - 1], s, a[..|a| - 1]) && b[|b| - 1] == Times(s, a[|a| - 1])
  {
  }

  lemma CosineIsOneIff(a: Vector, b: Vector, na: real, nb: real)
    requires IsNorm(na, a) && IsNorm(nb, b)
    ensures Cosine(a, b, na, nb) == 1.0 <==> PositiveMultiple(b, a)
  {
    if PositiveMultiple(b, a) {
      MultipleHasCosineOne(a, b, na, nb);
    }
    if Cosine(a, b, na, nb) == 1.0 {
      CosineOneIsMultiple(a, b, na, nb);
    }
  }

  lemma MultipleHasCosineOne(a: Vector, b: Vector, na: real, nb: real)
    requires IsNorm(na, a) && IsNorm(nb, b) && PositiveMultiple(b, a)
    ensures Cosine(a, b, na, nb) == 1.0
  {
    var s: real :| s > 0.0 && IsMultiple(b, s, a);
    DotOfMultiple(a, b, s);
    assert na > 0.0;
    MultipleNorm(na, nb, s, Dot(a, a));
    QuotientInRange(Dot(a, b), na * nb);
  }

  lemma MultipleNorm(na: real, nb: real, s: real, square: real)
    requires na > 0.0 && nb >= 0.0 && s > 0.0 && na * na == square && nb * nb == s * s * square
    ensures nb == s * na && nb > 0.0 && na * nb == s * square && na * nb > 0.0
  {
    var m := s * na;
    SignOfProduct(s, na);
    assert nb * nb == m * m by {
      assert m * m == s * s * (na * na);
    }
    SquaresDetermine(nb, m);
    assert na * nb == s * (na * na);
    SignOfProduct(na, nb);
  }

  lemma SquaresDetermine(x: real, y: real)
    requires x >= 0.0 && y > 0.0 && x * x == y * y
    ensures x == y
  {
    SignOfProduct(x - y, x + y);
    assert (x - y) * (x + y) == x * x - y * y;
  }

  lemma CosineOneIsParallel(a: Vector, b: Vector, na: real, nb: real)
    requires IsNorm(na, a) && IsNorm(nb, b) && Cosine(a, b, na, nb) == 1.0
    ensures |a| == |b| && na > 0.0 && nb > 0.0 && Gap(a, b, nb, na) == 0.0
  {
    CauchySchwarz(a, b, na, nb);
    GapToParallel(a, b, na, nb);
    hide Gap, Dot, IsNorm, IsTwice;
    ProductIsPositive(na, nb, na * nb);
    QuotientInRange(Dot(a, b), na * nb);
    ZeroFactor(na * nb, na * nb - Dot(a, b), Gap(a, b, nb, na));
  }

  lemma ZeroFactor(n: real, q: real, g: real)
    requires IsTwice(g, n, q) && q == 0.0
    ensures g == 0.0
  {
  }

  lemma CosineOneIsMultiple(a: Vector, b: Vector, na: real, nb: real)
    requires IsNorm(na, a) && IsNorm(nb, b) && Cosine(a, b, na, nb) == 1.0
    ensures PositiveMultiple(b, a)
  {
    CosineOneIsParallel(a, b, na, nb);
    ProductIsPositive(na, na, Dot(a, a));
    hide Gap, Dot, Cosine, IsNorm;
    ZeroGapIsParallel(a, b, nb, na);
    var s := nb / na;
    assert s > 0.0;
    forall i | 0 <= i < |a| ensures b[i] == s * a[i] {
      DivideThrough(na, nb, a[i], b[i]);
    }
    assert IsMultiple(b, s, a);
  }

  lemma DivideThrough(na: real, nb: real, p: real, q: real)
    requires na > 0.0 && nb * p == na * q
    ensures q == (nb / na) * p
  {
    var s := nb / na;
    assert s * na == nb;
    assert na * (q - s * p) == na * q - (s * na) * p == 0.0;
  }
}
