/** The content fingerprint of a text: trigram counts by hash bucket, scaled to unit length. */
module TextEmbedding {
  import opened ByteStrings
  import opened VectorMath

  const FNV_OFFSET: bv64 := 0xcbf2_9ce4_8422_2325
  const FNV_PRIME: bv64 := 0x100_0000_01b3

  /** One byte of FNV-1a over 64-bit words; the multiplication wraps. */
  function FnvStep(hash: bv64, b: Byte): bv64 {
    (hash ^ (b as bv64)) * FNV_PRIME
  }

  function Fnv(window: Bytes): bv64 {
    if window == [] then FNV_OFFSET
    else FnvStep(Fnv(window[..|window| - 1]), window[|window| - 1])
  }

  function WindowSize(text: Bytes): nat {
    if |text| < 3 then |text| else 3
  }

  /** How many windows a non-empty text has. */
  function WindowCount(text: Bytes): nat
    requires text != []
  {
    |text| - WindowSize(text) + 1
  }

  function Bucket(text: Bytes, i: nat, dim: nat): (r: nat)
    requires dim > 0 && i + WindowSize(text) <= |text|
    ensures r < dim
  {
    BucketOf(Fnv(text[i..i + WindowSize(text)]), dim)
  }

  function BucketOf(hash: bv64, dim: nat): (r: nat)
    requires dim > 0
    ensures r < dim
  {
    Remainder(hash as nat, dim)
  }

  function Remainder(n: nat, dim: nat): (r: nat)
    requires dim > 0
    ensures r < dim
  {
    n % dim
  }

  function Zeros(dim: nat): (r: Vector)
    ensures |r| == dim && forall i :: 0 <= i < dim ==> r[i] == 0.0
  {
    seq(dim, _ => 0.0)
  }

  /** The buckets after the first `n` windows. */
  function Counts(text: Bytes, dim: nat, n: nat): (r: Vector)
    requires dim > 0 && text != [] && n <= WindowCount(text)
    ensures |r| == dim
  {
    if n == 0 then Zeros(dim)
    else
      var before, k := Counts(text, dim, n - 1), Bucket(text, n - 1, dim);
      before[k := before[k] + 1.0]
  }

  function AllCounts(text: Bytes, dim: nat): (r: Vector)
    requires dim > 0
    ensures |r| == dim
  {
    if text == [] then Zeros(dim) else Counts(text, dim, WindowCount(text))
  }

  function Scaled(v: Vector, norm: real): (r: Vector)
    requires norm != 0.0
    ensures |r| == |v| && forall i :: 0 <= i < |v| ==> r[i] == v[i] / norm
  {
    seq(|v|, i requires 0 <= i < |v| => v[i] / norm)
  }

  /** The fingerprint of `text`, given the norm of its counts. */
  function Embedding(text: Bytes, dim: nat, norm: real): (r: Vector)
    requires dim > 0
    ensures |r| == dim
  {
    if norm > 0.0 then Scaled(AllCounts(text, dim), norm) else AllCounts(text, dim)
  }

  method HashWindow(window: Bytes) returns (hash: bv64)
    ensures hash == Fnv(window)
  {
    hide FnvStep;
    hash := FNV_OFFSET;
    for j := 0 to |window|
      invariant hash == Fnv(window[..j])
    {
      hash := FnvStep(hash, window[j]);
      assert window[..j + 1][..j] == window[..j];
    }
    assert window[..|window|] == window;
  }

  method TextToEmbedding(text: Bytes, dim: nat, norm: real) returns (embedding: array<real>)
    requires dim > 0 && IsNorm(norm, AllCounts(text, dim))
    ensures fresh(embedding) && embedding[..] == Embedding(text, dim, norm)
  {
    hide Fnv, BucketOf, Dot, IsRoot;
    embedding := new real[dim](_ => 0.0);
    assert embedding[..] == Zeros(dim);
    if |text| == 0 {
      ZerosHaveZeroNorm(dim, norm);
      return;
    }
    var windowSize := WindowSize(text);
    for i := 0 to |text| - windowSize + 1
      invariant embedding[..] == Counts(text, dim, i)
    {
      var hash := HashWindow(text[i..i + windowSize]);
      ghost var before := embedding[..];
      var idx := BucketOf(hash, dim);
      assert idx == Bucket(text, i, dim);
      embedding[idx] := embedding[idx] + 1.0;
      assert embedding[..] == before[idx := before[idx] + 1.0];
    }
    if norm > 0.0 {
      DivideInPlace(embedding, norm);
    }
  }

  method DivideInPlace(v: array<real>, norm: real)
    requires norm != 0.0
    modifies v
    ensures v[..] == Scaled(old(v[..]), norm)
  {
    for i := 0 to v.Length
      invariant forall j :: 0 <= j < i ==> v[j] == old(v[j]) / norm
      invariant forall j :: i <= j < v.Length ==> v[j] == old(v[j])
    {
      v[i] := v[i] / norm;
    }
  }

  lemma {:induction false} ZerosHaveZeroDot(dim: nat)
    ensures Dot(Zeros(dim), Zeros(dim)) == 0.0
  {
    if dim > 0 {
      assert Zeros(dim)[..dim - 1] == Zeros(dim - 1);
      ZerosHaveZeroDot(dim - 1);
    }
  }

  lemma ZerosHaveZeroNorm(dim: nat, norm: real)
    requires IsNorm(norm, Zeros(dim))
    ensures norm == 0.0
  {
    ZerosHaveZeroDot(dim);
    if norm > 0.0 {
      ProductIsPositive(norm, norm, norm * norm);
    }
  }

  // ----- The counts

  lemma {:induction false} SumOfUpdate(v: Vector, k: nat)
    requires k < |v|
    ensures Sum(v[k := v[k] + 1.0]) == Sum(v) + 1.0
  {
    var n := |v| - 1;
    if k == n {
      assert v[k := v[k] + 1.0][..n] == v[..n];
    } else {
      assert v[k := v[k] + 1.0][..n] == v[..n][k := v[..n][k] + 1.0];
      SumOfUpdate(v[..n], k);
    }
  }

  lemma {:induction false} SumOfZeros(dim: nat)
    ensures Sum(Zeros(dim)) == 0.0
  {
    if dim > 0 {
      assert Zeros(dim)[..dim - 1] == Zeros(dim - 1);
      SumOfZeros(dim - 1);
    }
  }

  /** Every window adds one to one bucket. */
  lemma {:induction false} CountsSum(text: Bytes, dim: nat, n: nat)
    requires dim > 0 && text != [] && n <= WindowCount(text)
    ensures Sum(Counts(text, dim, n)) == n as real
    ensures forall i :: 0 <= i < dim ==> Counts(text, dim, n)[i] >= 0.0
  {
    hide Fnv;
    if n == 0 {
      SumOfZeros(dim);
    } else {
      CountsSum(text, dim, n - 1);
      SumOfUpdate(Counts(text, dim, n - 1), Bucket(text, n - 1, dim));
    }
  }

  /** The raw counts of a text are non-negative and sum to max(1, len - 2). */
  lemma CountsSumToWindows(text: Bytes, dim: nat)
    requires dim > 0 && text != []
    ensures Sum(AllCounts(text, dim)) == (if |text| <= 3 then 1 else |text| - 2) as real
    ensures forall i :: 0 <= i < dim ==> AllCounts(text, dim)[i] >= 0.0
  {
    CountsSum(text, dim, WindowCount(text));
  }

  // ----- Unit length

  lemma {:induction false} DotIsNonNegative(v: Vector)
    ensures Dot(v, v) >= 0.0
    ensures Dot(v, v) == 0.0 ==> Sum(v) == 0.0
  {
    if |v| > 0 {
      DotIsNonNegative(v[..|v| - 1]);
      var s := Square(v[|v| - 1]);
      assert Dot(v, v) == Dot(v[..|v| - 1], v[..|v| - 1]) + s;
    }
  }

  lemma NonEmptyTextHasPositiveNorm(text: Bytes, dim: nat, norm: real)
    requires dim > 0 && text != [] && IsNorm(norm, AllCounts(text, dim))
    ensures norm > 0.0
  {
    CountsSumToWindows(text, dim);
    DotIsNonNegative(AllCounts(text, dim));
    assert Dot(AllCounts(text, dim), AllCounts(text, dim)) > 0.0;
  }

  lemma {:induction false} DotOfScaled(v: Vector, norm: real)
    requires norm > 0.0
    ensures Dot(Scaled(v, norm), Scaled(v, norm)) * (norm * norm) == Dot(v, v)
  {
    if |v| > 0 {
      var n, x := |v| - 1, v[|v| - 1];
      assert Scaled(v, norm)[..n] == Scaled(v[..n], norm);
      DotOfScaled(v[..n], norm);
      var y := x / norm;
      assert y * norm == x;
      ScaledSquare(y, norm, x, Dot(Scaled(v[..n], norm), Scaled(v[..n], norm)));
    }
  }

  lemma ScaledSquare(y: real, norm: real, x: real, d: real)
    requires y * norm == x
    ensures (d + y * y) * (norm * norm) == d * (norm * norm) + x * x
  {
    assert (y * y) * (norm * norm) == (y * norm) * (y * norm);
  }

  /** The embedding of a non-empty text is a unit vector. */
  lemma EmbeddingIsUnit(text: Bytes, dim: nat, norm: real)
    requires dim > 0 && text != [] && IsNorm(norm, AllCounts(text, dim))
    ensures |Embedding(text, dim, norm)| == dim
    ensures Dot(Embedding(text, dim, norm), Embedding(text, dim, norm)) == 1.0
  {
    NonEmptyTextHasPositiveNorm(text, dim, norm);
    DotOfScaled(AllCounts(text, dim), norm);
    ProductIsPositive(norm, norm, norm * norm);
    hide Dot, Scaled, AllCounts;
    FactorIsOne(Dot(Embedding(text, dim, norm), Embedding(text, dim, norm)), norm * norm,
      Dot(AllCounts(text, dim), AllCounts(text, dim)));
  }

  lemma FactorIsOne(d: real, n: real, s: real)
    requires n > 0.0 && d * n == s && n == s
    ensures d == 1.0
  {
    assert (d - 1.0) * n == 0.0;
  }

  /** A non-empty text compared with its own embedding has similarity one. */
  lemma EmbeddingMatchesItself(text: Bytes, dim: nat, norm: real, na: real, nb: real)
    requires dim > 0 && text != [] && IsNorm(norm, AllCounts(text, dim))
    requires IsNorm(na, Embedding(text, dim, norm)) && IsNorm(nb, Embedding(text, dim, norm))
    ensures Cosine(Embedding(text, dim, norm), Embedding(text, dim, norm), na, nb) == 1.0
  {
    EmbeddingIsUnit(text, dim, norm);
    UnitRoot(na);
    UnitRoot(nb);
  }

  lemma UnitRoot(n: real)
    requires IsRoot(n, 1.0)
    ensures n == 1.0
  {
    SquaresDetermine(n, 1.0);
  }

  // ----- Which windows count where

  lemma FnvSteps()
    ensures FnvStep(0xcbf2_9ce4_8422_2325, 0x66) == 0xaf63_db4c_8601_ead9
    ensures FnvStep(0xaf63_db4c_8601_ead9, 0x6f) == 0x0898_5907_b541_d342
    ensures FnvStep(0x0898_5907_b541_d342, 0x6f) == 0xdcb2_7518_fed9_d577
    ensures FnvStep(0xdcb2_7518_fed9_d577, 0x62) == 0xdd12_0e79_0c25_12af
    ensures FnvStep(0xdd12_0e79_0c25_12af, 0x61) == 0xcac1_65af_a2fe_f40a
    ensures FnvStep(0xcac1_65af_a2fe_f40a, 0x72) == 0x8594_4171_f739_67e8
    ensures FnvStep(0xcbf2_9ce4_8422_2325, 0x61) == 0xaf63_dc4c_8601_ec8c
  {
  }

  lemma FnvOfNothing()
    ensures Fnv([]) == FNV_OFFSET == 0xcbf2_9ce4_8422_2325
  {
  }

  /** The published hashes of the empty text, of "a" and of "foobar". */
  lemma FnvVectors()
    ensures Fnv([]) == 0xcbf2_9ce4_8422_2325
    ensures Fnv([0x61]) == 0xaf63_dc4c_8601_ec8c
    ensures Fnv([0x66, 0x6f, 0x6f, 0x62, 0x61, 0x72]) == 0x8594_4171_f739_67e8
  {
    hide Fnv, FnvStep;
    FnvOfNothing();
    FnvSteps();
    var w0: Bytes := [];
    FnvAppend(w0, 0x61);
    assert w0 + [0x61] == [0x61];
    var w1: Bytes := w0 + [0x66];
    FnvAppend(w0, 0x66);
    var w2: Bytes := w1 + [0x6f];
    FnvAppend(w1, 0x6f);
    var w3: Bytes := w2 + [0x6f];
    FnvAppend(w2, 0x6f);
    var w4: Bytes := w3 + [0x62];
    FnvAppend(w3, 0x62);
    var w5: Bytes := w4 + [0x61];
    FnvAppend(w4, 0x61);
    var w6: Bytes := w5 + [0x72];
    FnvAppend(w5, 0x72);
    assert w6 == [0x66, 0x6f, 0x6f, 0x62, 0x61, 0x72];
  }

  lemma FnvAppend(window: Bytes, b: Byte)
    ensures Fnv(window + [b]) == FnvStep(Fnv(window), b)
  {
    assert (window + [b])[..|window|] == window;
  }

  /** Window `i` of a text: three bytes from there, or the whole text if it is shorter. */
  function Window(text: Bytes, i: nat): Bytes
    requires text != [] && i < if |text| <= 3 then 1 else |text| - 2
  {
    if |text| < 3 then text else text[i..i + 3]
  }

  /** `hash` is some multiple of `dim` and `b` more. */
  ghost predicate Leaves(hash: nat, dim: nat, b: nat) {
    exists q: nat :: hash == q * dim + b
  }

  /** The windows of a text whose hash leaves remainder `b`. */
  ghost function WindowsIn(text: Bytes, dim: nat, n: nat, b: nat): set<nat>
    requires text != [] && n <= if |text| <= 3 then 1 else |text| - 2
  {
    set i: nat | i < n && Leaves(Fnv(Window(text, i)) as nat, dim, b)
  }

  lemma RemainderIff(hash: nat, dim: nat, b: nat)
    requires dim > 0 && b < dim
    ensures Remainder(hash, dim) == b <==> Leaves(hash, dim, b)
  {
    assert hash == (hash / dim) * dim + hash % dim;
    if q: nat :| hash == q * dim + b {
      QuotientIsUnique(hash / dim, hash % dim, q, b, dim);
    }
  }

  lemma QuotientIsUnique(q: int, r: int, p: int, s: int, dim: nat)
    requires 0 <= r < dim && 0 <= s < dim && q * dim + r == p * dim + s
    ensures r == s
  {
    if q < p {
      AtLeastOnce(p - q, dim, p * dim - q * dim);
    } else if p < q {
      AtLeastOnce(q - p, dim, q * dim - p * dim);
    }
  }

  lemma AtLeastOnce(k: int, dim: nat, product: int)
    requires k >= 1 && product == k * dim
    ensures product >= dim
  {
    assert k * dim == dim + (k - 1) * dim;
  }

  lemma BucketIff(text: Bytes, i: nat, dim: nat, b: nat)
    requires dim > 0 && b < dim && text != [] && i < WindowCount(text)
    ensures Bucket(text, i, dim) == b <==> Leaves(Fnv(Window(text, i)) as nat, dim, b)
  {
    assert text[i..i + WindowSize(text)] == Window(text, i);
    RemainderIff(Fnv(Window(text, i)) as nat, dim, b);
  }

  lemma {:induction false} CountsCountWindows(text: Bytes, dim: nat, n: nat, b: nat)
    requires dim > 0 && b < dim && text != [] && n <= WindowCount(text)
    ensures Counts(text, dim, n)[b] == |WindowsIn(text, dim, n, b)| as real
  {
    hide Fnv, Window, Bucket, WindowsIn;
    if n == 0 {
      NoWindows(text, dim, b);
    } else {
      CountsCountWindows(text, dim, n - 1, b);
      WindowsStep(text, dim, n, b);
    }
  }

  lemma NoWindows(text: Bytes, dim: nat, b: nat)
    requires text != []
    ensures WindowsIn(text, dim, 0, b) == {}
  {
  }

  lemma WindowsStep(text: Bytes, dim: nat, n: nat, b: nat)
    requires dim > 0 && b < dim && text != [] && 0 < n <= WindowCount(text)
    ensures |WindowsIn(text, dim, n, b)| ==
      |WindowsIn(text, dim, n - 1, b)| + if Bucket(text, n - 1, dim) == b then 1 else 0
  {
    hide Fnv, Window, Bucket, Leaves;
    BucketIff(text, n - 1, dim, b);
    var before, after := WindowsIn(text, dim, n - 1, b), WindowsIn(text, dim, n, b);
    if Bucket(text, n - 1, dim) == b {
      assert after == before + {n - 1};
    } else {
      assert after == before;
    }
  }

  /** Each raw count is the number of windows whose FNV-1a hash leaves that remainder. */
  lemma BucketsCountWindows(text: Bytes, dim: nat, b: nat)
    requires dim > 0 && b < dim && text != []
    ensures AllCounts(text, dim)[b] == |WindowsIn(text, dim, if |text| <= 3 then 1 else |text| - 2, b)| as real
  {
    CountsCountWindows(text, dim, WindowCount(text), b);
  }
}
