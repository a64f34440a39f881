/** The synthetic face matcher: hash-drawn unit vectors, a noisy capture, and cosine similarity. */
module FaceMatcher {
  import opened Text

  type Vector = seq<real>
  type Byte = x: int | 0 <= x < 256

  /** The digest of a text; left abstract but for its 32 bytes. */
  type Sha = string -> seq<Byte>

  ghost predicate IsSha(sha: Sha) {
    forall s :: |sha(s)| == 32
  }

  /** The square root on the non-negative reals. */
  type Root = real -> real

  ghost predicate IsRoot(root: Root) {
    forall x :: x >= 0.0 ==> root(x) >= 0.0 && root(x) * root(x) == x
  }

  const DEFAULT_DIM := 128
  const GENUINE_NOISE := 0.0375
  const VERIFY_THRESHOLD := 0.9
  const MAX_WORD := 0xFFFF_FFFF

  // --- Drawing coordinates ---------------------------------------------------

  function Blocks(sha: Sha, seed: string, n: nat): seq<Byte> {
    if n == 0 then [] else Blocks(sha, seed, n - 1) + sha(seed + "|" + Decimal(n - 1))
  }

  function Stream(sha: Sha, seed: string): seq<Byte> {
    Blocks(sha, seed, DEFAULT_DIM / 8 + 4)
  }

  /** A big-endian number. */
  function Word(bytes: seq<Byte>): nat {
    if |bytes| == 0 then 0 else Word(bytes[..|bytes| - 1]) * 256 + bytes[|bytes| - 1]
  }

  function Pow256(n: nat): nat {
    if n == 0 then 1 else 256 * Pow256(n - 1)
  }

  /** Python's slice, which stops at the end of the stream. */
  function Slice<T>(s: seq<T>, lo: nat, hi: nat): seq<T>
    requires lo <= hi
  {
    if lo >= |s| then [] else if hi > |s| then s[lo..] else s[lo..hi]
  }

  function Coordinate(stream: seq<Byte>, i: nat): real {
    Word(Slice(stream, i * 4, i * 4 + 4)) as real / MAX_WORD as real * 2.0 - 1.0
  }

  function Floats(sha: Sha, seed: string, dim: nat): Vector {
    var stream := Stream(sha, seed);
    seq(dim, i requires 0 <= i < dim => Coordinate(stream, i))
  }

  /** Chains digests until the stream is long enough. */
  method HashStream(sha: Sha, seed: string) returns (out: seq<Byte>)
    requires IsSha(sha)
    ensures out == Stream(sha, seed) && |out| == 640
  {
    out := [];
    var counter := 0;
    var needed := DEFAULT_DIM / 8 + 4;
    while |out| < needed * 32
      invariant counter <= needed && |out| == counter * 32 && out == Blocks(sha, seed, counter)
      decreases needed - counter
    {
      out := out + sha(seed + "|" + Decimal(counter));
      counter := counter + 1;
    }
  }

  method FloatsFrom(sha: Sha, seed: string, dim: nat) returns (vals: Vector)
    requires IsSha(sha)
    ensures vals == Floats(sha, seed, dim)
  {
    hide Coordinate, Stream;
    var stream := HashStream(sha, seed);
    vals := [];
    for i := 0 to dim
      invariant |vals| == i && forall k | 0 <= k < i :: vals[k] == Coordinate(stream, k)
    {
      vals := vals + [Coordinate(stream, i)];
    }
  }

  lemma {:induction false} WordBound(bytes: seq<Byte>)
    ensures Word(bytes) < Pow256(|bytes|)
  {
    if |bytes| != 0 {
      WordBound(bytes[..|bytes| - 1]);
    }
  }

  /** The word a coordinate is scaled from; no bytes past the end of the stream make the word zero. */
  function WordAt(stream: seq<Byte>, i: nat): nat {
    Word(Slice(stream, i * 4, i * 4 + 4))
  }

  lemma WordScale(w: nat)
    requires w <= MAX_WORD
    ensures -1.0 <= w as real / MAX_WORD as real * 2.0 - 1.0 <= 1.0
    ensures w as real / MAX_WORD as real * 2.0 - 1.0 != 0.0
    ensures w as real / MAX_WORD as real * 2.0 - 1.0 == -1.0 <==> w == 0
    ensures w as real / MAX_WORD as real * 2.0 - 1.0 == 1.0 <==> w == MAX_WORD
  {
    var x := w as real / MAX_WORD as real;
    assert x * MAX_WORD as real == w as real;
    assert (2 * w) as real != MAX_WORD as real;
    assert (x * 2.0 - 1.0) * MAX_WORD as real == (2 * w) as real - MAX_WORD as real;
  }

  /**
   * Every drawn coordinate lies in [-1, 1] and is never zero; it is -1 for the word zero and 1 for the largest word
   * only.
   */
  lemma CoordinateRange(stream: seq<Byte>, i: nat)
    ensures -1.0 <= Coordinate(stream, i) <= 1.0
    ensures Coordinate(stream, i) != 0.0
    ensures Coordinate(stream, i) == -1.0 <==> WordAt(stream, i) == 0
    ensures Coordinate(stream, i) == 1.0 <==> WordAt(stream, i) == MAX_WORD
  {
    var chunk := Slice(stream, i * 4, i * 4 + 4);
    WordBound(chunk);
    assert |chunk| <= 4;
    assert Pow256(4) == 0x1_0000_0000 && Pow256(3) == 0x100_0000 && Pow256(2) == 0x1_0000;
    var w := Word(chunk);
    assert w <= MAX_WORD;
    WordScale(w);
  }

  /** A digest that repeats one byte. */
  function ConstantSha(b: Byte): Sha {
    (s: string) => seq(32, _ => b)
  }

  lemma {:induction false} ConstantBlocks(b: Byte, seed: string, n: nat)
    ensures |Blocks(ConstantSha(b), seed, n)| == 32 * n
    ensures forall i | 0 <= i < 32 * n :: Blocks(ConstantSha(b), seed, n)[i] == b
  {
    if n != 0 {
      ConstantBlocks(b, seed, n - 1);
    }
  }

  lemma WordOfFour(bytes: seq<Byte>, b: Byte)
    requires |bytes| == 4 && forall i | 0 <= i < 4 :: bytes[i] == b
    ensures Word(bytes) == b * 0x101_0101
  {
    assert bytes[..4] == bytes && bytes[..1] == [b] && [b][..0] == [];
    assert bytes[..2][..1] == bytes[..1] && bytes[..3][..2] == bytes[..2] && bytes[..4][..3] == bytes[..3];
    assert Word(bytes[..1]) == b;
    assert Word(bytes[..2]) == b * 0x101;
    assert Word(bytes[..3]) == b * 0x1_0101;
  }

  lemma ConstantWord(b: Byte, seed: string, i: nat)
    requires i < 160
    ensures WordAt(Stream(ConstantSha(b), seed), i) == b * 0x101_0101
  {
    hide Blocks, Word;
    var stream := Stream(ConstantSha(b), seed);
    ConstantBlocks(b, seed, DEFAULT_DIM / 8 + 4);
    WordOfFour(stream[i * 4..i * 4 + 4], b);
  }

  /** Both ends are drawn under some digest of 32 bytes, at every coordinate the stream fills. */
  lemma EndsAreReached(seed: string, dim: nat, i: nat)
    requires i < dim && i < 160
    ensures IsSha(ConstantSha(0)) && Floats(ConstantSha(0), seed, dim)[i] == -1.0
    ensures IsSha(ConstantSha(255)) && Floats(ConstantSha(255), seed, dim)[i] == 1.0
  {
    ConstantWord(0, seed, i);
    ConstantWord(255, seed, i);
    CoordinateRange(Stream(ConstantSha(0), seed), i);
    CoordinateRange(Stream(ConstantSha(255), seed), i);
    hide Coordinate, WordAt, Stream;
  }

  // --- Signs of products -----------------------------------------------------

  /** A product, with what its sign says about its factors. */
  function Mul(x: real, y: real): (r: real)
    ensures x > 0.0 && y > 0.0 ==> r > 0.0
    ensures x < 0.0 && y < 0.0 ==> r > 0.0
    ensures x > 0.0 && y < 0.0 ==> r < 0.0
    ensures x < 0.0 && y > 0.0 ==> r < 0.0
    ensures x == 0.0 || y == 0.0 ==> r == 0.0
  {
    x * y
  }

  function Sq(x: real): (r: real)
    ensures r >= 0.0
    ensures x != 0.0 ==> r > 0.0
  {
    Mul(x, x)
  }

  lemma CancelPositive(x: real, y: real, n: real)
    requires n > 0.0 && x * n == y * n
    ensures x == y
  {
    assert Mul(x - y, n) == (x - y) * n == x * n - y * n;
  }

  // --- Vectors ---------------------------------------------------------------

  function Dot(a: Vector, b: Vector): real
    requires |a| == |b|
  {
    if |a| == 0 then 0.0
    else Dot(a[..|a| - 1], b[..|b| - 1]) + a[|a| - 1] * b[|b| - 1]
  }

  /** `x * a + y * b`, coordinate by coordinate. */
  function Combine(a: Vector, x: real, b: Vector, y: real): (c: Vector)
    requires |a| == |b|
    ensures |c| == |a|
  {
    seq(|a|, i requires 0 <= i < |a| => x * a[i] + y * b[i])
  }

  function Divide(v: Vector, norm: real): (c: Vector)
    requires norm != 0.0
    ensures |c| == |v|
  {
    seq(|v|, i requires 0 <= i < |v| => v[i] / norm)
  }

  function L2Normalize(root: Root, v: Vector): (c: Vector)
    ensures |c| == |v|
  {
    var norm := root(Dot(v, v));
    if norm == 0.0 then v else Divide(v, norm)
  }

  function SynthEmbedding(sha: Sha, root: Root, seed: string, dim: nat): (c: Vector)
    ensures |c| == dim
  {
    L2Normalize(root, Floats(sha, seed, dim))
  }

  function Perturbed(sha: Sha, root: Root, driver: string, dim: nat): (c: Vector)
    ensures |c| == dim
  {
    Combine(SynthEmbedding(sha, root, driver, dim), 1.0, Floats(sha, "capture-noise|" + driver, dim), GENUINE_NOISE)
  }

  function CaptureEmbedding(sha: Sha, root: Root, driver: string, genuine: bool, dim: nat): (c: Vector)
    ensures |c| == dim
  {
    if genuine then L2Normalize(root, Perturbed(sha, root, driver, dim))
    else SynthEmbedding(sha, root, "impostor|" + driver, dim)
  }

  function Clamp(x: real): real {
    if x < -1.0 then -1.0 else if x > 1.0 then 1.0 else x
  }

  lemma ProductNonZero(x: real, y: real)
    requires x != 0.0 && y != 0.0
    ensures x * y != 0.0
  {
  }

  /** The exact cosine of two vectors with dot product `d` and norms `na` and `nb`. */
  function Quotient(d: real, na: real, nb: real): real
    requires na != 0.0 && nb != 0.0
  {
    ProductNonZero(na, nb);
    d / (na * nb)
  }

  function Cosine(root: Root, a: Vector, b: Vector): real {
    if |a| != |b| then 0.0
    else
      var na, nb := root(Dot(a, a)), root(Dot(b, b));
      if na == 0.0 || nb == 0.0 then 0.0 else Clamp(Quotient(Dot(a, b), na, nb))
  }

  // --- Bilinearity -----------------------------------------------------------

  lemma {:induction false} DotSymmetric(a: Vector, b: Vector)
    requires |a| == |b|
    ensures Dot(a, b) == Dot(b, a)
  {
    if |a| != 0 {
      DotSymmetric(a[..|a| - 1], b[..|b| - 1]);
    }
  }

  lemma {:induction false} DotSquareNonNegative(a: Vector)
    ensures Dot(a, a) >= 0.0
    ensures forall i | 0 <= i < |a| :: Dot(a, a) >= a[i] * a[i]
  {
    if |a| != 0 {
      var front := a[..|a| - 1];
      DotSquareNonNegative(front);
      assert a[|a| - 1] * a[|a| - 1] >= 0.0;
      forall i | 0 <= i < |a| ensures Dot(a, a) >= a[i] * a[i] {
        if i < |a| - 1 {
          assert front[i] == a[i];
        }
      }
    }
  }

  lemma CombineTerm(x: real, ai: real, y: real, bi: real, ci: real)
    ensures (x * ai + y * bi) * ci == x * (ai * ci) + y * (bi * ci)
  {
  }

  lemma CombineSum(x: real, d: real, p: real, y: real, e: real, q: real)
    ensures (x * d + y * e) + (x * p + y * q) == x * (d + p) + y * (e + q)
  {
  }

  lemma {:induction false} DotCombine(a: Vector, x: real, b: Vector, y: real, c: Vector)
    requires |a| == |b| == |c|
    ensures Dot(Combine(a, x, b, y), c) == x * Dot(a, c) + y * Dot(b, c)
  {
    if |a| != 0 {
      var n := |a| - 1;
      DotCombine(a[..n], x, b[..n], y, c[..n]);
      var whole, part := Combine(a, x, b, y), Combine(a[..n], x, b[..n], y);
      forall i | 0 <= i < n ensures whole[..n][i] == part[i] {
        assert a[..n][i] == a[i] && b[..n][i] == b[i];
      }
      assert whole[..n] == part;
      CombineTerm(x, a[n], y, b[n], c[n]);
      CombineSum(x, Dot(a[..n], c[..n]), a[n] * c[n], y, Dot(b[..n], c[..n]), b[n] * c[n]);
    }
  }

  lemma SquareExpansion(x: real, y: real, aa: real, ab: real, bb: real)
    ensures x * (x * aa + y * ab) + y * (x * ab + y * bb) == x * x * aa + 2.0 * (x * y) * ab + y * y * bb
  {
  }

  /** The squared norm of a combination. */
  lemma {:induction false} CombineSquared(a: Vector, x: real, b: Vector, y: real)
    requires |a| == |b|
    ensures var p := Combine(a, x, b, y);
            Dot(p, p) == x * x * Dot(a, a) + 2.0 * (x * y) * Dot(a, b) + y * y * Dot(b, b)
  {
    hide Dot;
    var p := Combine(a, x, b, y);
    DotCombine(a, x, b, y, p);
    DotSymmetric(a, p);
    DotSymmetric(b, p);
    DotCombine(a, x, b, y, a);
    DotCombine(a, x, b, y, b);
    DotSymmetric(a, b);
    SquareExpansion(x, y, Dot(a, a), Dot(a, b), Dot(b, b));
  }

  lemma DiscriminantSign(aa: real, ab: real, bb: real)
    requires bb > 0.0
    requires bb * bb * aa + 2.0 * (bb * -ab) * ab + -ab * -ab * bb >= 0.0
    ensures ab * ab <= aa * bb
  {
    assert bb * bb * aa + 2.0 * (bb * -ab) * ab + -ab * -ab * bb == bb * (aa * bb - ab * ab);
    assert Mul(bb, aa * bb - ab * ab) == bb * (aa * bb - ab * ab);
  }

  lemma {:induction false} ZeroVectorDot(a: Vector, b: Vector)
    requires |a| == |b| && Dot(b, b) == 0.0
    ensures Dot(a, b) == 0.0
  {
    if |a| != 0 {
      var n := |a| - 1;
      DotSquareNonNegative(b[..n]);
      assert Sq(b[n]) == b[n] * b[n];
      ZeroVectorDot(a[..n], b[..n]);
    }
  }

  /** Cauchy-Schwarz. */
  lemma CauchySchwarz(a: Vector, b: Vector)
    requires |a| == |b|
    ensures Dot(a, b) * Dot(a, b) <= Dot(a, a) * Dot(b, b)
  {
    var aa, ab, bb := Dot(a, a), Dot(a, b), Dot(b, b);
    DotSquareNonNegative(b);
    DotSquareNonNegative(a);
    if bb == 0.0 {
      ZeroVectorDot(a, b);
    } else {
      var q := Combine(a, bb, b, -ab);
      CombineSquared(a, bb, b, -ab);
      DotSquareNonNegative(q);
      DiscriminantSign(aa, ab, bb);
    }
  }

  // --- Normalising -----------------------------------------------------------

  lemma QuotientAsProduct(x: real, norm: real)
    requires norm != 0.0
    ensures x / norm == 1.0 / norm * x + 0.0 * x
  {
    assert (x / norm) * norm == x;
    assert (1.0 / norm) * norm == 1.0;
    assert (1.0 / norm * x) * norm == ((1.0 / norm) * norm) * x;
  }

  lemma DivideIsCombine(v: Vector, norm: real)
    requires norm != 0.0
    ensures Divide(v, norm) == Combine(v, 1.0 / norm, v, 0.0)
  {
    var c := Combine(v, 1.0 / norm, v, 0.0);
    forall i | 0 <= i < |v| ensures Divide(v, norm)[i] == c[i] {
      QuotientAsProduct(v[i], norm);
    }
  }

  lemma UndoFactor(z: real, k: real, d: real, norm: real)
    requires k * norm == 1.0 && z == k * d + 0.0 * d
    ensures z * norm == d
  {
    assert z * norm == (k * norm) * d;
  }

  /** Dividing one side by a norm divides the dot product. */
  lemma DotDivide(a: Vector, v: Vector, norm: real)
    requires |a| == |v| && norm != 0.0
    ensures Dot(a, Divide(v, norm)) * norm == Dot(a, v)
  {
    hide Dot;
    DivideIsCombine(v, norm);
    DotSymmetric(a, Divide(v, norm));
    DotCombine(v, 1.0 / norm, v, 0.0, a);
    DotSymmetric(a, v);
    var k := 1.0 / norm;
    assert k * norm == 1.0;
    UndoFactor(Dot(a, Divide(v, norm)), k, Dot(a, v), norm);
  }

  lemma UnitFromFactors(uu: real, vu: real, vv: real, n: real)
    requires n > 0.0 && n * n == vv && uu * n == vu && vu * n == vv
    ensures uu == 1.0
  {
    CancelPositive(vu, n, n);
    CancelPositive(uu, 1.0, n);
  }

  /** A vector with a non-zero norm is scaled to norm one, and keeps its direction. */
  lemma NormalizedIsUnit(root: Root, v: Vector)
    requires IsRoot(root) && Dot(v, v) > 0.0
    ensures root(Dot(v, v)) > 0.0
    ensures var u, n := L2Normalize(root, v), root(Dot(v, v));
            u == Divide(v, n) && Dot(u, u) == 1.0
  {
    hide Dot;
    var n := root(Dot(v, v));
    assert n >= 0.0 && Mul(n, n) == n * n == Dot(v, v);
    var u := Divide(v, n);
    DotDivide(u, v, n);
    DotSymmetric(u, v);
    DotDivide(v, v, n);
    UnitFromFactors(Dot(u, u), Dot(v, u), Dot(v, v), n);
  }

  lemma RootOfOne(root: Root)
    requires IsRoot(root)
    ensures root(1.0) == 1.0
  {
    var r := root(1.0);
    assert r >= 0.0 && r * r == 1.0;
    assert Mul(r - 1.0, r + 1.0) == (r - 1.0) * (r + 1.0) == r * r - 1.0;
  }

  lemma UnitInterval(x: real)
    requires x * x <= 1.0
    ensures -1.0 <= x <= 1.0
  {
    assert Mul(x - 1.0, x + 1.0) == (x - 1.0) * (x + 1.0) == x * x - 1.0;
  }

  /** A real within plus or minus `n` divided by `n` lies within plus or minus one. */
  lemma RatioInRange(d: real, n: real)
    requires n > 0.0 && d * d <= n * n
    ensures -1.0 <= d / n <= 1.0
  {
    var q := d / n;
    assert q * n == d;
    assert Mul(n - d, n + d) == (n - d) * (n + d) == n * n - d * d;
    assert Mul(1.0 - q, n) == (1.0 - q) * n == n - d;
    assert Mul(1.0 + q, n) == (1.0 + q) * n == n + d;
  }

  lemma QuotientInRange(d: real, na: real, nb: real, aa: real, bb: real)
    requires na > 0.0 && nb > 0.0 && na * na == aa && nb * nb == bb && d * d <= aa * bb
    ensures -1.0 <= Quotient(d, na, nb) <= 1.0
  {
    assert Mul(na, nb) == na * nb;
    assert (na * nb) * (na * nb) == (na * na) * (nb * nb);
    RatioInRange(d, na * nb);
  }

  /** For any two vectors of one length and non-zero norms the clamp never changes the exact cosine. */
  lemma ClampNeverBites(root: Root, a: Vector, b: Vector)
    requires IsRoot(root) && |a| == |b|
    requires root(Dot(a, a)) != 0.0 && root(Dot(b, b)) != 0.0
    ensures Cosine(root, a, b) == Quotient(Dot(a, b), root(Dot(a, a)), root(Dot(b, b)))
    ensures -1.0 <= Cosine(root, a, b) <= 1.0
  {
    hide Dot, Quotient;
    var aa, bb := Dot(a, a), Dot(b, b);
    DotSquareNonNegative(a);
    DotSquareNonNegative(b);
    CauchySchwarz(a, b);
    assert root(aa) > 0.0 && root(bb) > 0.0;
    QuotientInRange(Dot(a, b), root(aa), root(bb), aa, bb);
  }

  /** Vectors of different lengths, and vectors without a length, never match. */
  lemma NoMatchScoresZero(root: Root, a: Vector, b: Vector)
    requires |a| != |b| || root(Dot(a, a)) == 0.0 || root(Dot(b, b)) == 0.0
    ensures Cosine(root, a, b) == 0.0
  {
  }

  /** For unit vectors the cosine is the dot product. */
  lemma CosineOfUnits(root: Root, a: Vector, b: Vector)
    requires IsRoot(root) && |a| == |b| && Dot(a, a) == 1.0 && Dot(b, b) == 1.0
    ensures Cosine(root, a, b) == Dot(a, b)
    ensures -1.0 <= Dot(a, b) <= 1.0
  {
    hide Dot;
    RootOfOne(root);
    ClampNeverBites(root, a, b);
    hide Cosine;
    assert Quotient(Dot(a, b), 1.0, 1.0) == Dot(a, b);
  }

  // --- A genuine capture always verifies -------------------------------------

  lemma SquareAtMostOne(x: real)
    requires -1.0 <= x <= 1.0
    ensures x * x <= 1.0
  {
    assert Mul(1.0 - x, 1.0 + x) == (1.0 - x) * (1.0 + x) == 1.0 - x * x;
  }

  lemma {:induction false} DotBound(v: Vector)
    requires forall i | 0 <= i < |v| :: -1.0 <= v[i] <= 1.0
    ensures Dot(v, v) <= |v| as real
  {
    if |v| != 0 {
      var n := |v| - 1;
      assert forall i | 0 <= i < n :: v[..n][i] == v[i];
      DotBound(v[..n]);
      SquareAtMostOne(v[n]);
    }
  }

  /** A drawn vector is never zero and its coordinates bound its norm. */
  lemma FloatsNorm(sha: Sha, seed: string, dim: nat)
    requires dim > 0
    ensures var v := Floats(sha, seed, dim);
            0.0 < Dot(v, v) <= dim as real
  {
    hide Stream;
    hide Coordinate;
    var v := Floats(sha, seed, dim);
    forall i | 0 <= i < |v| ensures -1.0 <= v[i] <= 1.0 && v[i] != 0.0 {
      CoordinateRange(Stream(sha, seed), i);
    }
    DotBound(v);
    DotSquareNonNegative(v);
    assert Sq(v[0]) == v[0] * v[0];
  }

  lemma NoiseKeepsDirection(t: real, w: real)
    requires t * t <= w < 1.0
    ensures -1.0 < t < 1.0
    ensures 1.0 + 2.0 * t + w > 0.0
  {
    UnitInterval(t);
    assert Sq(1.0 + t) == 1.0 + 2.0 * t + t * t;
  }

  /** The heart: with unit `a`, noise of squared norm `w < 1` keeps the squared cosine at `1 - w` or more. */
  lemma NoiseBoundsCosine(t: real, w: real, score: real, norm: real)
    requires t * t <= w < 1.0
    requires norm > 0.0 && norm * norm == 1.0 + 2.0 * t + w
    requires score * norm == 1.0 + t
    ensures score > 0.0 && score * score >= 1.0 - w
  {
    NoiseKeepsDirection(t, w);
    assert Mul(score, norm) == score * norm;
    var p, d := norm * norm, score * score - (1.0 - w);
    assert Sq(norm) == p;
    assert (1.0 + t) * (1.0 + t) - (1.0 - w) * p == (t + w) * (t + w);
    assert (score * norm) * (score * norm) == (score * score) * p;
    assert (score * score) * p - (1.0 - w) * p == Sq(t + w);
    assert Mul(p, d) == d * p == Sq(t + w);
  }

  /** Squared norm of the noise added to an enrolment vector. */
  function NoiseSquared(sha: Sha, driver: string, dim: nat): real {
    var noise := Floats(sha, "capture-noise|" + driver, dim);
    GENUINE_NOISE * GENUINE_NOISE * Dot(noise, noise)
  }

  lemma NoiseSquare(eps: real, d: real, nn: real)
    requires d * d <= 1.0 * nn
    ensures (eps * d) * (eps * d) <= eps * eps * nn
  {
    assert (eps * d) * (eps * d) == (eps * eps) * (d * d);
    assert Mul(Sq(eps), nn - d * d) == (eps * eps) * (nn - d * d) == eps * eps * nn - (eps * eps) * (d * d);
  }

  /** A perturbed unit vector scaled back by `n`, against the unit vector. */
  lemma NoisyDot(a: Vector, noise: Vector, eps: real, p: Vector, n: real)
    requires |a| == |noise| && Dot(a, a) == 1.0 && p == Combine(a, 1.0, noise, eps) && n != 0.0
    ensures Dot(a, Divide(p, n)) * n == 1.0 + eps * Dot(a, noise)
  {
    hide Dot, Combine, Divide;
    DotDivide(a, p, n);
    DotSymmetric(a, p);
    DotCombine(a, 1.0, noise, eps, a);
    DotSymmetric(noise, a);
  }

  /** The cosine of an enrolment against its genuine capture is positive, and its square loses at most the noise. */
  lemma {:induction false} GenuineCosine(sha: Sha, root: Root, driver: string, dim: nat)
    requires IsRoot(root) && dim > 0
    requires NoiseSquared(sha, driver, dim) < 1.0
    ensures var score := Cosine(root, SynthEmbedding(sha, root, driver, dim),
                                CaptureEmbedding(sha, root, driver, true, dim));
            score > 0.0 && score * score >= 1.0 - NoiseSquared(sha, driver, dim)
  {
    hide Dot;
    var base := Floats(sha, driver, dim);
    var noise := Floats(sha, "capture-noise|" + driver, dim);
    FloatsNorm(sha, driver, dim);
    NormalizedIsUnit(root, base);
    var a := SynthEmbedding(sha, root, driver, dim);
    var eps := GENUINE_NOISE;
    var p := Perturbed(sha, root, driver, dim);
    var t, w := eps * Dot(a, noise), eps * eps * Dot(noise, noise);
    CauchySchwarz(a, noise);
    NoiseSquare(eps, Dot(a, noise), Dot(noise, noise));
    CombineSquared(a, 1.0, noise, eps);
    assert Dot(p, p) == 1.0 + 2.0 * t + w;
    NoiseKeepsDirection(t, w);
    NormalizedIsUnit(root, p);
    var n := root(Dot(p, p));
    var c := CaptureEmbedding(sha, root, driver, true, dim);
    NoisyDot(a, noise, eps, p, n);
    CosineOfUnits(root, a, c);
    NoiseBoundsCosine(t, w, Dot(a, c), n);
  }

  lemma NoiseIsSmall(sha: Sha, driver: string, dim: nat)
    requires 0 < dim <= DEFAULT_DIM
    ensures NoiseSquared(sha, driver, dim) <= 0.18
  {
    hide Dot;
    hide Floats;
    FloatsNorm(sha, "capture-noise|" + driver, dim);
  }

  lemma AboveThreshold(score: real)
    requires score > 0.0 && score * score >= 0.82
    ensures score >= 0.9
  {
    assert Mul(score - 0.9, score + 0.9) == (score - 0.9) * (score + 0.9) == score * score - 0.81;
  }

  /**
   * For every digest and every driver, a genuine capture meets the verification threshold at the default
   * dimension (and at every smaller one).
   */
  lemma GenuineCaptureVerifies(sha: Sha, root: Root, driver: string, dim: nat)
    requires IsRoot(root) && 0 < dim <= DEFAULT_DIM
    ensures Cosine(root, SynthEmbedding(sha, root, driver, dim), CaptureEmbedding(sha, root, driver, true, dim))
              >= VERIFY_THRESHOLD
  {
    hide Cosine;
    hide NoiseSquared;
    NoiseIsSmall(sha, driver, dim);
    GenuineCosine(sha, root, driver, dim);
    var score := Cosine(root, SynthEmbedding(sha, root, driver, dim), CaptureEmbedding(sha, root, driver, true, dim));
    AboveThreshold(score);
  }

  /** Identical non-zero vectors have cosine exactly one. */
  lemma SelfCosineIsOne(sha: Sha, root: Root, driver: string, dim: nat)
    requires IsRoot(root) && dim > 0
    ensures var a := SynthEmbedding(sha, root, driver, dim);
            Dot(a, a) == 1.0 && Cosine(root, a, a) == 1.0
  {
    FloatsNorm(sha, driver, dim);
    NormalizedIsUnit(root, Floats(sha, driver, dim));
    CosineOfUnits(root, SynthEmbedding(sha, root, driver, dim), SynthEmbedding(sha, root, driver, dim));
  }

  // --- What is drawn from what -----------------------------------------------

  lemma {:induction false} BlocksLength(sha: Sha, seed: string, n: nat)
    requires IsSha(sha)
    ensures |Blocks(sha, seed, n)| == 32 * n
  {
    if n != 0 {
      BlocksLength(sha, seed, n - 1);
    }
  }

  lemma {:induction false} BlocksAre(sha: Sha, seed: string, n: nat, i: nat)
    requires IsSha(sha) && i < 32 * n
    ensures |Blocks(sha, seed, n)| == 32 * n && Blocks(sha, seed, n)[i] == sha(seed + "|" + Decimal(i / 32))[i % 32]
  {
    if i < 32 * (n - 1) {
      BlocksAre(sha, seed, n - 1, i);
    } else {
      BlocksLength(sha, seed, n - 1);
    }
  }

  /** Byte `k` of the stream of a seed: of the digest of the seed, a bar and the number of the block. */
  function StreamByte(sha: Sha, seed: string, k: nat): Byte
    requires IsSha(sha)
  {
    sha(seed + "|" + Decimal(k / 32))[k % 32]
  }

  lemma WordOfBytes(bytes: seq<Byte>)
    requires |bytes| == 4
    ensures Word(bytes)
            == bytes[0] as int * 0x100_0000 + bytes[1] as int * 0x1_0000 + bytes[2] as int * 0x100 + bytes[3] as int
  {
    assert bytes[..4] == bytes && bytes[..3][..2] == bytes[..2] && bytes[..2][..1] == bytes[..1];
    assert bytes[..1][..0] == [];
    assert Word(bytes[..1]) == bytes[0];
    assert Word(bytes[..2]) == bytes[0] as int * 0x100 + bytes[1] as int;
    assert Word(bytes[..3]) == bytes[0] as int * 0x1_0000 + bytes[1] as int * 0x100 + bytes[2] as int;
  }

  lemma ScaledBack(x: real, w: nat)
    requires x == w as real / MAX_WORD as real * 2.0 - 1.0
    ensures (x + 1.0) * 0xFFFF_FFFF as real == 2.0 * w as real
  {
    var q := w as real / MAX_WORD as real;
    assert q * MAX_WORD as real == w as real;
  }

  lemma WordOfNothing()
    ensures Word([]) == 0
  {
  }

  /** The `i`th big-endian word of the stream; past its 640 bytes there is nothing left. */
  function DrawnWord(sha: Sha, seed: string, i: nat): int
    requires IsSha(sha)
  {
    if i >= 160 then 0
    else StreamByte(sha, seed, 4 * i) as int * 0x100_0000 + StreamByte(sha, seed, 4 * i + 1) as int * 0x1_0000
         + StreamByte(sha, seed, 4 * i + 2) as int * 0x100 + StreamByte(sha, seed, 4 * i + 3) as int
  }

  lemma WordIsDrawn(sha: Sha, seed: string, i: nat)
    requires IsSha(sha)
    ensures WordAt(Stream(sha, seed), i) == DrawnWord(sha, seed, i)
  {
    var stream := Stream(sha, seed);
    BlocksLength(sha, seed, 20);
    hide Blocks, Word, IsSha;
    if i < 160 {
      WordOfBytes(stream[4 * i..4 * i + 4]);
      BlocksAre(sha, seed, 20, 4 * i);
      BlocksAre(sha, seed, 20, 4 * i + 1);
      BlocksAre(sha, seed, 20, 4 * i + 2);
      BlocksAre(sha, seed, 20, 4 * i + 3);
    } else {
      WordOfNothing();
    }
  }

  /** Coordinate `i` of a draw is the `i`th word of the stream of its seed, scaled to the range. */
  lemma CoordinateIsDrawn(sha: Sha, seed: string, dim: nat, i: nat)
    requires IsSha(sha) && i < dim
    ensures (Floats(sha, seed, dim)[i] + 1.0) * 0xFFFF_FFFF as real == 2.0 * DrawnWord(sha, seed, i) as real
  {
    WordIsDrawn(sha, seed, i);
    ScaledBack(Coordinate(Stream(sha, seed), i), WordAt(Stream(sha, seed), i));
    hide DrawnWord, Stream, Word, Slice, IsSha;
  }

  ghost predicate IsTimes(v: Vector, n: real, u: Vector) {
    |u| == |v| && forall i | 0 <= i < |v| :: v[i] == Mul(n, u[i])
  }

  /** `u` is `v` scaled to norm one. */
  ghost predicate IsUnitOf(u: Vector, v: Vector) {
    && |u| == |v| && Dot(u, u) == 1.0
    && exists n: real :: n > 0.0 && IsTimes(v, n, u)
  }

  lemma DividedTimes(v: Vector, n: real, i: nat)
    requires n != 0.0 && i < |v|
    ensures v[i] == Mul(n, Divide(v, n)[i])
  {
    assert v[i] / n * n == v[i];
  }

  lemma NormalizedIsUnitOf(root: Root, v: Vector)
    requires IsRoot(root) && Dot(v, v) > 0.0
    ensures IsUnitOf(L2Normalize(root, v), v)
  {
    hide Dot, IsRoot, L2Normalize, Mul, Divide;
    NormalizedIsUnit(root, v);
    var n, u := root(Dot(v, v)), L2Normalize(root, v);
    forall i | 0 <= i < |v| ensures v[i] == Mul(n, u[i]) {
      DividedTimes(v, n, i);
    }
    assert IsTimes(v, n, u);
  }

  /** An enrolment is the unit vector of the draw from the driver's name, an impostor's from "impostor|" before it. */
  lemma EnrolmentAndImpostor(sha: Sha, root: Root, driver: string, dim: nat)
    requires IsRoot(root) && dim > 0
    ensures IsUnitOf(SynthEmbedding(sha, root, driver, dim), Floats(sha, driver, dim))
    ensures IsUnitOf(CaptureEmbedding(sha, root, driver, false, dim), Floats(sha, "impostor|" + driver, dim))
  {
    FloatsNorm(sha, driver, dim);
    FloatsNorm(sha, "impostor|" + driver, dim);
    NormalizedIsUnitOf(root, Floats(sha, driver, dim));
    NormalizedIsUnitOf(root, Floats(sha, "impostor|" + driver, dim));
  }

  /** An impostor is scored as any two different names are: by the dot product of their enrolments. */
  lemma ImpostorScore(sha: Sha, root: Root, driver: string, dim: nat)
    requires IsRoot(root) && dim > 0
    ensures "impostor|" + driver != driver
    ensures Cosine(root, SynthEmbedding(sha, root, driver, dim), CaptureEmbedding(sha, root, driver, false, dim))
            == Dot(SynthEmbedding(sha, root, driver, dim), SynthEmbedding(sha, root, "impostor|" + driver, dim))
  {
    assert |"impostor|" + driver| > |driver|;
    SelfCosineIsOne(sha, root, driver, dim);
    SelfCosineIsOne(sha, root, "impostor|" + driver, dim);
    CosineOfUnits(root, SynthEmbedding(sha, root, driver, dim), SynthEmbedding(sha, root, "impostor|" + driver, dim));
  }

  /** Noise this small never cancels the enrolment. */
  lemma PerturbedIsNotZero(sha: Sha, root: Root, driver: string, dim: nat)
    requires IsRoot(root) && dim > 0 && NoiseSquared(sha, driver, dim) < 1.0
    ensures Dot(Perturbed(sha, root, driver, dim), Perturbed(sha, root, driver, dim)) > 0.0
  {
    hide Dot;
    var noise := Floats(sha, "capture-noise|" + driver, dim);
    FloatsNorm(sha, driver, dim);
    NormalizedIsUnit(root, Floats(sha, driver, dim));
    var a, eps := SynthEmbedding(sha, root, driver, dim), GENUINE_NOISE;
    CauchySchwarz(a, noise);
    NoiseSquare(eps, Dot(a, noise), Dot(noise, noise));
    CombineSquared(a, 1.0, noise, eps);
    NoiseKeepsDirection(eps * Dot(a, noise), eps * eps * Dot(noise, noise));
  }

  /** A genuine capture is the unit vector of the enrolment with the drawn noise added at 0.0375. */
  lemma GenuineCaptureIs(sha: Sha, root: Root, driver: string, dim: nat)
    requires IsRoot(root) && 0 < dim <= 128
    ensures var a, noise := SynthEmbedding(sha, root, driver, dim), Floats(sha, "capture-noise|" + driver, dim);
            exists p: Vector :: (IsUnitOf(CaptureEmbedding(sha, root, driver, true, dim), p)
                                 && |p| == dim && forall i | 0 <= i < dim :: p[i] == a[i] + 0.0375 * noise[i])
  {
    var p := Perturbed(sha, root, driver, dim);
    NoiseIsSmall(sha, driver, dim);
    PerturbedIsNotZero(sha, root, driver, dim);
    NormalizedIsUnitOf(root, p);
    hide Floats, SynthEmbedding, Dot, L2Normalize, IsUnitOf;
  }
}
