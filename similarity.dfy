/**
 * The similarity `search_similarity` computes between a stored embedding `a` and the query
 * embedding `b`: a cosine taken over the shared prefix of the two vectors (Rust's `zip` stops
 * at the shorter one), defined only when both prefix magnitudes are non-zero.
 *
 * The square roots are avoided: the model's `Score` is the SIGNED SQUARE of the cosine,
 * `Dot * |Dot| / (|a|^2 * |b|^2)`. `x |-> x * |x|` is strictly increasing, so `Score` orders
 * entries exactly as the cosine does (`SignedSquareOrder`) and "cosine > 0.95" is
 * "Score > 0.95 * 0.95" (`CosineAgreement`, `CutoffAgreement`).
 */
module Similarity {

  function Min(x: nat, y: nat): nat {
    if x <= y then x else y
  }

  function Abs(x: real): (r: real)
    ensures r >= 0.0 && (r == x || r == -x)
  {
    if x < 0.0 then -x else x
  }

  /** The length of the shared prefix. */
  function Shared(a: seq<real>, b: seq<real>): nat {
    Min(|a|, |b|)
  }

  /** `sum of a[i] * b[i] for i < n`. */
  function DotN(a: seq<real>, b: seq<real>, n: nat): real
    requires n <= |a| && n <= |b|
  {
    if n == 0 then 0.0 else DotN(a, b, n - 1) + a[n - 1] * b[n - 1]
  }

  /** `sum of a[i] * a[i] for i < n`. */
  function SqNormN(a: seq<real>, n: nat): (r: real)
    requires n <= |a|
    ensures r >= 0.0
  {
    if n == 0 then 0.0 else SqNormN(a, n - 1) + a[n - 1] * a[n - 1]
  }

  /** The dot product over the shared prefix. */
  function Dot(a: seq<real>, b: seq<real>): real {
    DotN(a, b, Shared(a, b))
  }

  /** The squared magnitude of the stored embedding's shared prefix. */
  function LeftSqNorm(a: seq<real>, b: seq<real>): real {
    SqNormN(a, Shared(a, b))
  }

  /** The squared magnitude of the query embedding's shared prefix. */
  function RightSqNorm(a: seq<real>, b: seq<real>): real {
    SqNormN(b, Shared(a, b))
  }

  /** An entry takes part in the result iff both prefix magnitudes are positive. */
  predicate Comparable(a: seq<real>, b: seq<real>) {
    LeftSqNorm(a, b) > 0.0 && RightSqNorm(a, b) > 0.0
  }

  function SignedSquare(x: real): real {
    x * Abs(x)
  }

  /** The similarity, as the signed square of the prefix cosine. */
  function Score(a: seq<real>, b: seq<real>): real
    requires Comparable(a, b)
  {
    Ratio(Dot(a, b), LeftSqNorm(a, b), RightSqNorm(a, b))
  }

  /** The signed square of `d / sqrt(p * q)`, for a dot product `d` and squared magnitudes `p`, `q`. */
  function Ratio(d: real, p: real, q: real): real
    requires p > 0.0 && q > 0.0
  {
    SignedSquare(d) / (p * q)
  }

  /** The source's cut-off `similarity > 0.95`, on the signed-square scale. */
  const Cutoff: real := SignedSquare(0.95)

  predicate VerySimilar(score: real) {
    score > Cutoff
  }

  /** The similarity of two embeddings, when both prefix magnitudes are positive. */
  method PrefixSimilarity(stored: seq<real>, query: seq<real>) returns (comparable: bool, score: real)
    ensures comparable == Comparable(stored, query)
    ensures comparable ==> score == Score(stored, query)
  {
    var dot, storedMagnitude, queryMagnitude := PrefixSums(stored, query);
    comparable := storedMagnitude > 0.0 && queryMagnitude > 0.0;
    score := 0.0;
    if comparable {
      score := Ratio(dot, storedMagnitude, queryMagnitude);
    }
  }

  /** The loop over `zip`: the dot product and both squared magnitudes of the shared prefix. */
  method PrefixSums(stored: seq<real>, query: seq<real>) returns (dot: real, storedMagnitude: real, queryMagnitude: real)
    ensures dot == Dot(stored, query)
    ensures storedMagnitude == LeftSqNorm(stored, query) && queryMagnitude == RightSqNorm(stored, query)
  {
    var n := Shared(stored, query);
    dot, storedMagnitude, queryMagnitude := 0.0, 0.0, 0.0;
    for i := 0 to n
      invariant dot == DotN(stored, query, i)
      invariant storedMagnitude == SqNormN(stored, i)
      invariant queryMagnitude == SqNormN(query, i)
    {
      dot := dot + stored[i] * query[i];
      storedMagnitude := storedMagnitude + stored[i] * stored[i];
      queryMagnitude := queryMagnitude + query[i] * query[i];
    }
  }

  /** `sum of (x * b[i] - y * a[i])^2 for i < n`, the cross terms of Lagrange's identity. */
  function CrossN(a: seq<real>, b: seq<real>, n: nat, x: real, y: real): (r: real)
    requires n <= |a| && n <= |b|
    ensures r >= 0.0
  {
    if n == 0 then 0.0
    else
      var d := x * b[n - 1] - y * a[n - 1];
      CrossN(a, b, n - 1, x, y) + d * d
  }

  lemma {:induction false} CrossExpand(a: seq<real>, b: seq<real>, n: nat, x: real, y: real)
    requires n <= |a| && n <= |b|
    ensures CrossN(a, b, n, x, y) ==
            x * x * SqNormN(b, n) + y * y * SqNormN(a, n) - 2.0 * x * y * DotN(a, b, n)
  {
    if n > 0 {
      CrossExpand(a, b, n - 1, x, y);
      var p, q := a[n - 1], b[n - 1];
      var d := x * q - y * p;
      assert d * d == x * x * (q * q) + y * y * (p * p) - 2.0 * x * y * (p * q);
    }
  }

  /** Cauchy-Schwarz over a prefix: `Dot^2 <= |a|^2 * |b|^2`. */
  lemma {:induction false} CauchySchwarzN(a: seq<real>, b: seq<real>, n: nat)
    requires n <= |a| && n <= |b|
    ensures DotN(a, b, n) * DotN(a, b, n) <= SqNormN(a, n) * SqNormN(b, n)
  {
    if n > 0 {
      CauchySchwarzN(a, b, n - 1);
      var m := n - 1;
      var x, y := a[m], b[m];
      var sa, sb, d := SqNormN(a, m), SqNormN(b, m), DotN(a, b, m);
      CrossExpand(a, b, m, x, y);
      assert (sa + x * x) * (sb + y * y) - (d + x * y) * (d + x * y)
          == (sa * sb - d * d) + (x * x * sb + y * y * sa - 2.0 * x * y * d);
    }
  }

  lemma CauchySchwarz(a: seq<real>, b: seq<real>)
    ensures Dot(a, b) * Dot(a, b) <= LeftSqNorm(a, b) * RightSqNorm(a, b)
  {
    CauchySchwarzN(a, b, Shared(a, b));
  }

  /** The similarity lies in [-1, 1], as a cosine does. */
  lemma ScoreRange(a: seq<real>, b: seq<real>)
    requires Comparable(a, b)
    ensures -1.0 <= Score(a, b) <= 1.0
  {
    CauchySchwarz(a, b);
    RatioRange(Dot(a, b), LeftSqNorm(a, b), RightSqNorm(a, b));
  }

  lemma RatioRange(d: real, p: real, q: real)
    requires p > 0.0 && q > 0.0 && d * d <= p * q
    ensures -1.0 <= Ratio(d, p, q) <= 1.0
  {
    MulPos(p, q);
    assert SignedSquare(d) <= d * d && -(d * d) <= SignedSquare(d);
    QuotientBound(SignedSquare(d), p * q);
  }

  lemma QuotientBound(x: real, p: real)
    requires p > 0.0 && -p <= x <= p
    ensures -1.0 <= x / p <= 1.0
  {
    var s := x / p;
    assert s * p == x;
    assert (1.0 - s) * p == p - x;
    assert (s + 1.0) * p == x + p;
  }

  lemma DivSelf(q: real)
    requires q != 0.0
    ensures q / q == 1.0
  {
  }

  lemma SquarePos(x: real)
    requires x != 0.0
    ensures x * x > 0.0
  {
    if x > 0.0 {
      MulPos(x, x);
    } else {
      MulPos(-x, -x);
    }
  }

  lemma AddPositive(x: real, y: real)
    requires x >= 0.0 && y > 0.0
    ensures x + y > 0.0
  {
  }

  lemma MulPos(x: real, y: real)
    requires x > 0.0 && y > 0.0
    ensures x * y > 0.0
  {
  }

  lemma {:induction false} DotSelf(e: seq<real>, n: nat)
    requires n <= |e|
    ensures DotN(e, e, n) == SqNormN(e, n)
  {
    if n > 0 {
      DotSelf(e, n - 1);
    }
  }

  /** An embedding compared with itself has similarity 1. */
  lemma ScoreSelf(e: seq<real>)
    requires Comparable(e, e)
    ensures Score(e, e) == 1.0
  {
    DotSelf(e, |e|);
    var s := SqNormN(e, |e|);
    assert Dot(e, e) == s && LeftSqNorm(e, e) == s && RightSqNorm(e, e) == s;
    assert SignedSquare(s) == s * s;
    MulPos(s, s);
    DivSelf(s * s);
  }

  /** A prefix of zeros has squared magnitude zero. */
  lemma {:induction false} SqNormZero(a: seq<real>, n: nat)
    requires n <= |a|
    requires forall i | 0 <= i < n :: a[i] == 0.0
    ensures SqNormN(a, n) == 0.0
  {
    if n > 0 {
      SqNormZero(a, n - 1);
      assert a[n - 1] == 0.0;
    }
  }

  /** An all-zero embedding, stored or queried, has no magnitude and is never comparable. */
  lemma ZeroNeverComparable(a: seq<real>, b: seq<real>)
    requires forall i | 0 <= i < |a| :: a[i] == 0.0
    ensures !Comparable(a, b) && !Comparable(b, a)
  {
    SqNormZero(a, Shared(a, b));
    SqNormZero(a, Shared(b, a));
  }

  /** An empty embedding, stored or queried, is never comparable. */
  lemma EmptyNeverComparable(a: seq<real>, b: seq<real>)
    requires |a| == 0 || |b| == 0
    ensures !Comparable(a, b)
  {
  }

  lemma SquareIncreasing(v: real, u: real)
    requires 0.0 <= v < u
    ensures v * v < u * u
  {
    var d := u - v;
    assert u * u == v * v + 2.0 * v * d + d * d;
    assert v * d >= 0.0;
    assert d * d > 0.0;
  }

  lemma SignedSquareIncreasing(x: real, y: real)
    requires x < y
    ensures SignedSquare(x) < SignedSquare(y)
  {
    if 0.0 <= x {
      assert SignedSquare(x) == x * x && SignedSquare(y) == y * y;
      SquareIncreasing(x, y);
    } else if y <= 0.0 {
      var u, v := -x, -y;
      assert SignedSquare(x) == -(u * u) && SignedSquare(y) == -(v * v);
      SquareIncreasing(v, u);
    } else {
      assert SignedSquare(x) == -(x * x) && x * x > 0.0;
      assert SignedSquare(y) == y * y && y * y > 0.0;
    }
  }

  /** `x |-> x * |x|` preserves and reflects order. */
  lemma SignedSquareOrder(x: real, y: real)
    ensures x < y <==> SignedSquare(x) < SignedSquare(y)
  {
    if x < y {
      SignedSquareIncreasing(x, y);
    } else if y < x {
      SignedSquareIncreasing(y, x);
    }
  }

  /**
   * For any magnitudes `ma`, `mb` with `ma^2` and `mb^2` the prefix squared norms (the values
   * `sqrt` returns in exact arithmetic), `Score` is the signed square of the cosine
   * `Dot / (ma * mb)`.
   */
  lemma CosineAgreement(a: seq<real>, b: seq<real>, ma: real, mb: real)
    requires Comparable(a, b)
    requires ma > 0.0 && mb > 0.0 && ma * ma == LeftSqNorm(a, b) && mb * mb == RightSqNorm(a, b)
    ensures Score(a, b) == SignedSquare(Dot(a, b) / (ma * mb))
  {
    RatioCosine(Dot(a, b), LeftSqNorm(a, b), RightSqNorm(a, b), ma, mb);
  }

  lemma RatioCosine(d: real, p: real, q: real, ma: real, mb: real)
    requires p > 0.0 && q > 0.0
    requires ma > 0.0 && mb > 0.0 && ma * ma == p && mb * mb == q
    ensures Ratio(d, p, q) == SignedSquare(d / (ma * mb))
  {
    var m := ma * mb;
    MulPos(ma, mb);
    var c := d / m;
    assert d == c * m;
    assert Abs(d) == Abs(c) * m;
    assert SignedSquare(d) == SignedSquare(c) * (m * m);
    assert m * m == p * q;
  }

  /** The source's test `cosine > 0.95` is the model's test `VerySimilar(Score)`. */
  lemma CutoffAgreement(a: seq<real>, b: seq<real>, ma: real, mb: real)
    requires Comparable(a, b)
    requires ma > 0.0 && mb > 0.0 && ma * ma == LeftSqNorm(a, b) && mb * mb == RightSqNorm(a, b)
    ensures VerySimilar(Score(a, b)) <==> Dot(a, b) / (ma * mb) > 0.95
  {
    CosineAgreement(a, b, ma, mb);
    SignedSquareOrder(0.95, Dot(a, b) / (ma * mb));
  }

  lemma {:induction false} DotNExtend(a: seq<real>, b: seq<real>, ext: seq<real>, n: nat)
    requires n <= |a| && n <= |b|
    ensures DotN(a, b + ext, n) == DotN(a, b, n) && SqNormN(b + ext, n) == SqNormN(b, n)
  {
    if n > 0 {
      DotNExtend(a, b, ext, n - 1);
      assert (b + ext)[n - 1] == b[n - 1];
    }
  }

  /** Components of the query beyond the stored embedding's length play no part. */
  lemma SharedPrefixOnly(a: seq<real>, b: seq<real>, ext: seq<real>)
    requires |a| <= |b|
    ensures Comparable(a, b + ext) == Comparable(a, b)
    ensures Comparable(a, b) ==> Score(a, b + ext) == Score(a, b)
  {
    DotNExtend(a, b, ext, |a|);
  }
}
