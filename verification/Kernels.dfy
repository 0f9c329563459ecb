/** Distance kernels over real numbers: the fast forms, and what they are meant to compute. */
module Kernels {
  import opened Rows

  // ---- Inner products ----

  function Dot(a: seq<real>, b: seq<real>): real
    requires |a| == |b|
  {
    if a == [] then 0.0
    else
      var n := |a| - 1;
      Dot(a[..n], b[..n]) + a[n] * b[n]
  }

  /** The squared distance, term by term. */
  function DistanceSq(a: seq<real>, b: seq<real>): real
    requires |a| == |b|
  {
    if a == [] then 0.0
    else
      var n := |a| - 1;
      DistanceSq(a[..n], b[..n]) + (a[n] - b[n]) * (a[n] - b[n])
  }

  lemma SquareNonNegative(x: real)
    ensures x * x >= 0.0
  {
  }

  lemma QuotientSign(y: real, x: real)
    requires x > 0.0 && y / x > 0.0
    ensures y > 0.0
  {
  }

  lemma SquarePositive(x: real, y: real)
    requires x > 0.0 && y == x * x
    ensures y > 0.0
  {
    assert y / x == x;
    QuotientSign(y, x);
  }

  lemma {:induction false} DotSelf(a: seq<real>)
    ensures Dot(a, a) >= 0.0
  {
    if a == [] {
    } else {
      var n := |a| - 1;
      DotSelf(a[..n]);
      SquareNonNegative(a[n]);
    }
  }

  lemma {:induction false} DistanceNonNegative(a: seq<real>, b: seq<real>)
    requires |a| == |b|
    ensures DistanceSq(a, b) >= 0.0
  {
    if a == [] {
    } else {
      var n := |a| - 1;
      DistanceNonNegative(a[..n], b[..n]);
      SquareNonNegative(a[n] - b[n]);
    }
  }

  /** The norm identity. */
  lemma {:induction false} NormIdentity(a: seq<real>, b: seq<real>)
    requires |a| == |b|
    ensures DistanceSq(a, b) == Dot(a, a) + Dot(b, b) - 2.0 * Dot(a, b)
  {
    if a == [] {
    } else {
      var n := |a| - 1;
      NormIdentity(a[..n], b[..n]);
      ExpandSquare(a[n], b[n]);
    }
  }

  lemma ExpandSquare(x: real, y: real)
    ensures (x - y) * (x - y) == x * x + y * y - 2.0 * (x * y)
  {
  }

  // ---- Cauchy-Schwarz ----

  lemma ProductMonotone(x: real, y: real, z: real)
    requires x <= y && z >= 0.0
    ensures x * z <= y * z
  {
  }

  lemma SquareGrows(s: real, t: real)
    requires 0.0 <= s < t
    ensures s * s < t * t
  {
    var d := t - s;
    BinomialSquare(s, d);
    NonNegativeProduct(s, d);
    SquarePositive(d, d * d);
  }

  lemma SmallerSquare(t: real, s: real)
    requires s >= 0.0 && t * t <= s * s
    ensures -s <= t <= s
  {
    assert (-t) * (-t) == t * t;
    if t > s {
      SquareGrows(s, t);
      assert false;
    }
    if t < -s {
      SquareGrows(s, -t);
      assert false;
    }
  }

  /** One more component. */
  lemma CauchyStep(p: real, a: real, b: real, x: real, y: real)
    requires a >= 0.0 && b >= 0.0 && p * p <= a * b
    ensures (p + x * y) * (p + x * y) <= (a + x * x) * (b + y * y)
  {
    var s, t := a * (y * y) + b * (x * x), 2.0 * (p * (x * y));
    MiddleTerm(p, a, b, x, y);
    assert (p + x * y) * (p + x * y) == p * p + t + (x * y) * (x * y) by {
      BinomialSquare(p, x * y);
    }
    assert (a + x * x) * (b + y * y) == a * b + s + (x * x) * (y * y);
    assert (x * y) * (x * y) == (x * x) * (y * y) by {
      ProductSquare(x, y);
    }
  }

  lemma BinomialSquare(x: real, y: real)
    ensures (x + y) * (x + y) == x * x + 2.0 * (x * y) + y * y
  {
  }

  lemma ProductSquare(x: real, y: real)
    ensures (x * y) * (x * y) == (x * x) * (y * y)
  {
    assert (x * y) * (x * y) == x * (y * (x * y));
    assert y * (x * y) == x * (y * y);
  }

  /** 2pxy <= ay^2 + bx^2 when p^2 <= ab. */
  lemma MiddleTerm(p: real, a: real, b: real, x: real, y: real)
    requires a >= 0.0 && b >= 0.0 && p * p <= a * b
    ensures 2.0 * (p * (x * y)) <= a * (y * y) + b * (x * x)
  {
    var u, v, w := a * (y * y), b * (x * x), x * y;
    SquareNonNegative(x);
    SquareNonNegative(y);
    SquareNonNegative(w);
    NonNegativeProduct(a, y * y);
    NonNegativeProduct(b, x * x);
    ProductSquare(p, w);
    assert (2.0 * (p * w)) * (2.0 * (p * w)) == 4.0 * ((p * p) * (w * w));
    ProductMonotone(p * p, a * b, w * w);
    CrossTerms(a, b, x, y);
    ArithmeticGeometric(u, v);
    SmallerSquare(2.0 * (p * w), u + v);
  }

  lemma NonNegativeProduct(x: real, y: real)
    requires x >= 0.0 && y >= 0.0
    ensures x * y >= 0.0
  {
  }

  lemma CrossTerms(a: real, b: real, x: real, y: real)
    ensures (a * b) * ((x * y) * (x * y)) == (a * (y * y)) * (b * (x * x))
  {
    ProductSquare(x, y);
    var p, q := x * x, y * y;
    assert (a * b) * (p * q) == a * (b * (p * q));
    assert (a * q) * (b * p) == a * (q * (b * p));
    assert b * (p * q) == q * (b * p);
  }

  lemma ArithmeticGeometric(u: real, v: real)
    ensures 4.0 * (u * v) <= (u + v) * (u + v)
  {
    SquareNonNegative(u - v);
    BinomialSquare(u, v);
    ExpandSquare(u, v);
  }

  /** By induction on the dimension. */
  lemma {:induction false} CauchySchwarz(a: seq<real>, b: seq<real>)
    requires |a| == |b|
    ensures Dot(a, b) * Dot(a, b) <= Dot(a, a) * Dot(b, b)
  {
    if a == [] {
    } else {
      var n := |a| - 1;
      CauchySchwarz(a[..n], b[..n]);
      DotSelf(a[..n]);
      DotSelf(b[..n]);
      CauchyStep(Dot(a[..n], b[..n]), Dot(a[..n], a[..n]), Dot(b[..n], b[..n]), a[n], b[n]);
    }
  }

  // ---- What a kernel writes for one row ----

  /** The precomputed norm of a vector, taken as exact. */
  predicate NormOf(n: real, v: seq<real>) {
    n >= 0.0 && n * n == Dot(v, v)
  }

  function CosineOf(w: seq<real>, rn: real, q: seq<real>, qn: real): real
    requires |w| == |q|
  {
    if qn > 0.0 && rn > 0.0 then Dot(w, q) / (rn * qn) else 0.0
  }

  function ClampedIdentity(w: seq<real>, rn: real, q: seq<real>, qn: real): real
    requires |w| == |q|
  {
    var sq := rn * rn + qn * qn - 2.0 * Dot(w, q);
    if sq < 0.0 then 0.0 else sq
  }

  /** The fast form is the squared distance, and its clamp never changes a value. */
  lemma FastIsDirect(w: seq<real>, rn: real, q: seq<real>, qn: real)
    requires |w| == |q| && NormOf(rn, w) && NormOf(qn, q)
    ensures rn * rn + qn * qn - 2.0 * Dot(w, q) >= 0.0
    ensures ClampedIdentity(w, rn, q, qn) == DistanceSq(w, q)
  {
    NormIdentity(w, q);
    DistanceNonNegative(w, q);
  }

  function Distance(x: real, y: real): real {
    if x < y then y - x else x - y
  }

  /** With norms that are off, the clamp can only bring the score nearer to the true squared distance, and it changes negative values alone. */
  lemma ClampNeverHurts(w: seq<real>, rn: real, q: seq<real>, qn: real)
    requires |w| == |q|
    ensures var sq := rn * rn + qn * qn - 2.0 * Dot(w, q);
      && ClampedIdentity(w, rn, q, qn) >= 0.0 && (sq >= 0.0 ==> ClampedIdentity(w, rn, q, qn) == sq)
      && Distance(ClampedIdentity(w, rn, q, qn), DistanceSq(w, q)) <= Distance(sq, DistanceSq(w, q))
      && (sq < 0.0 ==> ClampedIdentity(w, rn, q, qn) == 0.0)
  {
    DistanceNonNegative(w, q);
  }

  lemma PositiveProduct(x: real, y: real)
    requires x > 0.0 && y > 0.0
    ensures x * y > 0.0
  {
  }

  lemma ScaleGrows(r: real, m: real)
    requires r > 1.0 && m > 0.0
    ensures r * m > m
  {
    PositiveProduct(r - 1.0, m);
    assert (r - 1.0) * m == r * m - m;
  }

  lemma QuotientBound(x: real, m: real)
    requires m > 0.0 && -m <= x <= m
    ensures -1.0 <= x / m <= 1.0
  {
    var r := x / m;
    assert r * m == x;
    assert (-r) * m == -x;
    if r > 1.0 {
      ScaleGrows(r, m);
      assert false;
    }
    if r < -1.0 {
      ScaleGrows(-r, m);
      assert false;
    }
  }

  lemma DotWithinNorms(w: seq<real>, rn: real, q: seq<real>, qn: real)
    requires |w| == |q| && NormOf(rn, w) && NormOf(qn, q)
    ensures -(rn * qn) <= Dot(w, q) <= rn * qn
  {
    CauchySchwarz(w, q);
    ProductSquare(rn, qn);
    NonNegativeProduct(rn, qn);
    SmallerSquare(Dot(w, q), rn * qn);
  }

  /** A cosine score is a cosine. */
  lemma CosineInRange(w: seq<real>, rn: real, q: seq<real>, qn: real)
    requires |w| == |q| && NormOf(rn, w) && NormOf(qn, q)
    ensures -1.0 <= CosineOf(w, rn, q, qn) <= 1.0
  {
    DotWithinNorms(w, rn, q, qn);
    if qn > 0.0 && rn > 0.0 {
      PositiveProduct(rn, qn);
      QuotientBound(Dot(w, q), rn * qn);
    }
  }

  lemma SelfQuotient(d: real, n: real)
    requires n > 0.0 && n * n == d
    ensures d > 0.0 && n * n != 0.0 && d / (n * n) == 1.0
  {
    SquarePositive(n, d);
  }

  /** A row compared with itself has cosine 1, unless it is the zero vector; then it has 0. */
  lemma CosineOfSelf(w: seq<real>, rn: real)
    requires NormOf(rn, w)
    ensures CosineOf(w, rn, w, rn) == if Dot(w, w) > 0.0 then 1.0 else 0.0
  {
    DotSelf(w);
    if rn > 0.0 {
      SelfQuotient(Dot(w, w), rn);
    } else {
      assert rn * rn == 0.0;
    }
  }

  // ---- The kernels over a chunk of rows ----

  /** Row i of a row-major matrix of count rows. */
  function Row<T>(vecs: seq<T>, dim: nat, count: nat, i: nat): (w: seq<T>)
    requires count * dim <= |vecs| && i < count
    ensures |w| == dim
  {
    RowBound(i, count, dim);
    vecs[i * dim..(i + 1) * dim]
  }

  method DotProduct(a: seq<real>, b: seq<real>) returns (d: real)
    requires |a| == |b|
    ensures d == Dot(a, b)
  {
    d := 0.0;
    for i := 0 to |a|
      invariant d == Dot(a[..i], b[..i])
    {
      d := d + a[i] * b[i];
      assert a[..i + 1][..i] == a[..i] && b[..i + 1][..i] == b[..i];
    }
    assert a[..|a|] == a && b[..|b|] == b;
  }

  /** The matrix-vector product into the output buffer. */
  method Dots(vecs: seq<real>, count: nat, dim: nat, q: seq<real>, out: array<real>)
    requires count * dim <= |vecs| && |q| == dim && count <= out.Length
    modifies out
    ensures forall i :: 0 <= i < count ==> out[i] == Dot(Row(vecs, dim, count, i), q)
    ensures forall i :: count <= i < out.Length ==> out[i] == old(out[i])
  {
    for i := 0 to count
      invariant forall k :: 0 <= k < i ==> out[k] == Dot(Row(vecs, dim, count, k), q)
      invariant forall k :: i <= k < out.Length ==> out[k] == old(out[k])
    {
      out[i] := DotProduct(Row(vecs, dim, count, i), q);
    }
  }

  /** CosineF32Chunk: dot products, then one normalizing pass; zero norms give score 0. */
  method CosineF32Chunk(vecs: seq<real>, norms: seq<real>, count: nat, dim: nat, q: seq<real>, qn: real, out: array<real>)
    requires count * dim <= |vecs| && count <= |norms| && |q| == dim && count <= out.Length
    modifies out
    ensures forall i :: 0 <= i < count ==> out[i] == CosineOf(Row(vecs, dim, count, i), norms[i], q, qn)
    ensures forall i :: count <= i < out.Length ==> out[i] == old(out[i])
  {
    Dots(vecs, count, dim, q, out);
    if qn > 0.0 {
      for i := 0 to count
        invariant forall k :: 0 <= k < i ==> out[k] == CosineOf(Row(vecs, dim, count, k), norms[k], q, qn)
        invariant forall k :: i <= k < count ==> out[k] == Dot(Row(vecs, dim, count, k), q)
        invariant forall k :: count <= k < out.Length ==> out[k] == old(out[k])
      {
        if norms[i] > 0.0 {
          PositiveProduct(norms[i], qn);
          out[i] := out[i] / (norms[i] * qn);
        } else {
          out[i] := 0.0;
        }
      }
    } else {
      for i := 0 to count
        invariant forall k :: 0 <= k < i ==> out[k] == 0.0
        invariant forall k :: count <= k < out.Length ==> out[k] == old(out[k])
      {
        out[i] := 0.0;
      }
    }
  }

  /** out = norms^2 + |q|^2 - 2 out */
  method ApplyIdentity(norms: seq<real>, qn: real, count: nat, out: array<real>)
    requires count <= |norms| && count <= out.Length
    modifies out
    ensures forall i :: 0 <= i < count ==> out[i] == norms[i] * norms[i] + qn * qn - 2.0 * old(out[i])
    ensures forall i :: count <= i < out.Length ==> out[i] == old(out[i])
  {
    for i := 0 to count
      invariant forall k :: 0 <= k < i ==> out[k] == norms[k] * norms[k] + qn * qn - 2.0 * old(out[k])
      invariant forall k :: i <= k < out.Length ==> out[k] == old(out[k])
    {
      out[i] := norms[i] * norms[i] + qn * qn - 2.0 * out[i];
    }
  }

  /** out = max(out, 0) */
  method Clamp(count: nat, out: array<real>)
    requires count <= out.Length
    modifies out
    ensures forall i :: 0 <= i < count ==> out[i] == if old(out[i]) < 0.0 then 0.0 else old(out[i])
    ensures forall i :: count <= i < out.Length ==> out[i] == old(out[i])
  {
    for i := 0 to count
      invariant forall k :: 0 <= k < i ==> out[k] == if old(out[k]) < 0.0 then 0.0 else old(out[k])
      invariant forall k :: i <= k < out.Length ==> out[k] == old(out[k])
    {
      if out[i] < 0.0 {
        out[i] := 0.0;
      }
    }
  }

  /** EuclideanSqF32Chunk: dot products, the norm identity, then the clamp, each over the whole buffer. */
  method EuclideanSqF32Chunk(vecs: seq<real>, norms: seq<real>, count: nat, dim: nat, q: seq<real>, qn: real, out: array<real>)
    requires count * dim <= |vecs| && count <= |norms| && |q| == dim && count <= out.Length
    modifies out
    ensures forall i :: 0 <= i < count ==> out[i] == ClampedIdentity(Row(vecs, dim, count, i), norms[i], q, qn)
    ensures forall i :: count <= i < out.Length ==> out[i] == old(out[i])
  {
    Dots(vecs, count, dim, q, out);
    ApplyIdentity(norms, qn, count, out);
    Clamp(count, out);
  }

  /** With exact norms the fast chunk is the direct one. */
  lemma FastChunkIsDirect(vecs: seq<real>, norms: seq<real>, count: nat, dim: nat, q: seq<real>, qn: real, i: nat)
    requires count * dim <= |vecs| && count <= |norms| && |q| == dim && i < count
    requires NormOf(norms[i], Row(vecs, dim, count, i)) && NormOf(qn, q)
    ensures ClampedIdentity(Row(vecs, dim, count, i), norms[i], q, qn) == DistanceSq(Row(vecs, dim, count, i), q)
  {
    FastIsDirect(Row(vecs, dim, count, i), norms[i], q, qn);
  }

  method DirectDistance(w: seq<real>, q: seq<real>) returns (d: real)
    requires |w| == |q|
    ensures d == DistanceSq(w, q)
  {
    d := 0.0;
    for i := 0 to |w|
      invariant d == DistanceSq(w[..i], q[..i])
    {
      d := d + (w[i] - q[i]) * (w[i] - q[i]);
      assert w[..i + 1][..i] == w[..i] && q[..i + 1][..i] == q[..i];
    }
    assert w[..|w|] == w && q[..|q|] == q;
  }

  /** EuclideanSqF32Chunk_Direct: the slow reference. */
  method EuclideanSqF32ChunkDirect(vecs: seq<real>, count: nat, dim: nat, q: seq<real>, out: array<real>)
    requires count * dim <= |vecs| && |q| == dim && count <= out.Length
    modifies out
    ensures forall i :: 0 <= i < count ==> out[i] == DistanceSq(Row(vecs, dim, count, i), q)
    ensures forall i :: count <= i < out.Length ==> out[i] == old(out[i])
  {
    for i := 0 to count
      invariant forall k :: 0 <= k < i ==> out[k] == DistanceSq(Row(vecs, dim, count, k), q)
      invariant forall k :: i <= k < out.Length ==> out[k] == old(out[k])
    {
      out[i] := DirectDistance(Row(vecs, dim, count, i), q);
    }
  }

  // ---- Anomaly distance ----

  /** A square root, taken as exact. */
  ghost predicate Roots(root: real -> real) {
    forall x :: x >= 0.0 ==> root(x) >= 0.0 && root(x) * root(x) == x
  }

  /** DetectAnomaly's distance of a vector from the window mean. */
  function AnomalyDistance(mean: seq<real>, v: seq<real>, cosine: bool, root: real -> real): real
    requires |mean| == |v|
  {
    var mn, vn := root(Dot(mean, mean)), root(Dot(v, v));
    if cosine then 1.0 - CosineOf(mean, mn, v, vn)
    else root(ClampedIdentity(mean, mn, v, vn))
  }

  /** A cosine distance lies in [0, 2]; a Euclidean one is the distance. */
  lemma AnomalyDistanceMeans(mean: seq<real>, v: seq<real>, root: real -> real)
    requires |mean| == |v| && Roots(root)
    ensures 0.0 <= AnomalyDistance(mean, v, true, root) <= 2.0
    ensures AnomalyDistance(mean, v, false, root) >= 0.0
    ensures AnomalyDistance(mean, v, false, root) * AnomalyDistance(mean, v, false, root) == DistanceSq(mean, v)
  {
    hide Dot, DistanceSq, CosineOf, ClampedIdentity;
    DotSelf(mean);
    DotSelf(v);
    var mn, vn := root(Dot(mean, mean)), root(Dot(v, v));
    assert NormOf(mn, mean) && NormOf(vn, v);
    CosineInRange(mean, mn, v, vn);
    FastIsDirect(mean, mn, v, vn);
    DistanceNonNegative(mean, v);
  }

  predicate Multiple(v: seq<real>, k: real, u: seq<real>) {
    |v| == |u| && forall i :: 0 <= i < |v| ==> v[i] == k * u[i]
  }

  lemma MultipleParts(v: seq<real>, k: real, u: seq<real>)
    requires Multiple(v, k, u) && u != []
    ensures var n := |u| - 1; Multiple(v[..n], k, u[..n]) && v[n] == k * u[n]
  {
  }

  lemma DotLast(u: seq<real>, v: seq<real>)
    requires |u| == |v| && u != []
    ensures var n := |u| - 1; Dot(u, v) == Dot(u[..n], v[..n]) + u[n] * v[n]
  {
  }

  lemma ScaledTerm(x: real, z: real, k: real)
    requires z == k * x
    ensures x * z == k * (x * x) && z * z == (k * k) * (x * x)
  {
    ProductSquare(k, x);
    assert x * (k * x) == k * (x * x);
  }

  lemma Collect(k: real, x: real, y: real)
    ensures k * x + k * y == k * (x + y)
  {
  }

  function Times(x: real, y: real): real {
    x * y
  }

  lemma MultipleStep(k: real, a: real, p: real, q: real, x: real, z: real)
    requires p == Times(k, a) && q == Times(k * k, a) && z == k * x
    ensures p + x * z == Times(k, a + x * x) && q + z * z == Times(k * k, a + x * x)
  {
    ScaledTerm(x, z, k);
    Collect(k, a, x * x);
    Collect(k * k, a, x * x);
  }

  lemma MultipleLength(v: seq<real>, k: real, u: seq<real>)
    requires Multiple(v, k, u)
    ensures |v| == |u|
  {
  }

  lemma NoProducts(u: seq<real>, v: seq<real>, k: real)
    requires u == [] == v
    ensures Dot(u, v) == Times(k, Dot(u, u)) && Dot(v, v) == Times(k * k, Dot(u, u))
  {
  }

  lemma {:induction false} DotTimes(u: seq<real>, v: seq<real>, k: real)
    requires Multiple(v, k, u)
    ensures Dot(u, v) == Times(k, Dot(u, u)) && Dot(v, v) == Times(k * k, Dot(u, u))
  {
    MultipleLength(v, k, u);
    hide Multiple, Times, Dot;
    if u == [] {
      NoProducts(u, v, k);
    } else {
      var n := |u| - 1;
      MultipleParts(v, k, u);
      DotTimes(u[..n], v[..n], k);
      MultipleStep(k, Dot(u[..n], u[..n]), Dot(u[..n], v[..n]), Dot(v[..n], v[..n]), u[n], v[n]);
      DotLast(u, v);
      DotLast(v, v);
      DotLast(u, u);
    }
  }

  lemma DotOfMultiple(u: seq<real>, v: seq<real>, k: real)
    requires Multiple(v, k, u)
    ensures Dot(u, v) == k * Dot(u, u) && Dot(v, v) == (k * k) * Dot(u, u)
  {
    hide Dot;
    DotTimes(u, v, k);
  }

  lemma SquareRootUnique(x: real, y: real)
    requires x >= 0.0 && y >= 0.0 && x * x == y * y
    ensures x == y
  {
    SmallerSquare(x, y);
    SmallerSquare(y, x);
  }

  lemma NormOfMultiple(u: seq<real>, v: seq<real>, k: real, n: real, m: real)
    requires Multiple(v, k, u) && k != 0.0 && NormOf(n, u) && NormOf(m, v)
    ensures m == (if k > 0.0 then k else -k) * n
  {
    hide Dot, Multiple;
    var p := if k > 0.0 then k else -k;
    DotOfMultiple(u, v, k);
    ProductSquare(p, n);
    NonNegativeProduct(p, n);
    assert p * p == k * k;
    SquareRootUnique(m, p * n);
  }

  lemma SignedProduct(k: real, p: real, d: real, n: real, m: real)
    requires k != 0.0 && p == (if k > 0.0 then k else -k) && n > 0.0 && m == p * n && d == n * n
    ensures n * m > 0.0 && m > 0.0 && k * d == (if k > 0.0 then n * m else -(n * m))
  {
    PositiveProduct(p, n);
    PositiveProduct(n, m);
    ScaledTerm(n, m, p);
    assert k * d == if k > 0.0 then p * d else -(p * d);
  }

  /** A nonzero vector and a multiple of it have cosine 1 or -1. */
  lemma CosineOfMultiple(u: seq<real>, v: seq<real>, k: real, n: real, m: real)
    requires Multiple(v, k, u) && k != 0.0 && NormOf(n, u) && NormOf(m, v) && n > 0.0
    ensures CosineOf(u, n, v, m) == if k > 0.0 then 1.0 else -1.0
  {
    assert |v| == |u|;
    hide Dot, Multiple;
    NormOfMultiple(u, v, k, n, m);
    DotOfMultiple(u, v, k);
    SignedProduct(k, if k > 0.0 then k else -k, Dot(u, u), n, m);
    var x, y := Dot(u, v), n * m;
    assert x == if k > 0.0 then y else -y;
    SignOfQuotient(x, y);
    assert CosineOf(u, n, v, m) == x / y;
  }

  lemma SignOfQuotient(x: real, y: real)
    requires y > 0.0 && (x == y || x == -y)
    ensures x / y == if x > 0.0 then 1.0 else -1.0
  {
  }

  /** The cosine distance from a nonzero mean is 0 for a positive multiple of it and 2 for a negative one; from a zero mean it is 1. */
  lemma AnomalyDistanceOfMultiple(mean: seq<real>, v: seq<real>, k: real, root: real -> real)
    requires Roots(root) && Multiple(v, k, mean) && k != 0.0
    ensures AnomalyDistance(mean, v, true, root) == if Dot(mean, mean) == 0.0 then 1.0 else if k > 0.0 then 0.0 else 2.0
  {
    DotSelf(mean);
    DotSelf(v);
    var mn, vn := root(Dot(mean, mean)), root(Dot(v, v));
    hide Dot, Multiple;
    assert NormOf(mn, mean) && NormOf(vn, v);
    SquareZero(mn);
    if mn > 0.0 {
      hide CosineOf;
      CosineOfMultiple(mean, v, k, mn, vn);
    }
  }

  lemma SquareZero(x: real)
    ensures x * x == 0.0 <==> x == 0.0
  {
    if x > 0.0 {
      SquarePositive(x, x * x);
    } else if x < 0.0 {
      SquarePositive(-x, x * x);
    }
  }
}
