/** The norms recovery recomputes: exact for floats, within half a quantization step per component for INT8. */
module RecoveredNorms {
  import opened Kernels
  import opened Int8Kernels

  /** The vector an INT8 row stands for. */
  function Scaled(q: seq<int>, s: real): (v: seq<real>)
    ensures |v| == |q|
  {
    seq(|q|, i requires 0 <= i < |q| => Rebuilt(q[i], s))
  }

  lemma ScaledPrefix(q: seq<int>, s: real)
    requires q != []
    ensures var n := |q| - 1; Scaled(q, s)[..n] == Scaled(q[..n], s) && Scaled(q, s)[n] == Rebuilt(q[n], s)
  {
    hide Rebuilt;
  }

  /** scale * sqrt(sum of q_i^2) */
  function NormFromBytes(q: seq<int>, s: real, root: real -> real): real {
    s * root(DotInt(q, q) as real)
  }

  lemma SquareTerm(q: int, s: real, d: int, x: real)
    requires x == (q as real) * s
    ensures (d as real) * (s * s) + x * x == ((d + q * q) as real) * (s * s)
  {
    var k := q as real;
    ProductSquare(k, s);
    assert (q * q) as real == k * k;
    Collect(s * s, d as real, k * k);
  }

  lemma {:induction false} DotScaled(q: seq<int>, s: real)
    ensures Dot(Scaled(q, s), Scaled(q, s)) == (DotInt(q, q) as real) * (s * s)
    ensures DotInt(q, q) >= 0
  {
    if q == [] {
    } else {
      var n := |q| - 1;
      DotScaled(q[..n], s);
      ScaledPrefix(q, s);
      DotLast(Scaled(q, s), Scaled(q, s));
      DotIntLast(q, q);
      SquareTerm(q[n], s, DotInt(q[..n], q[..n]), Scaled(q, s)[n]);
      Square(q[n]);
    }
  }

  lemma Square(x: int)
    ensures x * x >= 0
  {
  }

  lemma RootScales(s: real, r: real, d: real)
    requires s >= 0.0 && r >= 0.0 && r * r == d
    ensures s * r >= 0.0 && (s * r) * (s * r) == d * (s * s)
  {
    NonNegativeProduct(s, r);
    ProductSquare(s, r);
  }

  /** The recomputed number is the norm of what the row stands for. */
  lemma NormFromBytesIsNorm(q: seq<int>, s: real, root: real -> real)
    requires s >= 0.0 && Roots(root)
    ensures NormOf(NormFromBytes(q, s, root), Scaled(q, s))
  {
    hide Dot, DotInt;
    DotScaled(q, s);
    var d := DotInt(q, q) as real;
    assert d >= 0.0;
    RootScales(s, root(d), d);
  }

  lemma SmallSquare(x: real, h: real)
    requires Abs(x) <= h
    ensures x * x <= h * h
  {
    AbsProduct(x, x, h, h);
    SquareNonNegative(x);
  }

  lemma AddTerm(n: nat, e: real, total: real, x: real)
    requires total <= (n as real) * e && x <= e
    ensures total + x <= ((n + 1) as real) * e
  {
    assert ((n + 1) as real) * e == (n as real) * e + e;
  }

  lemma {:induction false} QuantizedDistance(v: seq<real>, q: seq<int>, s: real)
    requires Represents(q, s, v)
    ensures DistanceSq(v, Scaled(q, s)) <= (|v| as real) * ((s / 2.0) * (s / 2.0))
  {
    hide Near, Scaled;
    if v == [] {
    } else {
      var n := |v| - 1;
      LastComponent(q, s, v);
      QuantizedDistance(v[..n], q[..n], s);
      var u := Scaled(q, s);
      ScaledPrefix(q, s);
      LastError(q[n], s, v[n], u[n]);
      DistanceLast(v, u);
      AddTerm(n, (s / 2.0) * (s / 2.0), DistanceSq(v[..n], u[..n]), (v[n] - u[n]) * (v[n] - u[n]));
    }
  }

  lemma LastError(q: int, s: real, x: real, y: real)
    requires Near(q, s, x) && y == (q as real) * s
    ensures (x - y) * (x - y) <= (s / 2.0) * (s / 2.0)
  {
    SmallSquare(x - y, s / 2.0);
  }

  lemma DistanceLast(a: seq<real>, b: seq<real>)
    requires |a| == |b| && a != []
    ensures var n := |a| - 1; DistanceSq(a, b) == DistanceSq(a[..n], b[..n]) + (a[n] - b[n]) * (a[n] - b[n])
  {
  }

  /** Norms differ by no more than the vectors do. */
  lemma NormsDiffer(v: seq<real>, w: seq<real>, n: real, m: real)
    requires |v| == |w| && NormOf(n, v) && NormOf(m, w)
    ensures (n - m) * (n - m) <= DistanceSq(v, w)
  {
    hide Dot, DistanceSq;
    NormIdentity(v, w);
    DotWithinNorms(v, n, w, m);
    ExpandSquare(n, m);
  }

  /** The norm recovered for an INT8 row and the norm of the vector that was appended differ by at most sqrt(dim) * scale / 2. */
  lemma RecoveredNormIsNear(v: seq<real>, q: seq<int>, s: real, norm: real, root: real -> real)
    requires Represents(q, s, v) && NormOf(norm, v) && Roots(root)
    ensures var d := norm - NormFromBytes(q, s, root); d * d <= (|v| as real) * ((s / 2.0) * (s / 2.0))
  {
    hide NormOf, NormFromBytes, DistanceSq, Near;
    NormFromBytesIsNorm(q, s, root);
    NormsDiffer(v, Scaled(q, s), norm, NormFromBytes(q, s, root));
    QuantizedDistance(v, q, s);
  }
}
