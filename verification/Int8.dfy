/** INT8 storage: quantization, the integer dot product, and how far the scores can be from the truth. */
module Int8Kernels {
  import opened Kernels
  import opened TopK

  type i8 = x: int | -128 <= x <= 127
  type i32 = x: int | -0x8000_0000 <= x < 0x8000_0000

  // ---- Quantization ----

  function Abs(x: real): (a: real)
    ensures a >= 0.0
  {
    if x < 0.0 then -x else x
  }

  function MaxAbs(v: seq<real>): (m: real)
    ensures m >= 0.0
  {
    if v == [] then 0.0
    else
      var n := |v| - 1;
      if Abs(v[n]) > MaxAbs(v[..n]) then Abs(v[n]) else MaxAbs(v[..n])
  }

  lemma {:induction false} MaxAbsBounds(v: seq<real>, i: nat)
    requires i < |v|
    ensures Abs(v[i]) <= MaxAbs(v)
  {
    var n := |v| - 1;
    if i < n {
      MaxAbsBounds(v[..n], i);
    }
  }

  /** lround: half away from zero. */
  function Lround(x: real): int {
    if x >= 0.0 then (x + 0.5).Floor else -((0.5 - x).Floor)
  }

  function Clamp127(x: real): real {
    if x > 127.0 then 127.0 else if x < -127.0 then -127.0 else x
  }

  function QuantizeOne(x: real, maxAbs: real): int
    requires maxAbs > 0.0
  {
    Lround(Clamp127(x * (127.0 / maxAbs)))
  }

  lemma LroundNear(x: real)
    ensures -0.5 <= x - (Lround(x) as real) <= 0.5
    ensures -127.0 <= x <= 127.0 ==> -127 <= Lround(x) <= 127
  {
  }

  /** Ties go away from zero. */
  lemma LroundTies(k: nat)
    ensures Lround(k as real + 0.5) == k + 1 && Lround(-(k as real) - 0.5) == -(k as int) - 1
  {
    assert k as real + 0.5 + 0.5 == (k + 1) as real;
    assert 0.5 - (-(k as real) - 0.5) == (k + 1) as real;
  }

  /** q and s represent v: every component is off by at most half a step, and none needs more than 127 steps. */
  ghost predicate Represents(q: seq<int>, s: real, v: seq<real>) {
    && |q| == |v| && s >= 0.0
    && forall i :: 0 <= i < |v| ==> Near(q[i], s, v[i])
  }

  predicate Near(q: int, s: real, x: real) {
    -127 <= q <= 127 && Abs(x) <= 127.0 * s && Abs(x - (q as real) * s) <= s / 2.0
  }

  lemma Rescale(x: real, m: real)
    requires m > 0.0
    ensures 127.0 / m > 0.0 && m / 127.0 > 0.0
    ensures (x * (127.0 / m)) * (m / 127.0) == x
  {
    var k, s := 127.0 / m, m / 127.0;
    assert k * m == 127.0;
    assert s * 127.0 == m;
    assert (x * k) * s == x * (k * s);
    assert (k * s) * 127.0 == k * (s * 127.0) == 127.0;
    PositiveQuotient(127.0, m);
  }

  lemma PositiveQuotient(a: real, b: real)
    requires a > 0.0 && b > 0.0
    ensures a / b > 0.0
  {
  }

  lemma ScaledBound(x: real, m: real)
    requires m > 0.0 && Abs(x) <= m
    ensures -127.0 <= x * (127.0 / m) <= 127.0
  {
    QuotientBound(x, m);
    var r := x / m;
    assert r * m == x && (127.0 / m) * m == 127.0;
    assert x * (127.0 / m) == r * ((127.0 / m) * m);
  }

  lemma StepError(x: real, y: real, k: int, s: real)
    requires s > 0.0 && y * s == x && -0.5 <= y - (k as real) <= 0.5
    ensures Abs(x - (k as real) * s) <= s / 2.0
  {
    var d, ks := y - (k as real), (k as real) * s;
    Distribute(y, k as real, s);
    ProductMonotone(d, 0.5, s);
    ProductMonotone(-0.5, d, s);
    assert d * s == x - ks && -(s / 2.0) <= d * s <= s / 2.0;
  }

  lemma Distribute(x: real, y: real, z: real)
    ensures (x - y) * z == x * z - y * z
  {
  }

  lemma FullScale(x: real, m: real)
    requires Abs(x) <= m
    ensures Abs(x) <= 127.0 * (m / 127.0)
  {
  }

  /** Each component is off by at most half the scale, and the clamp never acts. */
  lemma QuantizeOneIsNear(x: real, m: real)
    requires m > 0.0 && Abs(x) <= m
    ensures Clamp127(x * (127.0 / m)) == x * (127.0 / m)
    ensures Near(QuantizeOne(x, m), m / 127.0, x)
  {
    hide Lround, Abs;
    ScaledBound(x, m);
    var y, s := x * (127.0 / m), m / 127.0;
    LroundNear(y);
    FullScale(x, m);
    assert y * s == x && s > 0.0 by {
      Rescale(x, m);
    }
    StepError(x, y, Lround(y), s);
  }

  /** QuantizeF32ToI8: two passes over the input, writing the output in place. */
  method QuantizeF32ToI8(v: seq<real>, out: array<i8>) returns (scale: real)
    requires |v| <= out.Length
    modifies out
    ensures scale == MaxAbs(v) / 127.0
    ensures Represents(out[..|v|], scale, v)
    ensures forall i :: |v| <= i < out.Length ==> out[i] == old(out[i])
  {
    var maxAbs := 0.0;
    for i := 0 to |v|
      invariant maxAbs == MaxAbs(v[..i])
    {
      var a := if v[i] < 0.0 then -v[i] else v[i];
      assert v[..i + 1][..i] == v[..i];
      if a > maxAbs {
        maxAbs := a;
      }
    }
    assert v[..|v|] == v;
    forall i | 0 <= i < |v| ensures Abs(v[i]) <= maxAbs {
      MaxAbsBounds(v, i);
    }
    if maxAbs == 0.0 {
      for i := 0 to |v|
        invariant forall k :: 0 <= k < i ==> out[k] == 0
        invariant forall k :: i <= k < out.Length ==> out[k] == old(out[k])
      {
        out[i] := 0;
      }
      return 0.0;
    }
    scale := maxAbs / 127.0;
    for i := 0 to |v|
      invariant forall k :: 0 <= k < i ==> Near(out[k], scale, v[k])
      invariant forall k :: i <= k < out.Length ==> out[k] == old(out[k])
    {
      QuantizeOneIsNear(v[i], maxAbs);
      out[i] := QuantizeOne(v[i], maxAbs);
    }
    PositiveQuotient(maxAbs, 127.0);
  }

  // ---- The integer dot product ----

  function DotInt(a: seq<int>, b: seq<int>): int
    requires |a| == |b|
  {
    if a == [] then 0
    else
      var n := |a| - 1;
      DotInt(a[..n], b[..n]) + a[n] * b[n]
  }

  lemma SmallProduct(x: nat, y: nat)
    requires x <= 128 && y <= 128
    ensures 0 <= x * y <= 16384
  {
    assert (128 - x) * y >= 0;
    assert (128 - x) * y == 128 * y - x * y;
  }

  lemma ByteProduct(x: i8, y: i8)
    ensures -16384 <= x * y <= 16384
  {
    var ax: nat := if x < 0 then -(x as int) else x;
    var ay: nat := if y < 0 then -(y as int) else y;
    SmallProduct(ax, ay);
    SignedProduct(x, y);
  }

  lemma SignedProduct(x: int, y: int)
    ensures (-x) * y == -(x * y) && x * (-y) == -(x * y) && (-x) * (-y) == x * y
  {
  }

  lemma {:induction false} PrefixBound(a: seq<i8>, b: seq<i8>)
    requires |a| == |b|
    ensures -16384 * |a| <= DotInt(a, b) <= 16384 * |a|
  {
    if a == [] {
    } else {
      var n := |a| - 1;
      PrefixBound(a[..n], b[..n]);
      ByteProduct(a[n], b[n]);
    }
  }

  /** Every partial sum fits the 32-bit accumulator, for every dimension the engine accepts and up to 131071. */
  method DotI8(a: seq<i8>, b: seq<i8>) returns (acc: i32)
    requires |a| == |b| <= 131071
    ensures acc == DotInt(a, b)
  {
    acc := 0;
    for i := 0 to |a|
      invariant acc == DotInt(a[..i], b[..i])
    {
      PrefixBound(a[..i + 1], b[..i + 1]);
      assert a[..i + 1][..i] == a[..i] && b[..i + 1][..i] == b[..i];
      acc := acc + (a[i] as int) * (b[i] as int);
    }
    assert a[..|a|] == a && b[..|b|] == b;
  }

  function Lowest(n: nat): (a: seq<i8>)
    ensures |a| == n
  {
    seq(n, _ => -128)
  }

  lemma {:induction false} LowestDot(n: nat)
    ensures DotInt(Lowest(n), Lowest(n)) == 16384 * n
  {
    if n == 0 {
    } else {
      LowestDot(n - 1);
      assert Lowest(n)[..n - 1] == Lowest(n - 1);
    }
  }

  ghost predicate AlwaysFits(n: nat) {
    forall a: seq<i8>, b: seq<i8> :: |a| == n && |b| == n ==> -0x8000_0000 <= DotInt(a, b) < 0x8000_0000
  }

  /** 131071 is the exact limit. */
  lemma AccumulatorFitsIff(n: nat)
    ensures AlwaysFits(n) <==> n <= 131071
  {
    if n <= 131071 {
      forall a: seq<i8>, b: seq<i8> | |a| == n && |b| == n ensures -0x8000_0000 <= DotInt(a, b) < 0x8000_0000 {
        PrefixBound(a, b);
      }
    } else {
      LowestDot(n);
      var a := Lowest(n);
      assert |a| == n && DotInt(a, a) >= 0x8000_0000;
    }
  }

  // ---- Error bounds ----

  lemma AbsProduct(x: real, y: real, mx: real, my: real)
    requires Abs(x) <= mx && Abs(y) <= my
    ensures Abs(x * y) <= mx * my
  {
    var ax, ay := Abs(x), Abs(y);
    AbsOfProduct(x, y);
    hide Abs;
    ProductMonotone(ax, mx, ay);
    ProductMonotone(ay, my, mx);
    assert ay * mx == mx * ay && my * mx == mx * my;
  }

  lemma AbsOfProduct(x: real, y: real)
    ensures Abs(x * y) == Abs(x) * Abs(y)
  {
    assert (-x) * y == -(x * y) == x * (-y) && (-x) * (-y) == x * y;
    if x >= 0.0 && y >= 0.0 {
      NonNegativeProduct(x, y);
    } else if x >= 0.0 {
      NonNegativeProduct(x, -y);
    } else if y >= 0.0 {
      NonNegativeProduct(-x, y);
    } else {
      NonNegativeProduct(-x, -y);
    }
  }

  /** An integer dot product in the units of the two scales. */
  function Rebuilt(d: int, st: real): real {
    (d as real) * st
  }

  /** 127 * dim * s_a * s_b */
  function DotBound(n: nat, st: real): real {
    127.0 * ((n as real) * st)
  }

  lemma HalfError(x: real, y: real, s: real, t: real)
    requires s >= 0.0 && t >= 0.0 && Abs(x) <= s / 2.0 && Abs(y) <= 127.0 * t
    ensures Abs(x * y) <= 63.5 * (s * t)
  {
    AbsProduct(x, y, s / 2.0, 127.0 * t);
    assert (s / 2.0) * (127.0 * t) == 63.5 * (s * t);
  }

  lemma AddBounds(total: real, a: real, b: real, bound: real)
    requires total == a + b && Abs(a) <= bound && Abs(b) <= bound
    ensures Abs(total) <= 2.0 * bound
  {
  }

  lemma ComponentSplit(x: real, y: real, p: int, q: int, s: real, t: real)
    ensures x * y - Rebuilt(p * q, s * t) == (x - (p as real) * s) * y + (y - (q as real) * t) * ((p as real) * s)
  {
    Decompose(x, y, p as real, q as real, s, t);
    assert (p * q) as real == (p as real) * (q as real);
  }

  lemma OneBound(st: real)
    ensures DotBound(1, st) == 2.0 * (63.5 * st)
  {
  }

  lemma ComponentBound(total: real, y: real, dx: real, dy: real, step: real, s: real, t: real)
    requires s >= 0.0 && t >= 0.0 && total == dx * y + dy * step
    requires Abs(dx) <= s / 2.0 && Abs(y) <= 127.0 * t && Abs(dy) <= t / 2.0 && Abs(step) <= 127.0 * s
    ensures Abs(total) <= DotBound(1, s * t)
  {
    hide DotBound;
    HalfError(dx, y, s, t);
    HalfError(dy, step, t, s);
    OneBound(s * t);
    Commute(s, t);
    AddBounds(total, dx * y, dy * step, 63.5 * (s * t));
  }

  /** One component of the reconstructed dot product. */
  lemma ComponentError(x: real, y: real, p: int, q: int, s: real, t: real)
    requires s >= 0.0 && t >= 0.0 && Near(p, s, x) && Near(q, t, y)
    ensures Abs(x * y - Rebuilt(p * q, s * t)) <= DotBound(1, s * t)
  {
    hide Rebuilt, DotBound, Abs;
    StepBound(p, s);
    ComponentSplit(x, y, p, q, s, t);
    ComponentBound(x * y - Rebuilt(p * q, s * t), y, x - (p as real) * s, y - (q as real) * t, (p as real) * s, s, t);
  }

  lemma Commute(s: real, t: real)
    ensures 63.5 * (t * s) == 63.5 * (s * t)
  {
  }

  lemma StepBound(p: int, s: real)
    requires s >= 0.0 && -127 <= p <= 127
    ensures Abs((p as real) * s) <= 127.0 * s
  {
    ProductMonotone(p as real, 127.0, s);
    ProductMonotone(-127.0, p as real, s);
  }

  lemma Decompose(x: real, y: real, p: real, q: real, s: real, t: real)
    ensures x * y - (p * q) * (s * t) == (x - p * s) * y + (p * s) * (y - q * t)
  {
    assert (x - p * s) * y == x * y - (p * s) * y;
    assert (p * s) * (y - q * t) == (p * s) * y - (p * s) * (q * t);
    assert (p * s) * (q * t) == (p * q) * (s * t);
  }

  lemma LastComponent(p: seq<int>, s: real, v: seq<real>)
    requires v != [] && Represents(p, s, v)
    ensures |p| == |v| && s >= 0.0 && Represents(p[..|p| - 1], s, v[..|v| - 1]) && Near(p[|p| - 1], s, v[|v| - 1])
  {
  }

  lemma DotIntLast(p: seq<int>, q: seq<int>)
    requires |p| == |q| && p != []
    ensures var n := |p| - 1; DotInt(p, q) == DotInt(p[..n], q[..n]) + p[n] * q[n]
  {
  }

  /** The reconstructed dot product is off by at most 127 * dim * s_a * s_b. */
  lemma {:induction false} DotError(v: seq<real>, w: seq<real>, p: seq<int>, q: seq<int>, s: real, t: real)
    requires |v| == |w| == |p| == |q| && Represents(p, s, v) && Represents(q, t, w)
    ensures Abs(Dot(v, w) - Rebuilt(DotInt(p, q), s * t)) <= DotBound(|v|, s * t)
  {
    hide Represents, Near, Rebuilt, DotBound;
    if v == [] {
      ZeroError(s * t);
    } else {
      var n, st := |v| - 1, s * t;
      LastComponent(p, s, v);
      LastComponent(q, t, w);
      DotError(v[..n], w[..n], p[..n], q[..n], s, t);
      ComponentError(v[n], w[n], p[n], q[n], s, t);
      var a, b, c, d := Dot(v[..n], w[..n]), v[n] * w[n], DotInt(p[..n], q[..n]), p[n] * q[n];
      AddErrors(a, b, c, d, st, n);
      DotLast(v, w);
      DotIntLast(p, q);
      assert Dot(v, w) == a + b && DotInt(p, q) == c + d;
    }
  }

  lemma ZeroError(st: real)
    ensures Abs(0.0 - Rebuilt(0, st)) <= DotBound(0, st)
  {
  }

  lemma AddErrors(a: real, b: real, c: int, d: int, st: real, n: nat)
    requires Abs(a - Rebuilt(c, st)) <= DotBound(n, st) && Abs(b - Rebuilt(d, st)) <= DotBound(1, st)
    ensures Abs((a + b) - Rebuilt(c + d, st)) <= DotBound(n + 1, st)
  {
    assert Rebuilt(c + d, st) == Rebuilt(c, st) + Rebuilt(d, st);
    assert ((n + 1) as real) * st == (n as real) * st + st;
    assert DotBound(n + 1, st) == DotBound(n, st) + DotBound(1, st);
  }

  // ---- Scores ----

  /** What EuclideanSqI8Chunk writes for a row. */
  function ScoreI8(d: int, s: real, t: real, rn: real, qn: real): real {
    var sq := rn * rn + qn * qn - 2.0 * ((d as real) * s * t);
    if sq < 0.0 then 0.0 else sq
  }

  lemma ScoreInUnits(d: int, s: real, t: real, rn: real, qn: real)
    ensures ScoreI8(d, s, t, rn, qn) == (var sq := rn * rn + qn * qn - 2.0 * Rebuilt(d, s * t); if sq < 0.0 then 0.0 else sq)
  {
    assert (d as real) * s * t == (d as real) * (s * t);
  }

  /** Clamping at zero never moves a score away from a distance. */
  lemma ClampHelps(sq: real, truth: real, e: real)
    requires Abs(sq - truth) <= e && truth >= 0.0
    ensures Abs((if sq < 0.0 then 0.0 else sq) - truth) <= e
  {
  }

  lemma ScoreGap(rebuilt: real, dot: real, bound: real, rr: real, qq: real, truth: real)
    requires Abs(dot - rebuilt) <= bound && truth == rr + qq - 2.0 * dot
    ensures Abs((rr + qq - 2.0 * rebuilt) - truth) <= 2.0 * bound
  {
  }

  /** A row's score is within 254 * dim * s * s_q of its true squared distance. */
  lemma ScoreError(v: seq<real>, w: seq<real>, p: seq<int>, q: seq<int>, s: real, t: real, rn: real, qn: real)
    requires |v| == |w| == |p| == |q| && Represents(p, s, v) && Represents(q, t, w) && NormOf(rn, v) && NormOf(qn, w)
    ensures Abs(ScoreI8(DotInt(p, q), s, t, rn, qn) - DistanceSq(v, w)) <= 2.0 * DotBound(|v|, s * t)
  {
    hide Represents, Dot, DotInt, DistanceSq, Rebuilt, DotBound, ScoreI8;
    DotError(v, w, p, q, s, t);
    NormIdentity(v, w);
    DistanceNonNegative(v, w);
    ScoreInUnits(DotInt(p, q), s, t, rn, qn);
    ScoreGap(Rebuilt(DotInt(p, q), s * t), Dot(v, w), DotBound(|v|, s * t), rn * rn, qn * qn, DistanceSq(v, w));
    ClampHelps(rn * rn + qn * qn - 2.0 * Rebuilt(DotInt(p, q), s * t), DistanceSq(v, w), 2.0 * DotBound(|v|, s * t));
  }

  /** One stored row: what was appended and what is kept of it. */
  datatype QuantRow = QuantRow(v: seq<real>, p: seq<int>, s: real, rn: real)

  ghost predicate Faithful(r: QuantRow, dim: nat) {
    |r.v| == dim && |r.p| == dim && Represents(r.p, r.s, r.v) && NormOf(r.rn, r.v)
  }

  /** 254 * dim * s * s_q */
  function RowError(r: QuantRow, dim: nat, t: real): real {
    2.0 * DotBound(dim, r.s * t)
  }

  function ScoresI8(rows: seq<QuantRow>, q: seq<int>, t: real, qn: real): (scores: seq<real>)
    requires forall i :: 0 <= i < |rows| ==> |rows[i].p| == |q|
    ensures |scores| == |rows|
  {
    seq(|rows|, i requires 0 <= i < |rows| => ScoreI8(DotInt(rows[i].p, q), rows[i].s, t, rows[i].rn, qn))
  }

  /** The row an INT8 nearest-neighbour query puts first is as close as any other row, up to the two rows' error bounds. */
  lemma NearestIsNearOptimal(rows: seq<QuantRow>, w: seq<real>, q: seq<int>, t: real, qn: real, best: seq<Scored>, take: nat, j: nat)
    requires |q| == |w| && Represents(q, t, w) && NormOf(qn, w)
    requires forall i :: 0 <= i < |rows| ==> |rows[i].v| == |w| && |rows[i].p| == |w| && Faithful(rows[i], |w|)
    requires 0 < take && j < |rows| && Answers(best, ScoresI8(rows, q, t, qn), take, false)
    ensures best[0].at < |rows|
    ensures DistanceSq(rows[best[0].at].v, w)
         <= DistanceSq(rows[j].v, w) + RowError(rows[best[0].at], |w|, t) + RowError(rows[j], |w|, t)
  {
    hide Represents, NormOf, Answers, DistanceSq, DotInt, ScoreI8;
    var scores := ScoresI8(rows, q, t, qn);
    FirstIsLeast(best, scores, take, j);
    RowScore(rows, w, q, t, qn, best[0].at);
    RowScore(rows, w, q, t, qn, j);
  }

  lemma RowScore(rows: seq<QuantRow>, w: seq<real>, q: seq<int>, t: real, qn: real, i: nat)
    requires |q| == |w| && Represents(q, t, w) && NormOf(qn, w) && i < |rows|
    requires forall k :: 0 <= k < |rows| ==> |rows[k].v| == |w| && |rows[k].p| == |w| && Faithful(rows[k], |w|)
    ensures Abs(ScoresI8(rows, q, t, qn)[i] - DistanceSq(rows[i].v, w)) <= RowError(rows[i], |w|, t)
  {
    hide Represents, NormOf, Abs, DistanceSq, DotInt, ScoreI8;
    ScoreError(rows[i].v, w, rows[i].p, q, rows[i].s, t, rows[i].rn, qn);
  }

  /** The first answer to a distance query has the least score of all. */
  lemma FirstIsLeast(best: seq<Scored>, scores: seq<real>, take: nat, j: nat)
    requires Answers(best, scores, take, false) && 0 < take && j < |scores|
    ensures |best| > 0 && best[0].at < |scores| && best[0].score == scores[best[0].at] <= scores[j]
  {
    if exists k :: 0 <= k < |best| && best[k].at == j {
      var k :| 0 <= k < |best| && best[k].at == j;
      assert k > 0 ==> !Better(false, best[k].score, best[0].score);
    } else {
      assert !Better(false, scores[j], best[0].score);
    }
  }

  // ---- The kernels over a chunk of rows ----

  /** EuclideanSqI8Chunk */
  method EuclideanSqI8Chunk(vecs: seq<i8>, scales: seq<real>, norms: seq<real>, count: nat, dim: nat,
                            q: seq<i8>, qScale: real, qn: real, out: array<real>)
    requires count * dim <= |vecs| && count <= |scales| && count <= |norms| && |q| == dim <= 131071 && count <= out.Length
    modifies out
    ensures forall i :: 0 <= i < count ==> out[i] == ScoreI8(DotInt(Row(vecs, dim, count, i), q), scales[i], qScale, norms[i], qn)
    ensures forall i :: count <= i < out.Length ==> out[i] == old(out[i])
  {
    var qn2 := qn * qn;
    for i := 0 to count
      invariant forall k :: 0 <= k < i ==> out[k] == ScoreI8(DotInt(Row(vecs, dim, count, k), q), scales[k], qScale, norms[k], qn)
      invariant forall k :: i <= k < out.Length ==> out[k] == old(out[k])
    {
      var d := DotI8(Row(vecs, dim, count, i), q);
      var sq := norms[i] * norms[i] + qn2 - 2.0 * ((d as real) * scales[i] * qScale);
      if sq < 0.0 {
        sq := 0.0;
      }
      out[i] := sq;
    }
  }

  /** What CosineI8Chunk writes for a row: zero norms and zero scales give 0. */
  function CosineScoreI8(d: int, s: real, t: real, rn: real, qn: real): real {
    if qn <= 0.0 || t <= 0.0 || rn <= 0.0 || s <= 0.0 then 0.0
    else ((d as real) * s * t) * ((1.0 / qn) / rn)
  }

  /** CosineI8Chunk */
  method CosineI8Chunk(vecs: seq<i8>, scales: seq<real>, norms: seq<real>, count: nat, dim: nat,
                       q: seq<i8>, qScale: real, qn: real, out: array<real>)
    requires count * dim <= |vecs| && count <= |scales| && count <= |norms| && |q| == dim <= 131071 && count <= out.Length
    modifies out
    ensures forall i :: 0 <= i < count ==> out[i] == CosineScoreI8(DotInt(Row(vecs, dim, count, i), q), scales[i], qScale, norms[i], qn)
    ensures forall i :: count <= i < out.Length ==> out[i] == old(out[i])
  {
    if qn <= 0.0 || qScale <= 0.0 {
      for i := 0 to count
        invariant forall k :: 0 <= k < i ==> out[k] == 0.0
        invariant forall k :: i <= k < out.Length ==> out[k] == old(out[k])
      {
        out[i] := 0.0;
      }
      return;
    }
    var inv := 1.0 / qn;
    for i := 0 to count
      invariant forall k :: 0 <= k < i ==> out[k] == CosineScoreI8(DotInt(Row(vecs, dim, count, k), q), scales[k], qScale, norms[k], qn)
      invariant forall k :: i <= k < out.Length ==> out[k] == old(out[k])
    {
      if norms[i] <= 0.0 || scales[i] <= 0.0 {
        out[i] := 0.0;
      } else {
        var d := DotI8(Row(vecs, dim, count, i), q);
        out[i] := ((d as real) * scales[i] * qScale) * (inv / norms[i]);
      }
    }
  }

  lemma ScaledGap(x: real, y: real, e: real, k: real)
    requires Abs(x - y) <= e && k > 0.0
    ensures Abs(x * k - y * k) <= e * k
  {
    ProductMonotone(x - y, e, k);
    ProductMonotone(-e, x - y, k);
    Distribute(x, y, k);
  }

  lemma InverseProduct(x: real, rn: real, qn: real)
    requires rn > 0.0 && qn > 0.0
    ensures rn * qn > 0.0 && (1.0 / qn) / rn > 0.0 && x * ((1.0 / qn) / rn) == x / (rn * qn)
  {
    PositiveProduct(rn, qn);
    PositiveQuotient(1.0, qn);
    PositiveQuotient(1.0 / qn, rn);
    var k, m := (1.0 / qn) / rn, rn * qn;
    assert k * rn == 1.0 / qn;
    assert (1.0 / qn) * qn == 1.0;
    assert k * m == (k * rn) * qn == 1.0;
    assert (x / m) * m == x;
    assert x * k == ((x / m) * m) * k == (x / m) * (m * k);
  }

  /** For non-degenerate rows a cosine score is off by at most 127 * dim * s * s_q over the product of the norms. */
  lemma CosineError(v: seq<real>, w: seq<real>, p: seq<int>, q: seq<int>, s: real, t: real, rn: real, qn: real)
    requires |v| == |w| == |p| == |q| && Represents(p, s, v) && Represents(q, t, w)
    requires rn > 0.0 && qn > 0.0 && s > 0.0 && t > 0.0
    ensures Abs(CosineOf(v, rn, w, qn) - CosineScoreI8(DotInt(p, q), s, t, rn, qn)) <= DotBound(|v|, s * t) * ((1.0 / qn) / rn)
  {
    hide Represents, Dot, DotInt, DotBound, Rebuilt, CosineScoreI8;
    var d, k := DotInt(p, q), (1.0 / qn) / rn;
    DotError(v, w, p, q, s, t);
    InverseProduct(Dot(v, w), rn, qn);
    CosineInUnits(d, s, t, rn, qn);
    ScaledGap(Dot(v, w), Rebuilt(d, s * t), DotBound(|v|, s * t), k);
  }

  lemma CosineInUnits(d: int, s: real, t: real, rn: real, qn: real)
    requires rn > 0.0 && qn > 0.0 && s > 0.0 && t > 0.0
    ensures CosineScoreI8(d, s, t, rn, qn) == Rebuilt(d, s * t) * ((1.0 / qn) / rn)
  {
    assert (d as real) * s * t == (d as real) * (s * t);
  }
}
