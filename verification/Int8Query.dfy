/** An INT8 nearest-neighbour query from quantized appends to the first reported entry. */
module Int8Query {
  import opened Bytes
  import opened Wrappers
  import opened Errors
  import opened BlockCodec
  import opened SensorRing
  import opened TopK
  import opened Query
  import opened Kernels
  import opened Int8Kernels

  // ---- Stored bytes as signed numbers ----

  function SignedBytes(b: bytes): (q: seq<i8>)
    ensures |q| == |b|
  {
    seq(|b|, i requires 0 <= i < |b| => if b[i] < 128 then b[i] else b[i] as int - 256)
  }

  function RawBytes(q: seq<i8>): (b: bytes)
    ensures |b| == |q|
  {
    seq(|q|, i requires 0 <= i < |q| => if q[i] >= 0 then q[i] else q[i] as int + 256)
  }

  lemma RawBytesRoundTrip(q: seq<i8>)
    ensures SignedBytes(RawBytes(q)) == q
  {
  }

  // ---- Appending ----

  /** The entry holds a faithful quantization of v; value reads a stored float. */
  ghost predicate StoredAs(e: Entry, v: seq<real>, value: u32 -> real) {
    && |e.rec.vec| == |v|
    && Represents(SignedBytes(e.rec.vec), value(e.rec.scale), v)
    && NormOf(value(e.norm), v)
  }

  method QuantizeToBytes(v: seq<real>) returns (vec: bytes, scale: real)
    ensures |vec| == |v| && scale == MaxAbs(v) / 127.0 && Represents(SignedBytes(vec), scale, v)
  {
    var q := new i8[|v|];
    scale := QuantizeF32ToI8(v, q);
    assert q[..|v|] == q[..];
    RawBytesRoundTrip(q[..]);
    vec := RawBytes(q[..]);
  }

  /** The INT8 branch of Append: quantize, then store bytes, norm and scale. The two floats written here are taken as exact. */
  method AppendQuantized(ring: SensorRing, ts: i64, v: seq<real>, norm: real, payload: Option<bytes>, value: u32 -> real, encode: real -> u32)
    requires ring.Valid() && ring.schema.dtype == Int8 && |v| == ring.schema.dim
    requires payload.Some? && ring.schema.payloadSize > 0 ==> |payload.value| == ring.schema.payloadSize
    requires NormOf(norm, v) && value(encode(norm)) == norm && value(encode(MaxAbs(v) / 127.0)) == MaxAbs(v) / 127.0
    modifies ring, ring.Arrays
    ensures ring.Valid() && |ring.history| == |old(ring.history)| + 1 && old(ring.history) <= ring.history
    ensures ring.history[|ring.history| - 1].rec.ts == ts && StoredAs(ring.history[|ring.history| - 1], v, value)
    ensures ring.schema.payloadSize > 0 && payload.Some? ==> ring.history[|ring.history| - 1].rec.payload == payload.value
    ensures payload.None? && |old(ring.history)| >= ring.capacity ==>
              ring.history[|ring.history| - 1].rec.payload == old(ring.history[ring.head - ring.capacity].rec.payload)
  {
    hide Represents, NormOf, MaxAbs, HoldsNewest;
    var vec, scale := QuantizeToBytes(v);
    ghost var stored := ring.Stored(ts, vec, encode(norm), payload, encode(scale));
    if payload.None? && ring.head >= ring.capacity {
      ring.StalePayload(ts, vec, encode(norm), encode(scale));
    }
    ring.Append(ts, vec, encode(norm), payload, encode(scale));
    assert ring.history[|ring.history| - 1] == stored;
  }

  // ---- Querying ----

  /** The score EuclideanSqI8Chunk computes, for one entry of the ring. */
  function EntryScore(e: Entry, q: seq<i8>, t: real, qn: real, value: u32 -> real): real {
    if |e.rec.vec| == |q| then ScoreI8(DotInt(SignedBytes(e.rec.vec), q), value(e.rec.scale), t, value(e.norm), qn) else 0.0
  }

  ghost function RowOf(e: Entry, v: seq<real>, value: u32 -> real): QuantRow {
    QuantRow(v, SignedBytes(e.rec.vec), value(e.rec.scale), value(e.norm))
  }

  ghost function RowsOf(w: seq<Entry>, vs: seq<seq<real>>, value: u32 -> real): (rows: seq<QuantRow>)
    requires |w| == |vs|
    ensures |rows| == |w| && forall i :: 0 <= i < |w| ==> rows[i] == RowOf(w[i], vs[i], value)
  {
    seq(|w|, i requires 0 <= i < |w| => RowOf(w[i], vs[i], value))
  }

  lemma ScoresAgree(w: seq<Entry>, vs: seq<seq<real>>, q: seq<i8>, t: real, qn: real, value: u32 -> real, score: Entry -> real)
    requires |w| == |vs| && forall i :: 0 <= i < |w| ==> |w[i].rec.vec| == |q|
    requires forall e :: score(e) == EntryScore(e, q, t, qn, value)
    ensures ScoresOf(w, score) == ScoresI8(RowsOf(w, vs, value), q, t, qn)
  {
  }

  /** 254 * dim * s * s_q */
  function EntryError(e: Entry, value: u32 -> real, dim: nat, t: real): real {
    2.0 * DotBound(dim, value(e.rec.scale) * t)
  }

  /** No entry is closer than the first reported one by more than the two entries' error bounds. */
  ghost predicate NearlyNearest(w: seq<Entry>, vs: seq<seq<real>>, target: seq<real>, t: real, value: u32 -> real, first: nat)
    requires |w| == |vs| && forall i :: 0 <= i < |vs| ==> |vs[i]| == |target|
  {
    first < |w| && forall j :: 0 <= j < |w| ==>
      DistanceSq(vs[first], target) <= DistanceSq(vs[j], target)
        + EntryError(w[first], value, |target|, t) + EntryError(w[j], value, |target|, t)
  }

  lemma RowsAreFaithful(w: seq<Entry>, vs: seq<seq<real>>, target: seq<real>, value: u32 -> real)
    requires |w| == |vs| && forall i :: 0 <= i < |w| ==> |vs[i]| == |target| && StoredAs(w[i], vs[i], value)
    ensures var rows := RowsOf(w, vs, value);
      forall i :: 0 <= i < |rows| ==> |rows[i].v| == |target| && |rows[i].p| == |target| && Faithful(rows[i], |target|)
  {
    hide Represents, NormOf;
  }

  lemma ErrorOf(e: Entry, v: seq<real>, value: u32 -> real, dim: nat, t: real)
    ensures RowError(RowOf(e, v, value), dim, t) == EntryError(e, value, dim, t)
  {
  }

  lemma BestIsNearlyNearest(w: seq<Entry>, vs: seq<seq<real>>, target: seq<real>, q: seq<i8>, t: real, qn: real, value: u32 -> real,
                            score: Entry -> real, best: seq<Scored>, take: nat)
    requires |w| == |vs| && |q| == |target| && Represents(q, t, target) && NormOf(qn, target)
    requires forall i :: 0 <= i < |w| ==> |vs[i]| == |target| && StoredAs(w[i], vs[i], value)
    requires forall e :: score(e) == EntryScore(e, q, t, qn, value)
    requires 0 < take && w != [] && Answers(best, ScoresOf(w, score), take, false)
    ensures best != [] && NearlyNearest(w, vs, target, t, value, best[0].at)
  {
    hide Represents, NormOf, Answers, DistanceSq, EntryError, RowError, EntryScore, ScoresOf, ScoresI8;
    var rows := RowsOf(w, vs, value);
    ScoresAgree(w, vs, q, t, qn, value, score);
    FirstIsLeast(best, ScoresOf(w, score), take, 0);
    forall j | 0 <= j < |w|
      ensures DistanceSq(vs[best[0].at], target) <= DistanceSq(vs[j], target)
                + EntryError(w[best[0].at], value, |target|, t) + EntryError(w[j], value, |target|, t)
    {
      RowsAreFaithful(w, vs, target, value);
      assert rows[j] == RowOf(w[j], vs[j], value) && rows[best[0].at] == RowOf(w[best[0].at], vs[best[0].at], value);
      ErrorOf(w[j], vs[j], value, |target|, t);
      ErrorOf(w[best[0].at], vs[best[0].at], value, |target|, t);
      NearestIsNearOptimal(rows, target, q, t, qn, best, take, j);
    }
  }

  /** QueryNearestN on an INT8 ring by distance. vs are the vectors that were appended. */
  method QueryNearestI8(ring: SensorRing, target: seq<real>, qn: real, n: nat, value: u32 -> real, outTs: array<i64>, outScores: array<real>,
                        ghost vs: seq<seq<real>>)
    returns (rc: Error, count: nat, ghost first: nat)
    requires ring.Valid() && outTs !in ring.Arrays && outScores !in ring.Arrays
    requires n > 0 && outTs.Length >= n && outScores.Length >= n && NormOf(qn, target)
    requires ring.Window() != [] && |vs| == |ring.Window()|
    requires forall i :: 0 <= i < |vs| ==> |vs[i]| == |target| && StoredAs(ring.Window()[i], vs[i], value)
    modifies outTs, outScores
    ensures count == if n < |ring.Window()| then n else |ring.Window()|
    ensures (rc == PartialResult <==> |ring.Window()| < n) && (rc == OK <==> |ring.Window()| >= n)
    ensures forall i, j :: 0 <= i < j < count ==> outScores[i] <= outScores[j]
    ensures count > 0 && first < |ring.Window()| && outTs[0] == ring.Window()[first].rec.ts
    ensures NearlyNearest(ring.Window(), vs, target, MaxAbs(target) / 127.0, value, first)
  {
    hide Represents, NormOf, DistanceSq, EntryError, StoredAs, EntryScore, HoldsNewest;
    ghost var w := ring.Window();
    var buffer := new i8[|target|];
    var t := QuantizeF32ToI8(target, buffer);
    var q := buffer[..];
    assert buffer[..|target|] == q;
    var score := (e: Entry) => EntryScore(e, q, t, qn, value);
    ghost var best;
    rc, count, best := QueryNearestN(ring, n, score, false, outTs, outScores);
    BestIsNearlyNearest(w, vs, target, q, t, qn, value, score, best, count);
    first := best[0].at;
    assert outTs[..count][0] == outTs[0];
  }

  // ---- The same over a chunk of rows in memory ----

  ghost predicate ChunkHolds(vecs: seq<i8>, scales: seq<real>, norms: seq<real>, count: nat, dim: nat, vs: seq<seq<real>>) {
    && count * dim <= |vecs| && count <= |scales| && count <= |norms| && count == |vs|
    && forall i :: 0 <= i < count ==> |vs[i]| == dim && Represents(Row(vecs, dim, count, i), scales[i], vs[i]) && NormOf(norms[i], vs[i])
  }

  ghost function ChunkRows(vecs: seq<i8>, scales: seq<real>, norms: seq<real>, count: nat, dim: nat, vs: seq<seq<real>>): (rows: seq<QuantRow>)
    requires ChunkHolds(vecs, scales, norms, count, dim, vs)
    ensures |rows| == count
    ensures forall i :: 0 <= i < count ==> rows[i] == QuantRow(vs[i], Row(vecs, dim, count, i), scales[i], norms[i])
  {
    seq(count, i requires 0 <= i < count => QuantRow(vs[i], Row(vecs, dim, count, i), scales[i], norms[i]))
  }

  lemma ChunkIsScores(rows: seq<QuantRow>, vecs: seq<i8>, scales: seq<real>, norms: seq<real>, count: nat, dim: nat, vs: seq<seq<real>>,
                      q: seq<i8>, t: real, qn: real, scores: seq<real>)
    requires ChunkHolds(vecs, scales, norms, count, dim, vs) && rows == ChunkRows(vecs, scales, norms, count, dim, vs)
    requires |q| == dim && |scores| == count
    requires forall i :: 0 <= i < count ==> scores[i] == ScoreI8(DotInt(Row(vecs, dim, count, i), q), scales[i], t, norms[i], qn)
    ensures forall i :: 0 <= i < |rows| ==> |rows[i].v| == dim && |rows[i].p| == dim && Faithful(rows[i], dim)
    ensures scores == ScoresI8(rows, q, t, qn)
  {
    hide Represents, NormOf, DotInt, ScoreI8;
  }

  /** The row with the least score in the buffer EuclideanSqI8Chunk fills is nearly the nearest. */
  method NearestInChunk(vecs: seq<i8>, scales: seq<real>, norms: seq<real>, count: nat, dim: nat, target: seq<real>, qn: real,
                        ghost vs: seq<seq<real>>)
    returns (at: nat, ghost rows: seq<QuantRow>)
    requires ChunkHolds(vecs, scales, norms, count, dim, vs) && count > 0
    requires |target| == dim <= 131071 && NormOf(qn, target)
    ensures at < count && rows == ChunkRows(vecs, scales, norms, count, dim, vs)
    ensures forall j :: 0 <= j < count ==>
              DistanceSq(vs[at], target) <= DistanceSq(vs[j], target)
                + RowError(rows[at], dim, MaxAbs(target) / 127.0) + RowError(rows[j], dim, MaxAbs(target) / 127.0)
  {
    hide Represents, NormOf, DotInt, ScoreI8, DistanceSq, RowError, Answers, MaxAbs, ScoresI8;
    rows := ChunkRows(vecs, scales, norms, count, dim, vs);
    var buffer := new i8[dim];
    var t := QuantizeF32ToI8(target, buffer);
    var q := buffer[..];
    assert buffer[..dim] == q;
    var out := new real[count];
    EuclideanSqI8Chunk(vecs, scales, norms, count, dim, q, t, qn, out);
    var scores := out[..];
    ChunkIsScores(rows, vecs, scales, norms, count, dim, vs, q, t, qn, scores);
    var best := Best(scores, 1, false);
    FirstIsLeast(best, scores, 1, 0);
    at := best[0].at;
    forall j | 0 <= j < count
      ensures DistanceSq(vs[at], target) <= DistanceSq(vs[j], target) + RowError(rows[at], dim, t) + RowError(rows[j], dim, t)
    {
      assert rows[j].v == vs[j] && rows[at].v == vs[at];
      NearestIsNearOptimal(rows, target, q, t, qn, best, 1, j);
    }
  }
}
