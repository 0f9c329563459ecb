/** DetectAnomaly: how far a vector lies from the mean of the window. */
module Anomaly {
  import opened Errors
  import opened SensorRing
  import opened Query
  import opened Kernels

  function MeanOf(w: seq<Entry>, component: (Entry, nat) -> real, dim: nat): (m: seq<real>)
    requires w != []
    ensures |m| == dim
  {
    seq(dim, j requires 0 <= j < dim => SumAt(w, component, j) / (|w| as real))
  }

  lemma OnlyRow(vecs: seq<real>, dim: nat)
    requires |vecs| == dim
    ensures 1 * dim <= |vecs| && Row(vecs, dim, 1, 0) == vecs
  {
  }

  /** The chunk kernels applied to a single row. */
  method DistanceFrom(mean: seq<real>, v: seq<real>, cosine: bool, root: real -> real) returns (distance: real)
    requires |mean| == |v|
    ensures distance == AnomalyDistance(mean, v, cosine, root)
  {
    var mm := DotProduct(mean, mean);
    var vv := DotProduct(v, v);
    var out := new real[1];
    OnlyRow(mean, |v|);
    if cosine {
      CosineF32Chunk(mean, [root(mm)], 1, |v|, v, root(vv), out);
      distance := 1.0 - out[0];
    } else {
      EuclideanSqF32Chunk(mean, [root(mm)], 1, |v|, v, root(vv), out);
      distance := root(if out[0] < 0.0 then 0.0 else out[0]);
    }
  }

  /** DetectAnomaly on a ring of floats; component reads one float of a stored row. An empty window has no anomalies. */
  method DetectAnomaly(ring: SensorRing?, v: seq<real>, threshold: real, cosine: bool, component: (Entry, nat) -> real, root: real -> real)
    returns (rc: Error, anomaly: bool)
    requires ring != null ==> ring.Valid()
    ensures rc == OK
    ensures ring == null || ring.Window() == [] ==> !anomaly
    ensures ring != null && ring.Window() != [] ==>
              (anomaly <==> AnomalyDistance(MeanOf(ring.Window(), component, |v|), v, cosine, root) > threshold)
  {
    if ring == null {
      return OK, false;
    }
    var begin, end := ring.Snapshot();
    if begin == end {
      return OK, false;
    }
    var sum := WindowMean(ring, begin, end, |v|, component);
    ghost var w := ring.Window();
    assert w == ring.history[begin..end] && |w| == end - begin;
    assert sum[..] == MeanOf(w, component, |v|);
    var distance := DistanceFrom(sum[..], v, cosine, root);
    return OK, distance > threshold;
  }
}
