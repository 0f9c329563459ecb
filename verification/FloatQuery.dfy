/** Nearest-neighbour queries on a ring of floats, from the stored rows and norms to true distances and cosines. */
module FloatQuery {
  import opened Bytes
  import opened Errors
  import opened SensorRing
  import opened TopK
  import opened Query
  import opened Kernels

  /** The score the float kernels compute for one entry. floats reads a stored row, value a stored norm. */
  function EntryScore(e: Entry, target: seq<real>, qn: real, cosine: bool, floats: Entry -> seq<real>, value: u32 -> real): real {
    if |floats(e)| != |target| then 0.0
    else if cosine then CosineOf(floats(e), value(e.norm), target, qn)
    else ClampedIdentity(floats(e), value(e.norm), target, qn)
  }

  /** Every row has the query's dimension and its exact norm beside it. */
  ghost predicate Normed(w: seq<Entry>, dim: nat, floats: Entry -> seq<real>, value: u32 -> real) {
    forall i :: 0 <= i < |w| ==> |floats(w[i])| == dim && NormOf(value(w[i].norm), floats(w[i]))
  }

  lemma ScoreIsDistance(w: seq<Entry>, i: nat, target: seq<real>, qn: real, floats: Entry -> seq<real>, value: u32 -> real)
    requires Normed(w, |target|, floats, value) && NormOf(qn, target) && i < |w|
    ensures EntryScore(w[i], target, qn, false, floats, value) == DistanceSq(floats(w[i]), target)
  {
    hide NormOf;
    FastIsDirect(floats(w[i]), value(w[i].norm), target, qn);
  }

  /** By distance: the reported entries are the nearest ones, nearest first, with their true squared distances. */
  method QueryNearest(ring: SensorRing, target: seq<real>, qn: real, n: nat, floats: Entry -> seq<real>, value: u32 -> real,
                      outTs: array<i64>, outScores: array<real>)
    returns (rc: Error, count: nat, ghost at: seq<nat>)
    requires ring.Valid() && outTs !in ring.Arrays && outScores !in ring.Arrays
    requires n > 0 && outTs.Length >= n && outScores.Length >= n
    requires Normed(ring.Window(), |target|, floats, value) && NormOf(qn, target)
    modifies outTs, outScores
    ensures var w := ring.Window();
      && count == |at| == (if n < |w| then n else |w|) && (rc == OK <==> |w| >= n)
      && (forall i :: 0 <= i < count ==> at[i] < |w| && outTs[i] == w[at[i]].rec.ts && outScores[i] == DistanceSq(floats(w[at[i]]), target))
      && (forall i, j :: 0 <= i < j < count ==> at[i] != at[j] && outScores[i] <= outScores[j])
      && (forall k, i :: 0 <= k < |w| && k !in at && 0 <= i < count ==> outScores[i] <= DistanceSq(floats(w[k]), target))
  {
    hide Answers, Reports, HoldsNewest, EntryScore, NormOf, DistanceSq, SensorRing.Allocated;
    ghost var w := ring.Window();
    var score := (e: Entry) => EntryScore(e, target, qn, false, floats, value);
    ghost var best;
    rc, count, best := QueryNearestN(ring, n, score, false, outTs, outScores);
    at := seq(|best|, i requires 0 <= i < |best| => best[i].at);
    AnswerPositions(best, ScoresOf(w, score), count, false);
    forall k | 0 <= k < |w| ensures score(w[k]) == DistanceSq(floats(w[k]), target) {
      ScoreIsDistance(w, k, target, qn, floats, value);
    }
    forall k, i | 0 <= k < |w| && k !in at && 0 <= i < count ensures outScores[i] <= DistanceSq(floats(w[k]), target) {
      assert forall j :: 0 <= j < count ==> at[j] == best[j].at && at[j] in at;
    }
  }

  lemma AnswerPositions(best: seq<Scored>, scores: seq<real>, take: nat, cosine: bool)
    requires Answers(best, scores, take, cosine)
    ensures |best| == take && forall i :: 0 <= i < take ==> best[i].at < |scores|
    ensures forall i, j :: 0 <= i < j < take ==> best[i].at != best[j].at
  {
  }

  /** By cosine: the reported entries are the most similar ones, most similar first, and every score is a cosine. */
  method QueryMostSimilar(ring: SensorRing, target: seq<real>, qn: real, n: nat, floats: Entry -> seq<real>, value: u32 -> real,
                          outTs: array<i64>, outScores: array<real>)
    returns (rc: Error, count: nat, ghost at: seq<nat>)
    requires ring.Valid() && outTs !in ring.Arrays && outScores !in ring.Arrays
    requires n > 0 && outTs.Length >= n && outScores.Length >= n
    requires Normed(ring.Window(), |target|, floats, value) && NormOf(qn, target)
    modifies outTs, outScores
    ensures var w := ring.Window();
      && count == |at| == (if n < |w| then n else |w|) && (rc == OK <==> |w| >= n)
      && (forall i :: 0 <= i < count ==> at[i] < |w| && outTs[i] == w[at[i]].rec.ts && -1.0 <= outScores[i] <= 1.0
                                         && outScores[i] == CosineOf(floats(w[at[i]]), value(w[at[i]].norm), target, qn))
      && (forall i, j :: 0 <= i < j < count ==> at[i] != at[j] && outScores[i] >= outScores[j])
      && (forall k, i :: 0 <= k < |w| && k !in at && 0 <= i < count ==>
            outScores[i] >= CosineOf(floats(w[k]), value(w[k].norm), target, qn))
  {
    hide Answers, Reports, HoldsNewest, NormOf, CosineOf, SensorRing.Allocated;
    ghost var w := ring.Window();
    var score := (e: Entry) => EntryScore(e, target, qn, true, floats, value);
    ghost var best;
    rc, count, best := QueryNearestN(ring, n, score, true, outTs, outScores);
    at := seq(|best|, i requires 0 <= i < |best| => best[i].at);
    AnswerPositions(best, ScoresOf(w, score), count, true);
    forall k | 0 <= k < |w| ensures -1.0 <= score(w[k]) == CosineOf(floats(w[k]), value(w[k].norm), target, qn) <= 1.0 {
      CosineInRange(floats(w[k]), value(w[k].norm), target, qn);
    }
    forall k, i | 0 <= k < |w| && k !in at && 0 <= i < count ensures outScores[i] >= CosineOf(floats(w[k]), value(w[k].norm), target, qn) {
      assert forall j :: 0 <= j < count ==> at[j] == best[j].at && at[j] in at;
    }
  }
}
