/** Queries over the live window of a ring. */
module Query {
  import opened Bytes
  import opened Errors
  import opened Modular
  import opened SensorRing
  import opened TopK

  // ---- Scoring in at most two contiguous runs ----

  /** A kernel over count consecutive slots. */
  method RunChunk(ring: SensorRing, slot: nat, count: nat, score: Entry -> real, out: array<real>, at: nat)
    requires ring.Allocated() && slot + count <= ring.capacity && at + count <= out.Length && out !in ring.Arrays
    modifies out
    ensures forall k :: at <= k < at + count ==> out[k] == score(ring.EntryIn(slot + (k - at)))
    ensures forall k :: 0 <= k < out.Length && !(at <= k < at + count) ==> out[k] == old(out[k])
  {
    for i := 0 to count
      invariant forall k :: at <= k < at + i ==> out[k] == score(ring.EntryIn(slot + (k - at)))
      invariant forall k :: 0 <= k < out.Length && !(at <= k < at + i) ==> out[k] == old(out[k])
    {
      out[at + i] := score(ring.EntryIn(slot + i));
    }
  }

  /** Where the i-th of n consecutive indices lands: before the end of the arrays, or wrapped to the front. */
  lemma SplitSlots(begin: nat, capacity: nat, i: nat)
    requires capacity > 0 && i < capacity
    ensures (begin + i) % capacity
         == if begin % capacity + i < capacity then begin % capacity + i else i - (capacity - begin % capacity)
  {
    var q, r := begin / capacity, begin % capacity;
    if r + i < capacity {
      DivModUnique(begin + i, capacity, q, r + i);
    } else {
      assert (q + 1) * capacity == q * capacity + capacity;
      DivModUnique(begin + i, capacity, q + 1, r + i - capacity);
    }
  }

  /** FillScoresForRange: the two runs score logical index begin + i into output i, for every start and every length up to the capacity. */
  method FillScoresForRange(ring: SensorRing, begin: nat, n: nat, score: Entry -> real, out: array<real>)
    requires ring.Allocated() && n <= ring.capacity && n <= out.Length && out !in ring.Arrays
    modifies out
    ensures forall i :: 0 <= i < n ==> out[i] == score(ring.EntryIn(ring.Slot(begin + i)))
    ensures forall k :: n <= k < out.Length ==> out[k] == old(out[k])
  {
    var start := ring.Slot(begin);
    var first := if n < ring.capacity - start then n else ring.capacity - start;
    RunChunk(ring, start, first, score, out, 0);
    if first < n {
      RunChunk(ring, 0, n - first, score, out, first);
    }
    forall i | 0 <= i < n ensures out[i] == score(ring.EntryIn(ring.Slot(begin + i))) {
      hide SensorRing.EntryIn, SensorRing.Allocated;
      SplitSlots(begin, ring.capacity, i);
    }
  }

  function ScoresOf(w: seq<Entry>, score: Entry -> real): (s: seq<real>)
    ensures |s| == |w|
  {
    seq(|w|, i requires 0 <= i < |w| => score(w[i]))
  }

  method WindowScores(ring: SensorRing, begin: nat, end: nat, score: Entry -> real) returns (scores: seq<real>)
    requires ring.Valid() && begin <= end == ring.head <= begin + ring.capacity
    ensures scores == ScoresOf(ring.history[begin..end], score)
  {
    var n := end - begin;
    var out := new real[n];
    FillScoresForRange(ring, begin, n, score, out);
    forall i | 0 <= i < n ensures out[i] == score(ring.history[begin + i]) {
      assert ring.Slots()[ring.Slot(begin + i)] == ring.history[begin + i];
    }
    scores := out[..];
  }

  // ---- Nearest neighbours ----

  /** The answer as the caller sees it. */
  ghost predicate Reports(best: seq<Scored>, w: seq<Entry>, ts: seq<i64>, scores: seq<real>)
    requires forall i :: 0 <= i < |best| ==> best[i].at < |w|
  {
    && |ts| == |scores| == |best|
    && forall i :: 0 <= i < |best| ==> ts[i] == w[best[i].at].rec.ts && scores[i] == best[i].score
  }

  /** An answer in the caller's terms: similarities fall, distances rise, and no entry that is not reported beats one that is. */
  lemma Ranked(best: seq<Scored>, w: seq<Entry>, score: Entry -> real, take: nat, cosine: bool, ts: seq<i64>, out: seq<real>)
    requires Answers(best, ScoresOf(w, score), take, cosine) && Reports(best, w, ts, out)
    ensures |out| == |ts| == |best| == take
    ensures forall i :: 0 <= i < take ==> best[i].at < |w| && ts[i] == w[best[i].at].rec.ts && out[i] == score(w[best[i].at])
    ensures forall i, j :: 0 <= i < j < take ==> if cosine then out[i] >= out[j] else out[i] <= out[j]
    ensures forall k, i :: 0 <= k < |w| && 0 <= i < take && (forall j :: 0 <= j < take ==> best[j].at != k)
              ==> if cosine then score(w[k]) <= out[i] else score(w[k]) >= out[i]
  {
    AnswerInNumbers(best, ScoresOf(w, score), take, cosine);
    forall k, i | 0 <= k < |w| && 0 <= i < take && (forall j :: 0 <= j < take ==> best[j].at != k)
      ensures if cosine then score(w[k]) <= out[i] else score(w[k]) >= out[i]
    {
      assert ScoresOf(w, score)[k] == score(w[k]);
    }
  }

  lemma EmptyAnswer(w: seq<Entry>, score: Entry -> real, cosine: bool, ts: seq<i64>, out: seq<real>)
    requires w == [] && ts == [] && out == []
    ensures Answers([], ScoresOf(w, score), 0, cosine) && Reports([], w, ts, out)
  {
  }

  /** QueryNearestN on a sensor that exists; ring is null before its first append. */
  method QueryNearestN(ring: SensorRing?, n: nat, score: Entry -> real, cosine: bool, outTs: array<i64>, outScores: array<real>)
    returns (rc: Error, count: nat, ghost best: seq<Scored>)
    requires ring != null ==> ring.Valid() && outTs !in ring.Arrays && outScores !in ring.Arrays
    requires n > 0 && outTs.Length >= n && outScores.Length >= n
    modifies outTs, outScores
    ensures ring == null ==> rc == PartialResult && count == 0
    ensures ring != null ==>
      var w := ring.Window();
      && count == (if n < |w| then n else |w|)
      && (rc == PartialResult <==> |w| < n) && (rc == OK <==> |w| >= n)
      && Answers(best, ScoresOf(w, score), count, cosine)
      && Reports(best, w, outTs[..count], outScores[..count])
      && (forall i :: 0 <= i < count ==> outTs[i] == w[best[i].at].rec.ts && outScores[i] == score(w[best[i].at]))
      && (forall i, j :: 0 <= i < j < count ==> if cosine then outScores[i] >= outScores[j] else outScores[i] <= outScores[j])
      && (forall k, i :: 0 <= k < |w| && 0 <= i < count && (forall j :: 0 <= j < count ==> best[j].at != k)
            ==> if cosine then score(w[k]) <= outScores[i] else score(w[k]) >= outScores[i])
  {
    hide Answers, Reports, ScoresOf, HoldsNewest, SensorRing.Allocated, SensorRing.EntryIn, SensorRing.Slots;
    best := [];
    if ring == null {
      return PartialResult, 0, [];
    }
    var begin, end := ring.Snapshot();
    if begin == end {
      EmptyAnswer(ring.Window(), score, cosine, outTs[..0], outScores[..0]);
      return PartialResult, 0, [];
    }
    var scores := WindowScores(ring, begin, end, score);
    var take := if n < end - begin then n else end - begin;
    var chosen := Best(scores, take, cosine);
    best := chosen;
    Report(ring, begin, end, ring.Window(), chosen, outTs, outScores);
    Ranked(chosen, ring.Window(), score, take, cosine, outTs[..take], outScores[..take]);
    return if take < n then PartialResult else OK, take, best;
  }

  method Report(ring: SensorRing, begin: nat, end: nat, ghost w: seq<Entry>, best: seq<Scored>, outTs: array<i64>, outScores: array<real>)
    requires ring.Valid() && begin <= end == ring.head <= begin + ring.capacity && w == ring.history[begin..end]
    requires outTs !in ring.Arrays && outScores !in ring.Arrays && outTs.Length >= |best| && outScores.Length >= |best|
    requires forall i :: 0 <= i < |best| ==> best[i].at < |w|
    modifies outTs, outScores
    ensures Reports(best, w, outTs[..|best|], outScores[..|best|])
  {
    for i := 0 to |best|
      invariant forall j :: 0 <= j < i ==> outTs[j] == w[best[j].at].rec.ts && outScores[j] == best[j].score
    {
      var ts := StampIn(ring, begin, end, w, best[i].at);
      outTs[i] := ts;
      outScores[i] := best[i].score;
    }
  }

  method StampIn(ring: SensorRing, begin: nat, end: nat, ghost w: seq<Entry>, i: nat) returns (ts: i64)
    requires ring.Valid() && begin <= end == ring.head <= begin + ring.capacity && w == ring.history[begin..end]
    requires i < |w|
    ensures ts == w[i].rec.ts
  {
    ts := ring.TimestampAt(begin + i);
  }

  // ---- Range queries ----

  predicate Hit(e: Entry, from: int, to: int) {
    from <= e.rec.ts <= to
  }

  function InRange(es: seq<Entry>, from: int, to: int): seq<Entry> {
    if es == [] then []
    else
      var n := |es| - 1;
      InRange(es[..n], from, to) + (if Hit(es[n], from, to) then [es[n]] else [])
  }

  function First(es: seq<Entry>, max: nat): seq<Entry> {
    if |es| <= max then es else es[..max]
  }

  /** The oldest timestamp among these entries. */
  function Oldest(es: seq<Entry>): int
    requires es != []
  {
    var n := |es| - 1;
    if n == 0 then es[0].rec.ts
    else if es[n].rec.ts < Oldest(es[..n]) then es[n].rec.ts else Oldest(es[..n])
  }

  /** Where the scan stops: just behind the max-th hit, or at the end of the window. */
  function ScanEnd(w: seq<Entry>, from: int, to: int, max: nat): (k: nat)
    ensures k <= |w|
  {
    if w == [] then 0
    else if |InRange(w[..|w| - 1], from, to)| >= max then ScanEnd(w[..|w| - 1], from, to, max)
    else |w|
  }

  lemma InRangeNext(w: seq<Entry>, k: nat, from: int, to: int)
    requires k < |w|
    ensures InRange(w[..k + 1], from, to) == InRange(w[..k], from, to) + (if Hit(w[k], from, to) then [w[k]] else [])
  {
    assert w[..k + 1][..k] == w[..k];
  }

  lemma OldestNext(w: seq<Entry>, k: nat)
    requires 0 < k < |w|
    ensures Oldest(w[..k + 1]) == if w[k].rec.ts < Oldest(w[..k]) then w[k].rec.ts else Oldest(w[..k])
  {
    assert w[..k + 1][..k] == w[..k];
  }

  /** What is in range is every entry with from <= ts <= to and no other: the one at position k comes right behind those before k. */
  lemma {:induction false} InRangeIs(w: seq<Entry>, from: int, to: int, k: nat)
    requires k < |w|
    ensures from <= w[k].rec.ts <= to ==>
              |InRange(w[..k], from, to)| < |InRange(w, from, to)| && InRange(w, from, to)[|InRange(w[..k], from, to)|] == w[k]
    ensures forall i :: 0 <= i < |InRange(w, from, to)| ==> InRange(w, from, to)[i] in w && from <= InRange(w, from, to)[i].rec.ts <= to
    ensures multiset(InRange(w, from, to)) <= multiset(w)
  {
    InRangeNext(w, k, from, to);
    InRangePrefix(w, k + 1, from, to);
    InRangeOnly(w, from, to);
  }

  lemma {:induction false} InRangeOnly(w: seq<Entry>, from: int, to: int)
    ensures forall i :: 0 <= i < |InRange(w, from, to)| ==> InRange(w, from, to)[i] in w && from <= InRange(w, from, to)[i].rec.ts <= to
    ensures multiset(InRange(w, from, to)) <= multiset(w)
  {
    if w == [] {
    } else {
      var n := |w| - 1;
      InRangeOnly(w[..n], from, to);
      assert w == w[..n] + [w[n]];
    }
  }

  /** Going on from position k only adds to the end. */
  lemma {:induction false} InRangePrefix(w: seq<Entry>, k: nat, from: int, to: int)
    requires k <= |w|
    ensures InRange(w[..k], from, to) <= InRange(w, from, to)
    decreases |w| - k
  {
    if k < |w| {
      InRangeNext(w, k, from, to);
      InRangePrefix(w, k + 1, from, to);
    } else {
      assert w[..k] == w;
    }
  }

  /** A scan of the first k entries that ran to the end or found max of them holds the first max entries in range. */
  lemma ScanIsFirst(w: seq<Entry>, k: nat, from: int, to: int, max: nat)
    requires k <= |w| && |InRange(w[..k], from, to)| <= max
    requires k == |w| || |InRange(w[..k], from, to)| == max
    ensures InRange(w[..k], from, to) == First(InRange(w, from, to), max)
  {
    InRangePrefix(w, k, from, to);
    if k == |w| {
      assert w[..k] == w;
    }
  }

  /** A scan ends at k if and only if k entries were enough, or all there are, and one entry fewer was not. */
  lemma {:induction false} ScanEndIs(w: seq<Entry>, from: int, to: int, max: nat, k: nat)
    requires k <= |w| && max > 0
    ensures k == ScanEnd(w, from, to, max)
       <==> (k == |w| || |InRange(w[..k], from, to)| >= max) && (k > 0 ==> |InRange(w[..k - 1], from, to)| < max)
  {
    if w == [] {
      assert k == 0;
    } else {
      var n := |w| - 1;
      assert w[..|w|] == w;
      if k <= n {
        assert w[..n][..k] == w[..k];
        assert k > 0 ==> w[..n][..k - 1] == w[..k - 1];
        ScanEndIs(w[..n], from, to, max, k);
        InRangePrefix(w[..n], k, from, to);
      } else {
        assert k - 1 == n;
      }
    }
  }

  const INT64_MAX: i64 := 0x7FFF_FFFF_FFFF_FFFF

  /** The rows a range query writes. */
  ghost predicate Delivered(found: seq<Entry>, ts: seq<i64>, vecs: seq<bytes>) {
    |ts| == |vecs| == |found| && forall i :: 0 <= i < |found| ==> ts[i] == found[i].rec.ts && vecs[i] == found[i].rec.vec
  }

  /** The code QueryRange returns: the warning compares with the oldest entry that was scanned. */
  function RangeCode(w: seq<Entry>, from: int, to: int, max: nat): Error {
    if to < from then InvalidArg
    else
      var scanned := w[..ScanEnd(w, from, to, max)];
      if scanned != [] && from < Oldest(scanned) then RangeTruncated else OK
  }

  /** QueryRange over a ring of floats. */
  method QueryRange(ring: SensorRing?, from: i64, to: i64, max: nat, outTs: array<i64>, outVecs: array<bytes>)
    returns (rc: Error, count: nat)
    requires ring != null ==> ring.Valid() && outTs !in ring.Arrays && outVecs !in ring.Arrays
    requires max > 0 && outTs.Length >= max && outVecs.Length >= max
    modifies outTs, outVecs
    ensures to < from ==> rc == InvalidArg
    ensures from <= to && ring == null ==> rc == OK && count == 0
    ensures ring != null ==> rc == RangeCode(ring.Window(), from, to, max)
    ensures from <= to && ring != null ==>
      count <= max && Delivered(First(InRange(ring.Window(), from, to), max), outTs[..count], outVecs[..count])
  {
    if to < from {
      return InvalidArg, 0;
    }
    if ring == null {
      return OK, 0;
    }
    var begin, end := ring.Snapshot();
    ghost var w, scanned := ring.Window(), 0;
    var oldest;
    count, oldest, scanned := Scan(ring, begin, end, w, from, to, max, outTs, outVecs);
    ScanIsFirst(w, scanned, from, to, max);
    return if end - begin > 0 && from < oldest then RangeTruncated else OK, count;
  }

  /** The first entry's timestamp is the oldest so far, even the largest one there is. */
  lemma FirstOldest(w: seq<Entry>)
    ensures w != [] ==> Oldest(w[..1]) == w[0].rec.ts
    ensures forall from, to :: InRange(w[..0], from, to) == []
    ensures forall ts: seq<i64>, vecs: seq<bytes> :: ts == [] && vecs == [] ==> Delivered([], ts, vecs)
  {
  }

  method ScanOne(ring: SensorRing, begin: nat, end: nat, ghost w: seq<Entry>, k: nat, from: i64, to: i64, count: nat, ghost found: seq<Entry>,
                 outTs: array<i64>, outVecs: array<bytes>)
    returns (next: nat, ts: i64)
    requires ring.Valid() && begin <= end == ring.head <= begin + ring.capacity && w == ring.history[begin..end] && k < |w|
    requires outTs !in ring.Arrays && outVecs !in ring.Arrays && count < outTs.Length && count < outVecs.Length
    requires Delivered(found, outTs[..count], outVecs[..count])
    modifies outTs, outVecs
    ensures ts == w[k].rec.ts && next == (if Hit(w[k], from, to) then count + 1 else count)
    ensures Delivered(found + (if Hit(w[k], from, to) then [w[k]] else []), outTs[..next], outVecs[..next])
  {
    ts := StampIn(ring, begin, end, w, k);
    next := count;
    if from <= ts <= to {
      var vec := VectorIn(ring, begin, end, w, k);
      outTs[count] := ts;
      outVecs[count] := vec;
      next := count + 1;
    } else {
      assert found + [] == found;
    }
  }

  method Scan(ring: SensorRing, begin: nat, end: nat, ghost w: seq<Entry>, from: i64, to: i64, max: nat, outTs: array<i64>, outVecs: array<bytes>)
    returns (count: nat, oldest: i64, ghost scanned: nat)
    requires ring.Valid() && begin <= end == ring.head <= begin + ring.capacity && w == ring.history[begin..end] && |w| == end - begin
    requires outTs !in ring.Arrays && outVecs !in ring.Arrays && max > 0 && outTs.Length >= max && outVecs.Length >= max
    modifies outTs, outVecs
    ensures scanned == ScanEnd(w, from, to, max) && (scanned == |w| || count == max) && (w != [] ==> scanned > 0)
    ensures count <= max && Delivered(InRange(w[..scanned], from, to), outTs[..count], outVecs[..count])
    ensures w != [] ==> oldest == Oldest(w[..scanned])
  {
    hide SensorRing.Valid, InRange, Oldest, Delivered, ScanEnd;
    FirstOldest(w);
    count, oldest := 0, INT64_MAX;
    var idx := begin;
    while idx < end && count < max
      invariant begin <= idx <= end && count <= max
      invariant idx == begin ==> oldest == INT64_MAX && count == 0
      invariant idx > begin ==> |InRange(w[..idx - begin - 1], from, to)| < max
      invariant count == |InRange(w[..idx - begin], from, to)|
      invariant idx > begin ==> oldest == Oldest(w[..idx - begin])
      invariant Delivered(InRange(w[..idx - begin], from, to), outTs[..count], outVecs[..count])
    {
      ghost var k := idx - begin;
      var ts;
      count, ts := ScanOne(ring, begin, end, w, idx - begin, from, to, count, InRange(w[..k], from, to), outTs, outVecs);
      InRangeNext(w, k, from, to);
      if k > 0 {
        OldestNext(w, k);
      }
      if ts < oldest {
        oldest := ts;
      }
      idx := idx + 1;
    }
    scanned := idx - begin;
    ScanEndIs(w, from, to, max, scanned);
  }

  method VectorIn(ring: SensorRing, begin: nat, end: nat, ghost w: seq<Entry>, i: nat) returns (vec: bytes)
    requires ring.Valid() && begin <= end == ring.head <= begin + ring.capacity && w == ring.history[begin..end]
    requires i < |w|
    ensures vec == w[i].rec.vec
  {
    vec := ring.VectorAt(begin + i);
  }

  lemma {:induction false} OldestFalls(w: seq<Entry>, k: nat)
    requires 0 < k <= |w|
    ensures Oldest(w) <= Oldest(w[..k])
    decreases |w| - k
  {
    if k < |w| {
      OldestNext(w, k);
      OldestFalls(w, k + 1);
    } else {
      assert w[..k] == w;
    }
  }

  lemma {:induction false} OldestIsLeast(w: seq<Entry>, from: int)
    requires w != []
    ensures from < Oldest(w) <==> forall i :: 0 <= i < |w| ==> from < w[i].rec.ts
  {
    var n := |w| - 1;
    if n == 0 {
      assert w[0].rec.ts == Oldest(w);
    } else {
      OldestIsLeast(w[..n], from);
      assert forall i :: 0 <= i < n ==> w[..n][i] == w[i];
    }
  }

  lemma ScanIsNotEmpty(w: seq<Entry>, from: int, to: int, max: nat)
    requires w != [] && max > 0
    ensures ScanEnd(w, from, to, max) > 0
    ensures ScanEnd(w, from, to, max) < |w| ==> |InRange(w, from, to)| >= max
  {
    var k := ScanEnd(w, from, to, max);
    ScanEndIs(w, from, to, max, k);
    InRangePrefix(w, k, from, to);
  }

  /** The documented warning: the range starts before the oldest hot entry. */
  predicate ReachesBeforeHot(w: seq<Entry>, from: int) {
    w != [] && from < Oldest(w)
  }

  /** The warning the code gives is the documented one unless the output fills up, everything up to the max-th hit is later than the
    * start of the range, and an entry behind that hit is not. */
  lemma WarningIsDocumentedIff(w: seq<Entry>, from: int, to: int, max: nat)
    requires from <= to && max > 0
    ensures (RangeCode(w, from, to, max) == RangeTruncated <==> ReachesBeforeHot(w, from))
       <==> !(&& |InRange(w, from, to)| >= max
              && (forall i :: 0 <= i < ScanEnd(w, from, to, max) ==> from < w[i].rec.ts)
              && (exists i :: ScanEnd(w, from, to, max) <= i < |w| && w[i].rec.ts <= from))
  {
    if w == [] {
      assert w[..0] == [];
    } else {
      var k := ScanEnd(w, from, to, max);
      ScanIsNotEmpty(w, from, to, max);
      OldestIsLeast(w, from);
      OldestIsLeast(w[..k], from);
      assert forall i :: 0 <= i < k ==> w[..k][i] == w[i];
    }
  }

  /** A query is refused exactly when its range is empty; otherwise its code is the warning or OK. */
  lemma RangeCodes(w: seq<Entry>, from: int, to: int, max: nat)
    requires max > 0
    ensures RangeCode(w, from, to, max) == InvalidArg <==> to < from
    ensures from <= to ==>
              (RangeCode(w, from, to, max) == RangeTruncated
               <==> w != [] && forall i :: 0 <= i < ScanEnd(w, from, to, max) ==> from < w[i].rec.ts)
    ensures from <= to && RangeCode(w, from, to, max) != RangeTruncated ==> RangeCode(w, from, to, max) == OK
  {
    var k := ScanEnd(w, from, to, max);
    if w != [] {
      ScanIsNotEmpty(w, from, to, max);
      OldestIsLeast(w[..k], from);
      assert forall i :: 0 <= i < k ==> w[..k][i] == w[i];
    }
  }

  /** The documented warning is never missed. */
  lemma WarningIsNeverMissed(w: seq<Entry>, from: int, to: int, max: nat)
    requires from <= to && max > 0 && ReachesBeforeHot(w, from)
    ensures RangeCode(w, from, to, max) == RangeTruncated
  {
    var k := ScanEnd(w, from, to, max);
    ScanIsNotEmpty(w, from, to, max);
    OldestFalls(w, k);
  }

  /** So for timestamps that never decrease, and whenever the output does not fill up, the two warnings are the same. */
  lemma InOrderWarning(w: seq<Entry>, from: int, to: int, max: nat)
    requires from <= to && max > 0
    requires (forall i, j :: 0 <= i < j < |w| ==> w[i].rec.ts <= w[j].rec.ts) || |InRange(w, from, to)| < max
    ensures RangeCode(w, from, to, max) == RangeTruncated <==> ReachesBeforeHot(w, from)
  {
    WarningIsDocumentedIff(w, from, to, max);
    if w != [] {
      ScanIsNotEmpty(w, from, to, max);
    }
  }

  /** A spurious warning: one late arrival at 0 behind an entry at 10, one row asked for, from 5. */
  lemma SpuriousWarning(e: Entry)
    ensures var w := [e.(rec := e.rec.(ts := 10)), e.(rec := e.rec.(ts := 0))];
      RangeCode(w, 5, 20, 1) == RangeTruncated && !ReachesBeforeHot(w, 5)
  {
    var a, b := e.(rec := e.rec.(ts := 10)), e.(rec := e.rec.(ts := 0));
    var w := [a, b];
    assert w[..1] == [a] && [a][..0] == [];
    assert InRange([a], 5, 20) == InRange([], 5, 20) + [a];
    ScanEndIs(w, 5, 20, 1, 1);
  }

  // ---- The window mean ----

  /** Component j summed over some entries. */
  function SumAt(es: seq<Entry>, component: (Entry, nat) -> real, j: nat): real {
    if es == [] then 0.0 else SumAt(es[..|es| - 1], component, j) + component(es[|es| - 1], j)
  }

  lemma {:induction false} SumConcat(a: seq<Entry>, b: seq<Entry>, component: (Entry, nat) -> real, j: nat)
    ensures SumAt(a + b, component, j) == SumAt(a, component, j) + SumAt(b, component, j)
  {
    if b == [] {
      assert a + b == a;
    } else {
      var n := |b| - 1;
      SumConcat(a, b[..n], component, j);
      assert (a + b)[..|a| + n] == a + b[..n];
    }
  }

  lemma SumNext(es: seq<Entry>, k: nat, component: (Entry, nat) -> real, j: nat)
    requires k < |es|
    ensures SumAt(es[..k + 1], component, j) == SumAt(es[..k], component, j) + component(es[k], j)
  {
    assert es[..k + 1][..k] == es[..k];
  }

  /** The entries in consecutive slots. */
  ghost function Run(ring: SensorRing, slot: nat, count: nat): (es: seq<Entry>)
    requires ring.Allocated() && slot + count <= ring.capacity
    reads ring.Arrays
    ensures |es| == count
  {
    ring.Slots()[slot..slot + count]
  }

  /** A window is its run up to the end of the arrays followed by its run from the front. */
  lemma WindowIsTwoRuns(ring: SensorRing, begin: nat, n: nat, start: nat, first: nat)
    requires ring.Valid() && n <= ring.capacity && begin + n <= ring.head <= begin + ring.capacity
    requires start == ring.Slot(begin) && first == (if n < ring.capacity - start then n else ring.capacity - start)
    ensures ring.history[begin..begin + n] == Run(ring, start, first) + Run(ring, 0, n - first)
  {
    var w, runs := ring.history[begin..begin + n], Run(ring, start, first) + Run(ring, 0, n - first);
    forall i | 0 <= i < n ensures w[i] == runs[i] {
      hide SensorRing.EntryIn;
      SplitSlots(begin, ring.capacity, i);
      assert ring.Slots()[ring.Slot(begin + i)] == ring.history[begin + i];
    }
  }

  /** Adding one row to the accumulator. */
  method AddRow(e: Entry, component: (Entry, nat) -> real, mean: array<real>)
    modifies mean
    ensures forall j :: 0 <= j < mean.Length ==> mean[j] == old(mean[j]) + component(e, j)
  {
    for k := 0 to mean.Length
      invariant forall j :: 0 <= j < mean.Length ==> mean[j] == old(mean[j]) + (if j < k then component(e, j) else 0.0)
    {
      mean[k] := mean[k] + component(e, k);
    }
  }

  /** mean += W.rowwise().sum() over count consecutive slots. */
  method AddRun(ring: SensorRing, slot: nat, count: nat, component: (Entry, nat) -> real, mean: array<real>)
    requires ring.Allocated() && slot + count <= ring.capacity && mean !in ring.Arrays
    modifies mean
    ensures forall j :: 0 <= j < mean.Length ==> mean[j] == old(mean[j]) + SumAt(Run(ring, slot, count), component, j)
  {
    ghost var es := Run(ring, slot, count);
    assert es[..0] == [];
    for i := 0 to count
      invariant forall j :: 0 <= j < mean.Length ==> mean[j] == old(mean[j]) + SumAt(es[..i], component, j)
    {
      AddRow(ring.EntryIn(slot + i), component, mean);
      assert es[i] == ring.EntryIn(slot + i);
      forall j | 0 <= j < mean.Length ensures SumAt(es[..i + 1], component, j) == SumAt(es[..i], component, j) + component(es[i], j) {
        SumNext(es, i, component, j);
      }
    }
    assert es[..count] == es;
  }

  /** The mean of the window: each live entry is added exactly once, however the window wraps. */
  method WindowMean(ring: SensorRing, begin: nat, end: nat, dim: nat, component: (Entry, nat) -> real) returns (mean: array<real>)
    requires ring.Valid() && begin < end == ring.head <= begin + ring.capacity
    ensures fresh(mean) && mean.Length == dim
    ensures forall j :: 0 <= j < dim ==> mean[j] == SumAt(ring.history[begin..end], component, j) / ((end - begin) as real)
  {
    hide SumAt, HoldsNewest;
    mean := new real[dim](_ => 0.0);
    ghost var w := ring.history[begin..end];
    var n := end - begin;
    var start := ring.Slot(begin);
    var first := if n < ring.capacity - start then n else ring.capacity - start;
    WindowIsTwoRuns(ring, begin, n, start, first);
    AddRun(ring, start, first, component, mean);
    EmptySum(component);
    assert first == n ==> Run(ring, 0, n - first) == [];
    if first < n {
      AddRun(ring, 0, n - first, component, mean);
    }
    forall j | 0 <= j < dim ensures mean[j] == SumAt(w, component, j) {
      SumConcat(Run(ring, start, first), Run(ring, 0, n - first), component, j);
    }
    Divide(mean, n);
  }

  lemma EmptySum(component: (Entry, nat) -> real)
    ensures forall j :: SumAt([], component, j) == 0.0
  {
  }

  method Divide(mean: array<real>, n: nat)
    requires n > 0
    modifies mean
    ensures forall j :: 0 <= j < mean.Length ==> mean[j] == old(mean[j]) / (n as real)
  {
    for k := 0 to mean.Length
      invariant forall j :: 0 <= j < mean.Length ==> mean[j] == if j < k then old(mean[j]) / (n as real) else old(mean[j])
    {
      mean[k] := mean[k] / (n as real);
    }
  }
}
