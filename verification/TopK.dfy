/** Keeping the best k of a stream of scores in a heap whose front is the worst kept so far. */
module TopK {
  /** A score and the position it was computed for. */
  datatype Scored = Scored(score: real, at: nat)

  /** Similarities rank downwards, distances upwards. */
  predicate Better(cosine: bool, s: real, t: real) {
    if cosine then s > t else s < t
  }

  // ---- The heap ----

  function Parent(i: nat): nat
    requires i > 0
  {
    (i - 1) / 2
  }

  /** No parent is better than its child. */
  predicate HeapExcept(h: seq<Scored>, cosine: bool, hole: int) {
    forall i :: 0 < i < |h| && i != hole ==> !Better(cosine, h[Parent(i)].score, h[i].score)
  }

  predicate Heap(h: seq<Scored>, cosine: bool) {
    forall i :: 0 < i < |h| ==> !Better(cosine, h[Parent(i)].score, h[i].score)
  }

  /** The front is the worst. */
  lemma {:induction false} FrontIsWorst(h: seq<Scored>, cosine: bool, i: nat)
    requires Heap(h, cosine) && i < |h|
    ensures !Better(cosine, h[0].score, h[i].score)
    decreases i
  {
    if i == 0 {
    } else {
      FrontIsWorst(h, cosine, Parent(i));
    }
  }

  function Swap(h: seq<Scored>, i: nat, j: nat): (r: seq<Scored>)
    requires i < |h| && j < |h|
    ensures |r| == |h|
  {
    h[i := h[j]][j := h[i]]
  }

  lemma SwapPermutes(h: seq<Scored>, i: nat, j: nat)
    requires i < |h| && j < |h|
    ensures multiset(Swap(h, i, j)) == multiset(h)
  {
  }

  /** While an element rises, its children are no better than its parent would allow. */
  predicate Rising(h: seq<Scored>, cosine: bool, hole: nat)
    requires hole < |h|
  {
    && HeapExcept(h, cosine, hole)
    && (hole > 0 ==> forall i :: 0 < i < |h| && Parent(i) == hole ==> !Better(cosine, h[Parent(hole)].score, h[i].score))
  }

  lemma RiseStep(h: seq<Scored>, cosine: bool, hole: nat)
    requires 0 < hole < |h| && Rising(h, cosine, hole) && Better(cosine, h[Parent(hole)].score, h[hole].score)
    ensures Rising(Swap(h, Parent(hole), hole), cosine, Parent(hole))
  {
    var p := Parent(hole);
    var r := Swap(h, p, hole);
    forall i | 0 < i < |r| && i != p ensures !Better(cosine, r[Parent(i)].score, r[i].score) {
      assert i != hole ==> !Better(cosine, h[Parent(i)].score, h[i].score);
    }
    if p > 0 {
      forall i | 0 < i < |r| && Parent(i) == p ensures !Better(cosine, r[Parent(p)].score, r[i].score) {
        assert !Better(cosine, h[Parent(p)].score, h[p].score);
        assert i != hole ==> !Better(cosine, h[p].score, h[i].score);
      }
    }
  }

  /** push_heap: the last element rises to its place. */
  method PushHeap(a: seq<Scored>, cosine: bool) returns (h: seq<Scored>)
    requires a != [] && Heap(a[..|a| - 1], cosine)
    ensures Heap(h, cosine) && multiset(h) == multiset(a) && |h| == |a|
  {
    h := a;
    var hole := |a| - 1;
    forall i | 0 < i < |h| && i != hole ensures !Better(cosine, h[Parent(i)].score, h[i].score) {
      var init := a[..|a| - 1];
      assert init[Parent(i)] == h[Parent(i)] && init[i] == h[i];
    }
    while hole > 0 && Better(cosine, h[Parent(hole)].score, h[hole].score)
      invariant 0 <= hole < |h| == |a|
      invariant Rising(h, cosine, hole)
      invariant multiset(h) == multiset(a)
    {
      RiseStep(h, cosine, hole);
      SwapPermutes(h, Parent(hole), hole);
      h, hole := Swap(h, Parent(hole), hole), Parent(hole);
    }
  }

  /** While an element sinks through the first m, everything but its own children is in order, and its parent suits its children. */
  predicate Sinking(h: seq<Scored>, m: nat, cosine: bool, hole: nat)
    requires m <= |h|
  {
    && (forall i :: 0 < i < m && Parent(i) != hole ==> !Better(cosine, h[Parent(i)].score, h[i].score))
    && (0 < hole < m ==> forall i :: 0 < i < m && Parent(i) == hole ==> !Better(cosine, h[Parent(hole)].score, h[i].score))
  }

  lemma SinkStep(h: seq<Scored>, m: nat, cosine: bool, hole: nat, w: nat)
    requires m <= |h| && hole < w < m && Parent(w) == hole && Sinking(h, m, cosine, hole)
    requires Better(cosine, h[hole].score, h[w].score)
    requires forall i :: 0 < i < m && Parent(i) == hole ==> !Better(cosine, h[w].score, h[i].score)
    ensures Sinking(Swap(h, hole, w), m, cosine, w)
  {
    var r := Swap(h, hole, w);
    forall i | 0 < i < m && Parent(i) != w ensures !Better(cosine, r[Parent(i)].score, r[i].score) {
      if Parent(i) != hole {
        assert !Better(cosine, h[Parent(i)].score, h[i].score);
      }
      if i == hole {
        assert Parent(w) == hole && !Better(cosine, h[Parent(hole)].score, h[w].score);
      }
    }
    forall i | 0 < i < m && Parent(i) == w ensures !Better(cosine, r[Parent(w)].score, r[i].score) {
      assert !Better(cosine, h[Parent(i)].score, h[i].score);
    }
  }

  /** The worse of the hole's children. */
  function WorseChild(h: seq<Scored>, m: nat, cosine: bool, hole: nat): (w: nat)
    requires 2 * hole + 1 < m <= |h|
    ensures hole < w < m && Parent(w) == hole
    ensures forall i :: 0 < i < m && Parent(i) == hole ==> !Better(cosine, h[w].score, h[i].score)
  {
    var c := 2 * hole + 1;
    if c + 1 < m && Better(cosine, h[c].score, h[c + 1].score) then c + 1 else c
  }

  method SinkDown(a: seq<Scored>, m: nat, cosine: bool) returns (h: seq<Scored>)
    requires m < |a| && Sinking(a, m, cosine, 0)
    ensures |h| == |a| && multiset(h) == multiset(a)
    ensures h[m] == a[m] && Heap(h[..m], cosine)
  {
    h := a;
    var hole := 0;
    while 2 * hole + 1 < m
      invariant 0 <= hole <= m && |h| == |a|
      invariant multiset(h) == multiset(a) && h[m] == a[m]
      invariant Sinking(h, m, cosine, hole)
      decreases m - hole
    {
      var w := WorseChild(h, m, cosine, hole);
      if !Better(cosine, h[hole].score, h[w].score) {
        NothingToSink(h, m, cosine, hole, w);
        HeapOfPrefix(h, m, cosine);
        return;
      }
      SinkStep(h, m, cosine, hole, w);
      SwapPermutes(h, hole, w);
      h, hole := Swap(h, hole, w), w;
    }
    HeapOfPrefix(h, m, cosine);
  }

  /** pop_heap: the front moves to the back, and the rest is a heap again. */
  method PopHeap(a: seq<Scored>, cosine: bool) returns (h: seq<Scored>)
    requires a != [] && Heap(a, cosine)
    ensures |h| == |a| && multiset(h) == multiset(a)
    ensures h[|h| - 1] == a[0] && Heap(h[..|h| - 1], cosine)
  {
    var m := |a| - 1;
    SwapPermutes(a, 0, m);
    var swapped := Swap(a, 0, m);
    assert forall i :: 0 < i < m && Parent(i) != 0 ==> swapped[Parent(i)] == a[Parent(i)] && swapped[i] == a[i];
    h := SinkDown(swapped, m, cosine);
  }

  lemma NothingToSink(h: seq<Scored>, m: nat, cosine: bool, hole: nat, w: nat)
    requires m <= |h| && hole < w < m && Sinking(h, m, cosine, hole)
    requires !Better(cosine, h[hole].score, h[w].score)
    requires forall i :: 0 < i < m && Parent(i) == hole ==> !Better(cosine, h[w].score, h[i].score)
    ensures forall i :: 0 < i < m ==> !Better(cosine, h[Parent(i)].score, h[i].score)
  {
    forall i | 0 < i < m ensures !Better(cosine, h[Parent(i)].score, h[i].score) {
      assert Parent(i) == hole ==> !Better(cosine, h[w].score, h[i].score);
    }
  }

  lemma HeapOfPrefix(h: seq<Scored>, m: nat, cosine: bool)
    requires m <= |h| && forall i :: 0 < i < m ==> !Better(cosine, h[Parent(i)].score, h[i].score)
    ensures Heap(h[..m], cosine)
  {
  }

  // ---- Sorting the survivors ----

  predicate BestFirst(h: seq<Scored>, cosine: bool) {
    forall i, j :: 0 <= i < j < |h| ==> !Better(cosine, h[j].score, h[i].score)
  }

  /** The final sort, as insertion into a growing sorted front. */
  method SortBestFirst(a: seq<Scored>, cosine: bool) returns (h: seq<Scored>)
    ensures BestFirst(h, cosine) && multiset(h) == multiset(a) && |h| == |a|
  {
    h := [];
    for i := 0 to |a|
      invariant |h| == i && BestFirst(h, cosine) && multiset(h) == multiset(a[..i])
    {
      h := Insert(h, a[i], cosine);
      assert a[..i + 1] == a[..i] + [a[i]];
    }
    assert a[..|a|] == a;
  }

  method Insert(h: seq<Scored>, x: Scored, cosine: bool) returns (r: seq<Scored>)
    requires BestFirst(h, cosine)
    ensures BestFirst(r, cosine) && multiset(r) == multiset(h) + multiset{x} && |r| == |h| + 1
  {
    var k := 0;
    while k < |h| && !Better(cosine, x.score, h[k].score)
      invariant 0 <= k <= |h|
      invariant forall i :: 0 <= i < k ==> !Better(cosine, x.score, h[i].score)
    {
      k := k + 1;
    }
    r := h[..k] + [x] + h[k..];
    assert h == h[..k] + h[k..];
    InsertedBestFirst(h, k, x, r, cosine);
  }

  lemma InsertedBestFirst(h: seq<Scored>, k: nat, x: Scored, r: seq<Scored>, cosine: bool)
    requires BestFirst(h, cosine) && k <= |h| && r == h[..k] + [x] + h[k..]
    requires forall i :: 0 <= i < k ==> !Better(cosine, x.score, h[i].score)
    requires k < |h| ==> Better(cosine, x.score, h[k].score)
    ensures BestFirst(r, cosine)
  {
    forall i, j | 0 <= i < j < |r| ensures !Better(cosine, r[j].score, r[i].score) {
      if i == k {
        assert r[j] == h[j - 1] && (j - 1 == k || !Better(cosine, h[j - 1].score, h[k].score));
      } else if j != k {
        assert r[i] == (if i < k then h[i] else h[i - 1]) && r[j] == if j < k then h[j] else h[j - 1];
      }
    }
  }

  // ---- The selection ----

  /** Position i with its score, for the first n. */
  function Pairs(scores: seq<real>, n: nat): (ps: seq<Scored>)
    requires n <= |scores|
    ensures |ps| == n
  {
    seq(n, i requires 0 <= i < n => Scored(scores[i], i))
  }

  /** h holds best of the first n: some of them, each at most once, and none left out is better than one kept. */
  ghost predicate Keeps(h: seq<Scored>, scores: seq<real>, n: nat, cosine: bool)
    requires n <= |scores|
  {
    && multiset(h) <= multiset(Pairs(scores, n))
    && (forall i, q :: 0 <= i < n && Scored(scores[i], i) !in h && q in h ==> !Better(cosine, scores[i], q.score))
  }

  lemma PairsNext(scores: seq<real>, n: nat)
    requires n < |scores|
    ensures multiset(Pairs(scores, n + 1)) == multiset(Pairs(scores, n)) + multiset{Scored(scores[n], n)}
  {
    assert Pairs(scores, n + 1) == Pairs(scores, n) + [Scored(scores[n], n)];
  }

  lemma NewIsNew(scores: seq<real>, n: nat)
    requires n < |scores|
    ensures Scored(scores[n], n) !in Pairs(scores, n)
  {
  }

  /** Keeping everything so far. */
  lemma KeepAll(h: seq<Scored>, scores: seq<real>, n: nat, cosine: bool)
    requires n <= |scores| && multiset(h) == multiset(Pairs(scores, n))
    ensures Keeps(h, scores, n, cosine)
  {
    forall i | 0 <= i < n ensures Scored(scores[i], i) in h {
      assert Pairs(scores, n)[i] in multiset(h);
    }
  }

  lemma SkipNext(h: seq<Scored>, scores: seq<real>, n: nat, cosine: bool)
    requires n < |scores| && h != [] && Heap(h, cosine) && Keeps(h, scores, n, cosine)
    requires !Better(cosine, scores[n], h[0].score)
    ensures Keeps(h, scores, n + 1, cosine)
  {
    PairsNext(scores, n);
    forall q | q in h ensures !Better(cosine, scores[n], q.score) {
      var i :| 0 <= i < |h| && h[i] == q;
      FrontIsWorst(h, cosine, i);
    }
  }

  lemma ReplaceFront(h: seq<Scored>, h': seq<Scored>, scores: seq<real>, n: nat, cosine: bool)
    requires n < |scores| && h != [] && Heap(h, cosine) && Keeps(h, scores, n, cosine)
    requires Better(cosine, scores[n], h[0].score)
    requires multiset(h') == multiset(h) - multiset{h[0]} + multiset{Scored(scores[n], n)}
    ensures Keeps(h', scores, n + 1, cosine)
  {
    var x, front := Scored(scores[n], n), h[0];
    PairsNext(scores, n);
    forall i, q | 0 <= i < n + 1 && Scored(scores[i], i) !in h' && q in h' ensures !Better(cosine, scores[i], q.score) {
      var p := Scored(scores[i], i);
      assert x in multiset(h') && p !in multiset(h') && q in multiset(h');
      assert q != x ==> q in multiset(h);
      assert p in multiset(h) ==> p == front;
      if q != x {
        var k :| 0 <= k < |h| && h[k] == q;
        FrontIsWorst(h, cosine, k);
      }
    }
  }

  /** One score more while the heap is full. */
  method Offer(h: seq<Scored>, scores: seq<real>, n: nat, cosine: bool) returns (r: seq<Scored>)
    requires n < |scores| && h != [] && Heap(h, cosine) && Keeps(h, scores, n, cosine)
    ensures |r| == |h| && Heap(r, cosine) && Keeps(r, scores, n + 1, cosine)
  {
    if !Better(cosine, scores[n], h[0].score) {
      SkipNext(h, scores, n, cosine);
      return h;
    }
    var popped := PopHeap(h, cosine);
    var m := |h| - 1;
    assert popped == popped[..m] + [h[0]];
    var back := popped[m := Scored(scores[n], n)];
    assert back == popped[..m] + [Scored(scores[n], n)];
    r := PushHeap(back, cosine);
    ReplaceFront(h, r, scores, n, cosine);
  }

  /** One score more while there is room. */
  method Grow(h: seq<Scored>, scores: seq<real>, n: nat, cosine: bool) returns (r: seq<Scored>)
    requires n < |scores| && Heap(h, cosine) && multiset(h) == multiset(Pairs(scores, n))
    ensures |r| == |h| + 1 && Heap(r, cosine) && multiset(r) == multiset(Pairs(scores, n + 1))
  {
    PairsNext(scores, n);
    var longer := h + [Scored(scores[n], n)];
    assert longer[..|longer| - 1] == h;
    r := PushHeap(longer, cosine);
  }

  /** The size-K heap over all scores. */
  method SelectBest(scores: seq<real>, take: nat, cosine: bool) returns (h: seq<Scored>)
    requires 0 < take <= |scores|
    ensures |h| == take && Keeps(h, scores, |scores|, cosine)
  {
    h := [];
    var i := 0;
    while i < |scores|
      invariant 0 <= i <= |scores|
      invariant |h| == (if i < take then i else take) && Heap(h, cosine)
      invariant i < take ==> multiset(h) == multiset(Pairs(scores, i))
      invariant i >= take ==> Keeps(h, scores, i, cosine)
    {
      if |h| < take {
        h := Grow(h, scores, i, cosine);
        KeepAll(h, scores, i + 1, cosine);
      } else {
        h := Offer(h, scores, i, cosine);
      }
      i := i + 1;
    }
  }

  // ---- What the caller gets ----

  /** The answer to a top-n query: distinct positions with their scores, best first, and nothing better left out. */
  ghost predicate Answers(best: seq<Scored>, scores: seq<real>, take: nat, cosine: bool) {
    && |best| == take
    && (forall i :: 0 <= i < |best| ==> best[i].at < |scores| && best[i].score == scores[best[i].at])
    && (forall i, j :: 0 <= i < j < |best| ==> best[i].at != best[j].at)
    && BestFirst(best, cosine)
    && (forall k, i :: 0 <= k < |scores| && 0 <= i < |best| && (forall j :: 0 <= j < |best| ==> best[j].at != k)
          ==> !Better(cosine, scores[k], best[i].score))
  }

  lemma {:induction false} PairsOnce(scores: seq<real>, n: nat, p: Scored)
    requires n <= |scores|
    ensures multiset(Pairs(scores, n))[p] <= 1
    ensures p in Pairs(scores, n) <==> p.at < n && p.score == scores[p.at]
  {
    if n == 0 {
    } else {
      PairsOnce(scores, n - 1, p);
      PairsNext(scores, n - 1);
      NewIsNew(scores, n - 1);
    }
    if p.at < n && p.score == scores[p.at] {
      assert Pairs(scores, n)[p.at] == p;
    }
  }

  lemma TwiceIsTwo(h: seq<Scored>, i: nat, j: nat)
    requires i < j < |h| && h[i] == h[j]
    ensures multiset(h)[h[i]] >= 2
  {
    assert h == h[..i] + [h[i]] + h[i + 1..j] + [h[j]] + h[j + 1..];
  }

  lemma KeptAnswers(h: seq<Scored>, scores: seq<real>, cosine: bool)
    requires Keeps(h, scores, |scores|, cosine) && BestFirst(h, cosine)
    ensures Answers(h, scores, |h|, cosine)
  {
    forall i | 0 <= i < |h| ensures h[i].at < |scores| && h[i].score == scores[h[i].at] {
      PairsOnce(scores, |scores|, h[i]);
      assert h[i] in multiset(h);
    }
    forall i, j | 0 <= i < j < |h| ensures h[i].at != h[j].at {
      PairsOnce(scores, |scores|, h[i]);
      if h[i].at == h[j].at {
        TwiceIsTwo(h, i, j);
      }
    }
    forall k, i | 0 <= k < |scores| && 0 <= i < |h| && (forall j :: 0 <= j < |h| ==> h[j].at != k)
      ensures !Better(cosine, scores[k], h[i].score)
    {
      assert Scored(scores[k], k) !in h;
    }
  }

  lemma SameKeeps(h: seq<Scored>, r: seq<Scored>, scores: seq<real>, cosine: bool)
    requires multiset(h) == multiset(r) && Keeps(h, scores, |scores|, cosine)
    ensures Keeps(r, scores, |scores|, cosine)
  {
    assert forall q :: q in r <==> q in multiset(r);
    assert forall q :: q in h <==> q in multiset(h);
  }

  /** An answer in plain comparisons: similarities fall, distances rise, and no score left out beats one that is kept. */
  lemma AnswerInNumbers(best: seq<Scored>, scores: seq<real>, take: nat, cosine: bool)
    requires Answers(best, scores, take, cosine)
    ensures forall i, j :: 0 <= i < j < take ==> if cosine then best[i].score >= best[j].score else best[i].score <= best[j].score
    ensures forall k, i :: 0 <= k < |scores| && 0 <= i < take && (forall j :: 0 <= j < take ==> best[j].at != k)
              ==> if cosine then scores[k] <= best[i].score else scores[k] >= best[i].score
  {
    forall k, i | 0 <= k < |scores| && 0 <= i < take && (forall j :: 0 <= j < take ==> best[j].at != k)
      ensures if cosine then scores[k] <= best[i].score else scores[k] >= best[i].score
    {
      assert !Better(cosine, scores[k], best[i].score);
    }
  }

  /** Heap selection and the final sort: an exact answer for either orientation. */
  method Best(scores: seq<real>, take: nat, cosine: bool) returns (best: seq<Scored>)
    requires 0 < take <= |scores|
    ensures Answers(best, scores, take, cosine)
    ensures forall i, j :: 0 <= i < j < take ==> if cosine then best[i].score >= best[j].score else best[i].score <= best[j].score
    ensures forall k, i :: 0 <= k < |scores| && 0 <= i < take && (forall j :: 0 <= j < take ==> best[j].at != k)
              ==> if cosine then scores[k] <= best[i].score else scores[k] >= best[i].score
  {
    var h := SelectBest(scores, take, cosine);
    best := SortBestFirst(h, cosine);
    SameKeeps(h, best, scores, cosine);
    KeptAnswers(best, scores, cosine);
    AnswerInNumbers(best, scores, take, cosine);
  }

  function Positions(a: seq<Scored>, n: nat): set<nat>
    requires n <= |a|
  {
    if n == 0 then {} else Positions(a, n - 1) + {a[n - 1].at}
  }

  lemma {:induction false} PositionAt(a: seq<Scored>, n: nat, p: nat)
    requires n <= |a|
    ensures p in Positions(a, n) <==> exists i :: 0 <= i < n && a[i].at == p
  {
    if n == 0 {
    } else {
      PositionAt(a, n - 1, p);
    }
  }

  lemma {:induction false} PositionCount(a: seq<Scored>, n: nat)
    requires n <= |a|
    ensures |Positions(a, n)| <= n
  {
    if n == 0 {
    } else {
      PositionCount(a, n - 1);
    }
  }

  lemma {:induction false} DistinctPositions(a: seq<Scored>, n: nat)
    requires n <= |a| && forall i, j :: 0 <= i < j < n ==> a[i].at != a[j].at
    ensures |Positions(a, n)| == n
  {
    if n == 0 {
    } else {
      DistinctPositions(a, n - 1);
      PositionAt(a, n - 1, a[n - 1].at);
    }
  }

  lemma SubsetIsSmaller(a: set<nat>, b: set<nat>)
    requires a <= b
    ensures |a| <= |b|
  {
    assert a + (b - a) == b;
  }

  lemma AheadOf(b: seq<Scored>, cosine: bool, k: nat, i: nat)
    requires BestFirst(b, cosine) && k < |b| && i < |b| && Better(cosine, b[k].score, b[i].score)
    ensures k < i
  {
  }

  lemma BetterIsThere(b: seq<Scored>, scores: seq<real>, take: nat, cosine: bool, p: nat, i: nat) returns (k: nat)
    requires Answers(b, scores, take, cosine) && p < |scores| && i < |b| && Better(cosine, scores[p], b[i].score)
    ensures k < i && b[k].at == p
  {
    assert exists j :: 0 <= j < |b| && b[j].at == p;
    k :| 0 <= k < |b| && b[k].at == p;
    AheadOf(b, cosine, k, i);
  }

  /** If a's i-th score beats b's, a's first i + 1 positions are among b's first i. */
  lemma BetterPositions(a: seq<Scored>, b: seq<Scored>, scores: seq<real>, take: nat, cosine: bool, i: nat, p: nat)
    requires Answers(a, scores, take, cosine) && Answers(b, scores, take, cosine) && i < take
    requires Better(cosine, a[i].score, b[i].score) && p in Positions(a, i + 1)
    ensures p in Positions(b, i)
  {
    PositionAt(a, i + 1, p);
    var j :| 0 <= j < i + 1 && a[j].at == p;
    assert j < i ==> !Better(cosine, a[i].score, a[j].score);
    var k := BetterIsThere(b, scores, take, cosine, p, i);
    PositionAt(b, i, p);
  }

  lemma NotBeaten(a: seq<Scored>, b: seq<Scored>, scores: seq<real>, take: nat, cosine: bool, i: nat)
    requires Answers(a, scores, take, cosine) && Answers(b, scores, take, cosine) && i < take
    ensures !Better(cosine, a[i].score, b[i].score)
  {
    DistinctPositions(a, i + 1);
    PositionCount(b, i);
    if Better(cosine, a[i].score, b[i].score) {
      forall p | p in Positions(a, i + 1) ensures p in Positions(b, i) {
        BetterPositions(a, b, scores, take, cosine, i, p);
      }
      SubsetIsSmaller(Positions(a, i + 1), Positions(b, i));
      assert false;
    }
  }

  /** Any two answers give the same scores in the same places: ties aside, the answer is determined. */
  lemma ScoresDetermined(a: seq<Scored>, b: seq<Scored>, scores: seq<real>, take: nat, cosine: bool)
    requires Answers(a, scores, take, cosine) && Answers(b, scores, take, cosine)
    ensures forall i :: 0 <= i < take ==> a[i].score == b[i].score
  {
    forall i | 0 <= i < take ensures a[i].score == b[i].score {
      NotBeaten(a, b, scores, take, cosine, i);
      NotBeaten(b, a, scores, take, cosine, i);
    }
  }
}
