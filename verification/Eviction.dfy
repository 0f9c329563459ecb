/** Which entries an eviction pass removes: the leading run older than the newest timestamp less the window. */
module Eviction {
  function Max(ts: seq<int>): int
    requires ts != []
  {
    if |ts| == 1 then ts[0]
    else
      var m := Max(ts[..|ts| - 1]);
      if ts[|ts| - 1] > m then ts[|ts| - 1] else m
  }

  predicate IsMax(ts: seq<int>, m: int) {
    (exists i :: 0 <= i < |ts| && ts[i] == m) && forall i :: 0 <= i < |ts| ==> ts[i] <= m
  }

  lemma {:induction false} MaxIsMax(ts: seq<int>)
    requires ts != []
    ensures IsMax(ts, Max(ts))
  {
    var n := |ts| - 1;
    if n == 0 {
      assert ts[0] == Max(ts);
    } else {
      MaxIsMax(ts[..n]);
      var i :| 0 <= i < n && ts[..n][i] == Max(ts[..n]);
      assert ts[i] == Max(ts[..n]);
      forall j | 0 <= j < |ts| ensures ts[j] <= Max(ts) {
        if j < n {
          assert ts[j] == ts[..n][j];
        }
      }
      assert ts[n] <= Max(ts) && (ts[i] == Max(ts) || ts[n] == Max(ts));
    }
  }

  lemma MaxIs(ts: seq<int>, m: int)
    requires IsMax(ts, m)
    ensures Max(ts) == m
  {
    MaxIsMax(ts);
  }

  /** The length of the leading run below the cutoff. */
  function Leading(ts: seq<int>, cutoff: int): (n: nat)
    ensures n <= |ts|
  {
    if ts == [] || ts[0] >= cutoff then 0 else 1 + Leading(ts[1..], cutoff)
  }

  /** How many entries one pass removes. A window of 0 is the flush: everything goes. */
  function Cut(ts: seq<int>, window: nat): (n: nat)
    ensures n <= |ts|
  {
    if window == 0 || ts == [] then |ts| else Leading(ts, Max(ts) - window)
  }

  lemma {:induction false} LeadingIsLongest(ts: seq<int>, cutoff: int, n: nat)
    requires n <= |ts|
    ensures n == Leading(ts, cutoff) <==> (forall i :: 0 <= i < n ==> ts[i] < cutoff) && (n < |ts| ==> ts[n] >= cutoff)
  {
    if ts == [] {
    } else {
      if ts[0] < cutoff && n > 0 {
        LeadingIsLongest(ts[1..], cutoff, n - 1);
        if forall i :: 0 <= i < n - 1 ==> ts[1..][i] < cutoff {
          forall i | 0 <= i < n ensures ts[i] < cutoff {
            assert i > 0 ==> ts[i] == ts[1..][i - 1];
          }
        } else {
          var i :| 0 <= i < n - 1 && ts[1..][i] >= cutoff;
          assert ts[i + 1] >= cutoff;
        }
      }
    }
  }

  /** The pass removes exactly the longest prefix older than the cutoff, and never the newest entry. */
  lemma CutIsLongestPrefix(ts: seq<int>, window: nat)
    requires window > 0 && ts != []
    ensures Cut(ts, window) < |ts|
    ensures forall i :: 0 <= i < Cut(ts, window) ==> ts[i] < Max(ts) - window
    ensures ts[Cut(ts, window)] >= Max(ts) - window
    ensures forall i :: 0 <= i < |ts| && ts[i] == Max(ts) ==> Cut(ts, window) <= i
  {
    LeadingIsLongest(ts, Max(ts) - window, Cut(ts, window));
    MaxIsMax(ts);
  }

  lemma MaxOfSuffix(ts: seq<int>, m: int, n: nat)
    requires IsMax(ts, m) && n < |ts| && forall i :: 0 <= i < n ==> ts[i] < m
    ensures Max(ts[n..]) == m
  {
    var i :| 0 <= i < |ts| && ts[i] == m;
    assert ts[n..][i - n] == m;
    MaxIs(ts[n..], m);
  }

  /** The frontier does not move: what is left has the same newest timestamp. */
  lemma MaxSurvives(ts: seq<int>, window: nat)
    requires window > 0 && ts != []
    ensures Cut(ts, window) < |ts| && Max(ts[Cut(ts, window)..]) == Max(ts)
  {
    CutIsLongestPrefix(ts, window);
    MaxIsMax(ts);
    MaxOfSuffix(ts, Max(ts), Cut(ts, window));
  }

  lemma LeadingThenLeading(ts: seq<int>, c1: int, c2: int)
    ensures Leading(ts, c1) + Leading(ts[Leading(ts, c1)..], c2) == Leading(ts, if c1 <= c2 then c2 else c1)
  {
    var n := Leading(ts, c1);
    var rest := ts[n..];
    var k := Leading(rest, c2);
    LeadingIsLongest(ts, c1, n);
    LeadingIsLongest(rest, c2, k);
    assert forall i :: n <= i < |ts| ==> ts[i] == rest[i - n];
    assert n < |ts| ==> rest[0] == ts[n] >= c1;
    LeadingIsLongest(ts, if c1 <= c2 then c2 else c1, n + k);
  }

  /** Evicting with one window and then another removes what the smaller of the two removes. */
  lemma CutThenCut(ts: seq<int>, w1: nat, w2: nat)
    requires w1 > 0 && w2 > 0
    ensures Cut(ts, w1) + Cut(ts[Cut(ts, w1)..], w2) == Cut(ts, if w1 <= w2 then w1 else w2)
  {
    if ts != [] {
      MaxSurvives(ts, w1);
      LeadingThenLeading(ts, Max(ts) - w1, Max(ts) - w2);
    }
  }

  /** A second pass with the same window finds nothing. */
  lemma EvictionIsIdempotent(ts: seq<int>, window: nat)
    requires window > 0
    ensures Cut(ts[Cut(ts, window)..], window) == 0
  {
    CutThenCut(ts, window, window);
  }

  /** The survivors are exactly the entries inside the window if and only if no late arrival sits behind the first of them. */
  lemma SurvivorsAreTheWindow(ts: seq<int>, window: nat)
    requires window > 0 && ts != []
    ensures (forall i :: 0 <= i < |ts| ==> (Cut(ts, window) <= i <==> ts[i] >= Max(ts) - window))
       <==> (forall i, j :: 0 <= i < j < |ts| && ts[i] >= Max(ts) - window ==> ts[j] >= Max(ts) - window)
  {
    CutIsLongestPrefix(ts, window);
    hide Cut, Max;
    var n, cutoff := Cut(ts, window), Max(ts) - window;
    if forall i, j :: 0 <= i < j < |ts| && ts[i] >= cutoff ==> ts[j] >= cutoff {
      forall i | 0 <= i < |ts| ensures n <= i <==> ts[i] >= cutoff {
        assert n < i ==> ts[n] >= cutoff && ts[i] >= cutoff;
      }
    }
  }

  predicate NonDecreasing(ts: seq<int>) {
    forall i, j :: 0 <= i < j < |ts| ==> ts[i] <= ts[j]
  }

  lemma InOrderSurvivors(ts: seq<int>, window: nat, i: nat)
    requires window > 0 && NonDecreasing(ts) && i < |ts|
    ensures Cut(ts, window) <= i <==> ts[i] >= Max(ts) - window
  {
    CutIsLongestPrefix(ts, window);
    SurvivorsAreTheWindow(ts, window);
  }

  /** A larger window never removes more. */
  lemma CutIsAntitone(ts: seq<int>, w1: nat, w2: nat)
    requires w1 <= w2
    ensures Cut(ts, w2) <= Cut(ts, w1)
  {
    if w1 > 0 && ts != [] {
      CutIsLongestPrefix(ts, w1);
      CutIsLongestPrefix(ts, w2);
    }
  }
}
