/** Whole runs of the ring, state by state: which appends are counted, what is published, and what a snapshot sees. */
module RingRuns {
  import opened Wrappers
  import opened RingProtocol

  predicate StepTo(c: Config, s: State, a: Action, s': State) {
    Shaped(c, s) && Enabled(c, s, a) && s' == Next(c, s, a)
  }

  /** The states a run goes through, the initial one first. */
  predicate Trace(c: Config, run: seq<Action>, states: seq<State>) {
    && |states| == |run| + 1 && Initial(c, states[0])
    && forall n :: 0 <= n < |run| ==> StepTo(c, states[n], run[n], states[n + 1])
  }

  /** Every reachable state has such a history. */
  lemma {:induction false} ReachedHasTrace(c: Config, run: seq<Action>, s: State) returns (states: seq<State>)
    requires Reached(c, run, s)
    ensures Trace(c, run, states) && states[|run|] == s
  {
    hide Shaped, Enabled, Next, Initial;
    if run == [] {
      states := [s];
    } else {
      var n := |run| - 1;
      var p: State :| Reached(c, run[..n], p) && Shaped(c, p) && Enabled(c, p, run[n]) && s == Next(c, p, run[n]);
      var before := ReachedHasTrace(c, run[..n], p);
      states := before + [s];
      forall m | 0 <= m < |run| ensures StepTo(c, states[m], run[m], states[m + 1]) {
        if m < n {
          assert StepTo(c, before[m], run[..n][m], before[m + 1]);
        }
      }
    }
  }

  lemma PrefixIsTrace(c: Config, run: seq<Action>, states: seq<State>, n: nat)
    requires Trace(c, run, states) && n <= |run|
    ensures Trace(c, run[..n], states[..n + 1])
  {
    hide StepTo, Initial;
    forall m | 0 <= m < n ensures StepTo(c, states[..n + 1][m], run[..n][m], states[..n + 1][m + 1]) {
      assert StepTo(c, states[m], run[m], states[m + 1]);
    }
  }

  /** And every such history leads to a reachable state. */
  lemma {:induction false} TraceIsReached(c: Config, run: seq<Action>, states: seq<State>)
    requires Trace(c, run, states)
    ensures Reached(c, run, states[|run|])
  {
    hide Shaped, Enabled, Next, Initial;
    if run == [] {
    } else {
      var n := |run| - 1;
      PrefixIsTrace(c, run, states, n);
      TraceIsReached(c, run[..n], states[..n + 1]);
      assert StepTo(c, states[n], run[n], states[n + 1]);
    }
  }

  // ---- Which appends are counted ----

  /** Append k loads a tail that has not passed the entry k - capacity. */
  predicate LoadsBehind(c: Config, a: Action, s: State, k: nat) {
    a.LoadTail? && s.head == k && s.tail + c.capacity <= k
  }

  ghost predicate LoadedBehind(c: Config, run: seq<Action>, states: seq<State>, k: nat)
    requires |run| <= |states|
  {
    exists n :: 0 <= n < |run| && LoadsBehind(c, run[n], states[n], k)
  }

  /** Append k is past its overwrite check. */
  predicate Checked(s: State, k: nat) {
    k < s.head || (k == s.head && s.producer.Writing?)
  }

  /** What is known of append k before, at, and after its check; late says whether it loaded such a tail. */
  predicate CountedRightly(c: Config, s: State, k: nat, late: bool) {
    && (k in s.counted <==> Checked(s, k) && late)
    && (k == s.head && s.producer.SawTail? ==> (late <==> s.producer.t + c.capacity <= k))
    && (k > s.head || (k == s.head && (s.producer.Idle? || s.producer.Started?)) ==> !late)
  }

  lemma CountedNext(c: Config, s: State, a: Action, s': State, k: nat, late: bool)
    requires StepTo(c, s, a, s') && CountedRightly(c, s, k, late)
    ensures CountedRightly(c, s', k, late || LoadsBehind(c, a, s, k))
  {
    hide Merge, Handed;
  }

  lemma LoadedNext(c: Config, run: seq<Action>, states: seq<State>, k: nat)
    requires run != [] && |states| == |run| + 1
    ensures var n := |run| - 1;
      LoadedBehind(c, run, states, k) <==> LoadedBehind(c, run[..n], states[..n + 1], k) || LoadsBehind(c, run[n], states[n], k)
  {
    hide LoadsBehind;
    var n := |run| - 1;
    var init, before := run[..n], states[..n + 1];
    if LoadedBehind(c, init, before, k) {
      var m :| 0 <= m < n && LoadsBehind(c, init[m], before[m], k);
      assert LoadsBehind(c, run[m], states[m], k);
    }
    if LoadedBehind(c, run, states, k) && !LoadsBehind(c, run[n], states[n], k) {
      var m :| 0 <= m < |run| && LoadsBehind(c, run[m], states[m], k);
      assert LoadsBehind(c, init[m], before[m], k);
    }
  }

  lemma {:induction false} CountedFrom(c: Config, run: seq<Action>, states: seq<State>, k: nat)
    requires Trace(c, run, states)
    ensures CountedRightly(c, states[|run|], k, LoadedBehind(c, run, states, k))
  {
    hide StepTo, LoadsBehind;
    if run == [] {
    } else {
      hide LoadedBehind, CountedRightly, Initial;
      var n := |run| - 1;
      PrefixIsTrace(c, run, states, n);
      CountedFrom(c, run[..n], states[..n + 1], k);
      LoadedNext(c, run, states, k);
      CountedNext(c, states[n], run[n], states[n + 1], k, LoadedBehind(c, run[..n], states[..n + 1], k));
    }
  }

  /** An append is counted if and only if it is past its check and, when it loaded the tail, the entry in its slot was still at or
    * above the tail. */
  lemma CountedIff(c: Config, run: seq<Action>, states: seq<State>, k: nat)
    requires Trace(c, run, states)
    ensures k in states[|run|].counted <==>
              Checked(states[|run|], k)
              && exists n :: 0 <= n < |run| && run[n].LoadTail? && states[n].head == k && states[n].tail + c.capacity <= k
  {
    hide StepTo, Initial, Checked;
    CountedFrom(c, run, states, k);
    if LoadedBehind(c, run, states, k) {
      var n :| 0 <= n < |run| && LoadsBehind(c, run[n], states[n], k);
      assert run[n].LoadTail? && states[n].head == k && states[n].tail + c.capacity <= k;
    }
    if n :| 0 <= n < |run| && run[n].LoadTail? && states[n].head == k && states[n].tail + c.capacity <= k {
      assert LoadsBehind(c, run[n], states[n], k);
    }
  }

  /** No false alarm: where every append finds the tail less than a capacity behind, nothing is ever counted. */
  lemma DrainedRingCountsNothing(c: Config, run: seq<Action>, states: seq<State>)
    requires Trace(c, run, states)
    requires forall n :: 0 <= n < |run| && run[n].LoadTail? ==> states[n].head < states[n].tail + c.capacity
    ensures var s := states[|run|]; s.counted == {} && s.overwritten == 0 == s.events
  {
    hide StepTo, Initial, Checked, Reached;
    var s := states[|run|];
    forall k | k in s.counted ensures false {
      CountedIff(c, run, states, k);
    }
    TraceIsReached(c, run, states);
    LossIsBounded(c, run, s);
  }

  // ---- What is published ----

  /** The k-th append, begun with this input over this slot, is under way or published. */
  predicate Carried(c: Config, s: State, k: nat, input: Input, before: Row)
    requires |input| == |before|
  {
    || (s.head == k && !s.producer.Idle? && s.producer.input == input && s.producer.before == before)
    || (s.head > k && k < |s.hist| && s.hist[k] == Merge(input, before))
  }

  lemma CarriedNext(c: Config, s: State, a: Action, s': State, k: nat, input: Input, before: Row)
    requires StepTo(c, s, a, s') && Wide(c, s) && |input| == |before| && Carried(c, s, k, input, before)
    ensures Carried(c, s', k, input, before)
  {
    hide Merge, Handed;
  }

  lemma BegunIsCarried(c: Config, s: State, a: Action, s': State)
    requires StepTo(c, s, a, s') && a.Begin?
    ensures |a.input| == |s.cells[c.Slot(s.head)]| && Carried(c, s', s.head, a.input, s.cells[c.Slot(s.head)])
  {
    hide Merge, Handed;
  }

  lemma WideInTrace(c: Config, run: seq<Action>, states: seq<State>, m: nat)
    requires Trace(c, run, states) && m <= |run|
    ensures Wide(c, states[m])
  {
    hide StepTo, Initial, Reached;
    PrefixIsTrace(c, run, states, m);
    TraceIsReached(c, run[..m], states[..m + 1]);
    InvReached(c, run[..m], states[m]);
  }

  lemma {:induction false} CarriedOn(c: Config, run: seq<Action>, states: seq<State>, n: nat, m: nat, k: nat, input: Input, before: Row)
    requires Trace(c, run, states) && n <= m <= |run| && |input| == |before| && Carried(c, states[n], k, input, before)
    ensures Carried(c, states[m], k, input, before)
    decreases m
  {
    hide Initial, Carried, Wide, StepTo;
    if m == n {
    } else {
      CarriedOn(c, run, states, n, m - 1, k, input, before);
      WideInTrace(c, run, states, m - 1);
      CarriedNext(c, states[m - 1], run[m - 1], states[m], k, input, before);
    }
  }

  /** An append publishes under the head it began at exactly the cells it was given, and the slot's old ones where it was given none. */
  lemma PublishedIsInput(c: Config, run: seq<Action>, states: seq<State>, n: nat, j: nat)
    requires Trace(c, run, states) && n < |run| && run[n].Begin? && j < c.width
    ensures var k, s := states[n].head, states[|run|];
      s.head > k ==>
        && |states[n].cells| == c.capacity > 0 && |states[n].cells[c.Slot(k)]| == |run[n].input| == c.width
        && |s.hist| == s.head && |s.hist[k]| == c.width
        && s.hist[k][j] == match run[n].input[j] case Some(x) => x case None => states[n].cells[c.Slot(k)][j]
  {
    hide Initial, Next;
    var k, input := states[n].head, run[n].input;
    assert StepTo(c, states[n], run[n], states[n + 1]);
    BegunIsCarried(c, states[n], run[n], states[n + 1]);
    CarriedOn(c, run, states, n + 1, |run|, k, input, states[n].cells[c.Slot(k)]);
    WideInTrace(c, run, states, |run|);
  }

  // ---- What a snapshot sees ----

  /** A snapshot is every published index at or above the loaded tail whose slot no later append has been published into. */
  lemma SnapshotIsExact(c: Config, run: seq<Action>, s: State, r: nat, i: nat)
    requires Reached(c, run, s) && Shaped(c, s) && Enabled(c, s, ReadLoadHead(r))
    ensures var d := Next(c, s, ReadLoadHead(r)).readers[r];
      d.Window? && d.end == s.head && (d.begin <= i < d.end <==> s.readers[r].t <= i < s.head <= i + c.capacity)
  {
    hide Reached;
    InvReached(c, run, s);
    assert ReaderInv(c, s, s.readers[r]);
  }

  // ---- No thread ever blocks ----

  /** Whatever the others have done, the producer has a next step: it waits for nobody. */
  lemma ProducerNeverWaits(c: Config, run: seq<Action>, s: State) returns (a: Action)
    requires Reached(c, run, s)
    ensures Shaped(c, s) && ProducerAction(a) && Enabled(c, s, a)
  {
    hide Reached;
    InvReached(c, run, s);
    match s.producer
    case Idle => a := Begin(seq(c.width, _ => None));
    case Started(_, _) => a := LoadTail;
    case SawTail(_, _, _) => a := Count;
    case Writing(_, _, done) => a := if done < c.width then WriteCell else Publish;
  }

  /** So has the evictor, and a pass it has begun to copy can only end in StoreTail. */
  lemma EvictorNeverWaits(c: Config, run: seq<Action>, s: State) returns (a: Action)
    requires Reached(c, run, s)
    ensures Shaped(c, s) && EvictorAction(a) && Enabled(c, s, a)
    ensures s.evictor.Copying? ==> a == if s.evictor.begin + |s.evictor.rows| == s.evictor.newTail then StoreTail else CopyCell
  {
    hide Reached;
    InvReached(c, run, s);
    match s.evictor
    case Resting => a := EvictLoadTail;
    case LoadedTail(_) => a := EvictLoadHead;
    case Scanning(begin, _) => a := Choose(begin);
    case Copying(begin, newTail, rows, _) => a := if begin + |rows| == newTail then StoreTail else CopyCell;
  }
}
