/** Runs showing that the guard on reads and the loss counter of RingProtocol are both needed. */
module RingWitness {
  import opened Wrappers
  import opened RingProtocol

  lemma Take(c: Config, run: seq<Action>, p: State, a: Action)
    requires Reached(c, run, p) && Shaped(c, p) && Enabled(c, p, a)
    ensures Reached(c, run + [a], Next(c, p, a)) && Shaped(c, Next(c, p, a))
  {
    var longer := run + [a];
    assert longer[..|longer| - 1] == run && longer[|longer| - 1] == a;
    InvReached(c, run, p);
    StepKeeps(c, p, a);
  }

  function Filled(x: Cell): Input {
    [Some(x), Some(x)]
  }

  ghost predicate At(c: Config, run: seq<Action>, s: State) {
    Reached(c, run, s) && Shaped(c, s) && c.width == 2
  }

  lemma CountAppend(c: Config, run0: seq<Action>, s0: State, x: Cell) returns (run: seq<Action>, s: State)
    requires At(c, run0, s0) && s0.producer.Idle?
    ensures At(c, run, s)
    ensures s.producer == Writing(Filled(x), s0.cells[c.Slot(s0.head)], 0) && s.cells == s0.cells
    ensures s.head == s0.head && s.tail == s0.tail && s.hist == s0.hist
    ensures s.evictor == s0.evictor && s.readers == s0.readers && s.copied == s0.copied
  {
    hide Reached, Merge, Handed;
    run, s := run0, s0;
    Take(c, run, s, Begin(Filled(x)));
    run, s := run + [Begin(Filled(x))], Next(c, s, Begin(Filled(x)));
    Take(c, run, s, LoadTail);
    run, s := run + [LoadTail], Next(c, s, LoadTail);
    Take(c, run, s, Count);
    run, s := run + [Count], Next(c, s, Count);
  }

  /** An append of a row of x, stopped after its first cell. */
  lemma StartAppend(c: Config, run0: seq<Action>, s0: State, x: Cell) returns (run: seq<Action>, s: State)
    requires At(c, run0, s0) && s0.producer.Idle?
    ensures At(c, run, s)
    ensures s.producer == Writing(Filled(x), s0.cells[c.Slot(s0.head)], 1)
    ensures s.cells[c.Slot(s0.head)] == [x, s0.cells[c.Slot(s0.head)][1]]
    ensures s.head == s0.head && s.tail == s0.tail && s.hist == s0.hist
    ensures s.evictor == s0.evictor && s.readers == s0.readers && s.copied == s0.copied
  {
    hide Reached, Merge, Handed;
    run, s := CountAppend(c, run0, s0, x);
    Take(c, run, s, WriteCell);
    run, s := run + [WriteCell], Next(c, s, WriteCell);
  }

  lemma FinishAppend(c: Config, run0: seq<Action>, s0: State, x: Cell) returns (run: seq<Action>, s: State)
    requires At(c, run0, s0) && s0.producer.Writing? && s0.producer.done == 1
    requires s0.producer.input == Filled(x) && |s0.producer.before| == 2
    ensures At(c, run, s) && s.producer.Idle?
    ensures s.head == s0.head + 1 && s.tail == s0.tail && s.hist == s0.hist + [[x, x]]
    ensures s.evictor == s0.evictor && s.readers == s0.readers && s.copied == s0.copied
  {
    run, s := run0, s0;
    Take(c, run, s, WriteCell);
    run, s := run + [WriteCell], Next(c, s, WriteCell);
    Take(c, run, s, Publish);
    assert Merge(Filled(x), s0.producer.before) == [x, x];
    run, s := run + [Publish], Next(c, s, Publish);
  }

  /** A ring filled with rows of 0, nothing evicted. */
  lemma {:induction false} Fill(c: Config, n: nat) returns (run: seq<Action>, s: State)
    requires c.capacity > 0 && c.width == 2
    ensures At(c, run, s) && s.producer.Idle? && s.evictor.Resting? && s.readers == map[]
    ensures s.head == n == |s.hist| && s.tail == 0 && forall i :: 0 <= i < n ==> s.hist[i] == [0, 0]
  {
    if n == 0 {
      run := [];
      s := State(seq(c.capacity, _ => [0, 0]), 0, 0, 0, 0, Idle, Resting, map[], [], map[], {});
    } else {
      run, s := Fill(c, n - 1);
      run, s := StartAppend(c, run, s, 0);
      run, s := FinishAppend(c, run, s, 0);
    }
  }

  lemma FullRing(c: Config) returns (run: seq<Action>, s: State)
    requires c.capacity > 0 && c.width == 2
    ensures At(c, run, s) && s.producer.Idle? && s.evictor.Resting? && s.readers == map[]
    ensures s.head == c.capacity == |s.hist| && s.tail == 0 && s.hist[0] == s.cells[0] == [0, 0]
    ensures c.Slot(s.head) == 0 == c.Slot(0) && forall i :: 0 <= i < |s.hist| ==> s.hist[i] == [0, 0]
  {
    run, s := Fill(c, c.capacity);
    InvReached(c, run, s);
    assert !Disturbed(c, s, 0);
  }

  lemma StartRead(c: Config, run0: seq<Action>, s0: State) returns (run: seq<Action>, s: State)
    requires At(c, run0, s0) && s0.tail == 0 < s0.head <= c.capacity
    ensures At(c, run, s) && s.cells == s0.cells && s.producer == s0.producer && s.head == s0.head && s.hist == s0.hist
    ensures 0 in s.readers && s.readers[0] == Reading(0, s0.head, 0, [])
  {
    run, s := run0, s0;
    Take(c, run, s, ReadLoadTail(0));
    run, s := run + [ReadLoadTail(0)], Next(c, s, ReadLoadTail(0));
    Take(c, run, s, ReadLoadHead(0));
    run, s := run + [ReadLoadHead(0)], Next(c, s, ReadLoadHead(0));
    Take(c, run, s, Pick(0, 0));
    run, s := run + [Pick(0, 0)], Next(c, s, Pick(0, 0));
  }

  lemma ReadSlot(c: Config, run0: seq<Action>, s0: State) returns (run: seq<Action>, s: State)
    requires At(c, run0, s0) && 0 in s0.readers && s0.readers[0].Reading? && s0.readers[0].idx == 0 && s0.readers[0].part == []
    ensures At(c, run, s) && s.head == s0.head && s.hist == s0.hist && 0 in s.readers
    ensures s.readers[0] == s0.readers[0].(part := s0.cells[c.Slot(0)])
  {
    hide Reached, Merge, Handed, SnapshotBegin;
    run, s := run0, s0;
    Take(c, run, s, ReadCell(0));
    run, s := run + [ReadCell(0)], Next(c, s, ReadCell(0));
    Take(c, run, s, ReadCell(0));
    run, s := run + [ReadCell(0)], Next(c, s, ReadCell(0));
    assert s.readers[0].part == [s0.cells[c.Slot(0)][0], s0.cells[c.Slot(0)][1]] == s0.cells[c.Slot(0)];
  }

  /** Without the guard a query can return a row that was never appended: it is torn as soon as head == idx + capacity. */
  lemma TornRead(c: Config) returns (run: seq<Action>, s: State)
    requires c.capacity > 0 && c.width == 2
    ensures Reached(c, run, s)
    ensures 0 in s.readers && s.readers[0].Reading? && |s.readers[0].part| == c.width && s.head == s.readers[0].idx + c.capacity
    ensures s.readers[0].part !in s.hist
  {
    run, s := FullRing(c);
    run, s := StartRead(c, run, s);
    run, s := StartAppend(c, run, s, 1);
    run, s := ReadSlot(c, run, s);
    assert s.readers[0].part[0] == 1;
  }

  lemma StartEviction(c: Config, run0: seq<Action>, s0: State) returns (run: seq<Action>, s: State)
    requires At(c, run0, s0) && s0.tail == 0 < s0.head <= c.capacity && s0.evictor.Resting?
    ensures At(c, run, s) && s.cells == s0.cells && s.producer == s0.producer && s.head == s0.head && s.hist == s0.hist
    ensures s.evictor == Copying(0, 1, [], [])
  {
    run, s := run0, s0;
    Take(c, run, s, EvictLoadTail);
    run, s := run + [EvictLoadTail], Next(c, s, EvictLoadTail);
    Take(c, run, s, EvictLoadHead);
    run, s := run + [EvictLoadHead], Next(c, s, EvictLoadHead);
    Take(c, run, s, Choose(1));
    run, s := run + [Choose(1)], Next(c, s, Choose(1));
  }

  lemma CopyRow(c: Config, run0: seq<Action>, s0: State) returns (run: seq<Action>, s: State)
    requires At(c, run0, s0) && s0.evictor == Copying(0, 1, [], [])
    ensures At(c, run, s) && s.hist == s0.hist
    ensures s.evictor == Copying(0, 1, [s0.cells[c.Slot(0)]], [])
  {
    hide Reached, Merge, Handed, SnapshotBegin;
    run, s := run0, s0;
    Take(c, run, s, CopyCell);
    run, s := run + [CopyCell], Next(c, s, CopyCell);
    Take(c, run, s, CopyCell);
    run, s := run + [CopyCell], Next(c, s, CopyCell);
    var row := s0.cells[c.Slot(0)];
    assert [] + [row[0]] + [row[1]] == row;
    assert [] + [row] == [row];
  }

  /** Copying before advancing the tail is not enough: the copy of an entry lapped meanwhile differs from what was appended. */
  lemma SpoiledCopy(c: Config) returns (run: seq<Action>, s: State)
    requires c.capacity > 0 && c.width == 2
    ensures Reached(c, run, s)
    ensures |s.hist| > 0 && s.tail == 1 && 0 in s.copied && s.copied[0] != s.hist[0]
  {
    run, s := FullRing(c);
    run, s := StartEviction(c, run, s);
    run, s := StartAppend(c, run, s, 1);
    run, s := CopyRow(c, run, s);
    var row := s.evictor.rows[0];
    assert row[0] == 1 && Handed(0, [row])[0] == row;
    Take(c, run, s, StoreTail);
    run, s := run + [StoreTail], Next(c, s, StoreTail);
  }
}
