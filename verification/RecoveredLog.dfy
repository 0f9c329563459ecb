/** The log of a sensor whose window was recovered from its own blocks: recovered entries are written a second time. */
module RecoveredLog {
  import opened Bytes
  import opened ColdTier
  import opened SensorRing
  import opened Evictor
  import opened SensorLog
  import opened Rehydrate
  import R = Rehydration

  /** What recovery keeps of one block is among what that block reads back as. */
  lemma KeptOfBlock(vals: Store, id: bytes, block: i64, io: (bool, bool), cutoff: int)
    ensures var b := ReadsOf(vals, id, block, io.0, io.1);
      multiset(if R.Skipped(b) then [] else R.Eligible(R.Rows(b), cutoff)) <= multiset(SensorLog.Rows(Blocks(vals, id), block))
  {
    var b := ReadsOf(vals, id, block, io.0, io.1);
    R.EligibleIsInWindow(R.Rows(b), cutoff);
    RowsOfBlock(vals, id, block, io);
    if R.Rows(b) == [] {
      assert R.Eligible([], cutoff) == [];
    }
  }

  lemma RowsOfBlock(vals: Store, id: bytes, block: i64, io: (bool, bool))
    ensures var rows := R.Rows(ReadsOf(vals, id, block, io.0, io.1));
      rows == [] || rows == SensorLog.Rows(Blocks(vals, id), block)
  {
  }

  lemma MultisetConcat<T>(a: seq<T>, b: seq<T>, c: seq<T>, d: seq<T>)
    requires multiset(a) <= multiset(d) && multiset(b) <= multiset(c)
    ensures multiset(a + b) <= multiset(c + d)
  {
  }

  lemma NewestFirst(vals: Store, id: bytes, ids: seq<i64>, io: seq<(bool, bool)>)
    requires |io| == |ids| && ids != []
    ensures AllReads(vals, id, ids, io) != []
    ensures AllReads(vals, id, ids, io)[0] == ReadsOf(vals, id, ids[|ids| - 1], io[0].0, io[0].1)
    ensures AllReads(vals, id, ids, io)[1..] == AllReads(vals, id, ids[..|ids| - 1], io[1..])
  {
    hide ReadsOf;
  }

  /** Everything recovered is in the blocks, as often as it is recovered. */
  lemma {:induction false} RecoveredIsStored(vals: Store, id: bytes, ids: seq<i64>, io: seq<(bool, bool)>, cutoff: int)
    requires |io| == |ids|
    ensures multiset(R.AllEligible(AllReads(vals, id, ids, io), cutoff)) <= multiset(ReadListed(Blocks(vals, id), ids))
  {
    hide ReadsOf, AllReads, Blocks, R.Eligible, R.Rows, R.Skipped, SensorLog.Rows;
    if ids == [] {
      assert R.AllEligible(AllReads(vals, id, ids, io), cutoff) == [];
    } else {
      var n := |ids| - 1;
      var all, rest := AllReads(vals, id, ids, io), AllReads(vals, id, ids[..n], io[1..]);
      RecoveredIsStored(vals, id, ids[..n], io[1..], cutoff);
      NewestFirst(vals, id, ids, io);
      KeptOfBlock(vals, id, ids[n], io[0], cutoff);
      var first := if R.Skipped(all[0]) then [] else R.Eligible(R.Rows(all[0]), cutoff);
      var stored, last := ReadListed(Blocks(vals, id), ids[..n]), SensorLog.Rows(Blocks(vals, id), ids[n]);
      MultisetConcat(first, R.AllEligible(rest, cutoff), stored, last);
    }
  }

  /** The state a sensor starts from after recovery. */
  ghost function RecoveredSensor(history: seq<Entry>, vals: Store, n: nat): Sensor {
    Sensor(history, 0, 0, n, vals, [])
  }

  /** A ring that recovery has filled is a start of the log. */
  lemma FilledRingStarts(c: Config, ring: SensorRing, es: seq<Record>, norm: Record -> u32, vals: Store, n: nat)
    requires c.Ok() && Filling(ring, es, norm) && ring.capacity == c.capacity && ring.schema == c.schema
    requires Clean(vals) && Dense(Blocks(vals, c.id), n)
    ensures Initial(c, RecoveredSensor(ring.history, vals, n)) && RecordsIn(ring.history) == es
  {
    hide Blocks, Clean, Dense;
    forall i | 0 <= i < |ring.history| ensures c.schema.Conforms(ring.history[i].rec) {
      assert ring.Slots()[ring.Slot(i)] == ring.history[i];
    }
  }

  /** From a recovered window on, with nothing lost since: the blocks and the window read back as the old blocks, then the recovered
    * entries again, then what was appended. Each recovered entry is in the old blocks as well, so it comes twice. */
  lemma RecoveredEntriesComeTwice(c: Config, vals: Store, ids: seq<i64>, io: seq<(bool, bool)>, cutoff: int, n: nat,
                                  history: seq<Entry>, run: seq<Action>, s: Sensor)
    requires |io| == |ids| && ListsBlocks(vals, c.id, ids) && Dense(Blocks(vals, c.id), n) && n <= MAX_BLOCK
    requires R.Replayed(AllReads(vals, c.id, ids, io), cutoff, c.capacity, []) == R.Installed(RecordsIn(history))
    requires Reached(c, RecoveredSensor(history, vals, n), run, s)
    requires s.tail <= |s.history| && s.overwritten == 0 && Tally(s.fates, Fate.Failed) == 0 && Tally(s.fates, Truncated) == 0
    ensures history <= s.history
    ensures var stored := ReadBack(Blocks(vals, c.id), n);
      && ReadBack(Blocks(s.vals, c.id), s.next) + RecordsIn(s.history[s.Begin(c.capacity)..])
         == stored + RecordsIn(history) + RecordsIn(s.history[|history|..])
      && multiset(RecordsIn(history)) <= multiset(stored)
  {
    hide Blocks, Clean, ReadBack, ReadListed, Reached, R.Replayed, R.AllEligible, R.GivesUp, AllReads, RecordsIn;
    var s0 := RecoveredSensor(history, vals, n);
    HistoryGrows(c, s0, run, s);
    LogIsHistory(c, s0, run, s);
    R.InstalledIff(AllReads(vals, c.id, ids, io), cutoff, c.capacity);
    RecoveredIsStored(vals, c.id, ids, io, cutoff);
    ListedInOrder(vals, c.id, ids, n);
    ListedReadBack(Blocks(vals, c.id), ids);
    SplitHistory(history, s.history);
    var stored := ReadBack(Blocks(vals, c.id), n);
    assert stored + (RecordsIn(history) + RecordsIn(s.history[|history|..])) == stored + RecordsIn(history) + RecordsIn(s.history[|history|..]);
  }

  lemma SplitHistory(front: seq<Entry>, all: seq<Entry>)
    requires front <= all
    ensures RecordsIn(all) == RecordsIn(front) + RecordsIn(all[|front|..])
  {
  }
}
