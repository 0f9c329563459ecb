/** What recovery puts back into a sensor's ring, and when it puts back nothing. */
module Rehydration {
  import opened Bytes
  import opened Wrappers
  import opened Errors
  import opened BlockCodec
  import opened CrcBursts
  import opened StorageKeys
  import opened ColdTier
  import opened RocksBackend
  import opened SensorRing
  import opened BlockRecords

  /** The two reads of one block: the header peek, then the whole block. */
  datatype Reads = Reads(peek: ReadResult, full: ReadResult)

  datatype Replay = Installed(entries: seq<Record>) | Abandoned

  function Eligible(rs: seq<Record>, cutoff: int): seq<Record> {
    if rs == [] then []
    else Eligible(rs[..|rs| - 1], cutoff) + (if rs[|rs| - 1].ts >= cutoff then [rs[|rs| - 1]] else [])
  }

  predicate Bad(r: ReadResult) {
    r == Failed(Error.Corruption)
  }

  /** A block that cannot be decoded, at either read, is skipped. */
  predicate Skipped(b: Reads) {
    Bad(b.peek) || (b.peek.Got? && Bad(b.full))
  }

  function Rows(b: Reads): seq<Record> {
    if b.peek.Got? && b.full.Got? && WellFormed(b.full.contents) then RecordsOf(b.full.contents) else []
  }

  /** One block of the replay: what the ring then holds, or None where the loop returns. */
  function ReplayBlock(b: Reads, cutoff: int, capacity: nat, held: seq<Record>): Option<seq<Record>> {
    if Bad(b.peek) then Some(held)
    else if !b.peek.Got? || b.peek.contents.tEnd < cutoff then None
    else if Bad(b.full) then Some(held)
    else if !b.full.Got? then None
    else
      var more := Eligible(Rows(b), cutoff);
      if |held| + |more| > capacity then None else Some(held + more)
  }

  /** The replay loop, over the blocks still to come, newest first. */
  function Replayed(blocks: seq<Reads>, cutoff: int, capacity: nat, held: seq<Record>): Replay
    decreases |blocks|
  {
    if blocks == [] then Installed(held)
    else match ReplayBlock(blocks[0], cutoff, capacity, held)
         case None => Abandoned
         case Some(more) => Replayed(blocks[1..], cutoff, capacity, more)
  }

  // ---- The same in terms of the blocks as a whole ----

  /** A block at which the loop gives up: an error other than corruption, or a t_end before the cutoff. */
  predicate GivesUp(b: Reads, cutoff: int) {
    !Bad(b.peek) && (!b.peek.Got? || b.peek.contents.tEnd < cutoff || (!Bad(b.full) && !b.full.Got?))
  }

  /** Every entry inside the window, block after block in the order given. */
  function AllEligible(blocks: seq<Reads>, cutoff: int): seq<Record> {
    if blocks == [] then []
    else (if Skipped(blocks[0]) then [] else Eligible(Rows(blocks[0]), cutoff)) + AllEligible(blocks[1..], cutoff)
  }

  predicate NoneGivesUp(blocks: seq<Reads>, cutoff: int) {
    blocks == [] || (!GivesUp(blocks[0], cutoff) && NoneGivesUp(blocks[1..], cutoff))
  }

  lemma {:induction false} NoneGivesUpMeans(blocks: seq<Reads>, cutoff: int)
    ensures NoneGivesUp(blocks, cutoff) <==> forall i :: 0 <= i < |blocks| ==> !GivesUp(blocks[i], cutoff)
  {
    hide GivesUp;
    if blocks == [] {
    } else {
      NoneGivesUpMeans(blocks[1..], cutoff);
      assert forall i :: 0 <= i < |blocks| - 1 ==> blocks[1..][i] == blocks[i + 1];
      assert forall i :: 0 < i < |blocks| ==> blocks[i] == blocks[1..][i - 1];
    }
  }

  lemma {:induction false} ReplayFrom(blocks: seq<Reads>, cutoff: int, capacity: nat, held: seq<Record>)
    requires |held| <= capacity
    ensures Replayed(blocks, cutoff, capacity, held)
         == if NoneGivesUp(blocks, cutoff) && |held| + |AllEligible(blocks, cutoff)| <= capacity
            then Installed(held + AllEligible(blocks, cutoff)) else Abandoned
    decreases |blocks|
  {
    hide Eligible, Rows;
    if blocks == [] {
      assert held + [] == held;
    } else {
      var b, rest := blocks[0], blocks[1..];
      var tail := AllEligible(rest, cutoff);
      if Skipped(b) {
        ReplayFrom(rest, cutoff, capacity, held);
        assert [] + tail == tail;
      } else if !GivesUp(b, cutoff) {
        var more := Eligible(Rows(b), cutoff);
        if |held| + |more| <= capacity {
          ReplayFrom(rest, cutoff, capacity, held + more);
          assert held + more + tail == held + (more + tail);
        }
      }
    }
  }

  /** Recovery installs a ring if and only if no block makes it give up and everything eligible fits;
    * then the ring holds exactly the eligible entries, newest block first, in stored order within a block. */
  lemma InstalledIff(blocks: seq<Reads>, cutoff: int, capacity: nat)
    ensures Replayed(blocks, cutoff, capacity, []).Installed? <==>
              (forall i :: 0 <= i < |blocks| ==> !GivesUp(blocks[i], cutoff)) && |AllEligible(blocks, cutoff)| <= capacity
    ensures Replayed(blocks, cutoff, capacity, []).Installed? ==>
              Replayed(blocks, cutoff, capacity, []).entries == AllEligible(blocks, cutoff)
  {
    hide AllEligible, GivesUp, Replayed;
    ReplayFrom(blocks, cutoff, capacity, []);
    NoneGivesUpMeans(blocks, cutoff);
    assert [] + AllEligible(blocks, cutoff) == AllEligible(blocks, cutoff);
  }

  lemma {:induction false} EligibleIsInWindow(rs: seq<Record>, cutoff: int)
    ensures forall i :: 0 <= i < |Eligible(rs, cutoff)| ==> Eligible(rs, cutoff)[i].ts >= cutoff
    ensures |Eligible(rs, cutoff)| <= |rs|
    ensures multiset(Eligible(rs, cutoff)) <= multiset(rs)
    ensures forall r :: r in rs && r.ts >= cutoff ==> multiset(Eligible(rs, cutoff))[r] == multiset(rs)[r]
  {
    if rs == [] {
    } else {
      var n := |rs| - 1;
      EligibleIsInWindow(rs[..n], cutoff);
      assert rs == rs[..n] + [rs[n]];
    }
  }

  /** One block whose t_end lies before the cutoff, however old, throws away every newer one. */
  lemma StaleBlockDiscardsAll(blocks: seq<Reads>, stale: Reads, cutoff: int, capacity: nat)
    requires stale.peek.Got? && stale.peek.contents.tEnd < cutoff
    ensures Replayed(blocks + [stale], cutoff, capacity, []) == Abandoned
  {
    var all := blocks + [stale];
    assert all[|blocks|] == stale && GivesUp(stale, cutoff);
    InstalledIff(all, cutoff, capacity);
  }

  /** A stored block hit by a burst of at most 32 bits that leaves its layout alone costs recovery that block and nothing else. */
  lemma DamagedBlockIsSkipped(vals: Store, id: bytes, block: i64, image: bytes, fullOk: bool, at: nat, n: nat,
                              newer: seq<Reads>, older: seq<Reads>, cutoff: int, capacity: nat)
    requires id != [] && Key(id, block) in vals && Decode(image).Ok? && n == Decode(image).contents.shape.SerializedSize() <= |image|
    requires var d := vals[Key(id, block)];
      n <= |d| && |d| >= HEADER_SIZE && Burst(image[..n], d[..n], at) && ParseHeader(d).ShapeOf().SerializedSize() == n
    ensures var b := Reads(ReadOutcome(vals, id, block, true), ReadOutcome(vals, id, block, fullOk));
      Replayed(newer + [b] + older, cutoff, capacity, []) == Replayed(newer + older, cutoff, capacity, [])
  {
    hide Decode, ParseHeader, Burst, Replayed, AllEligible;
    var b := Reads(ReadOutcome(vals, id, block, true), ReadOutcome(vals, id, block, fullOk));
    BitBurstRejected(image, vals[Key(id, block)], at, n);
    assert Skipped(b);
    SkippedChangesNothing(newer, b, older, cutoff, capacity, []);
  }

  lemma {:induction false} SkippedChangesNothing(newer: seq<Reads>, b: Reads, older: seq<Reads>, cutoff: int, capacity: nat, held: seq<Record>)
    requires Bad(b.peek)
    ensures Replayed(newer + [b] + older, cutoff, capacity, held) == Replayed(newer + older, cutoff, capacity, held)
    decreases |newer|
  {
    hide Eligible, Rows;
    if newer == [] {
      assert ([] + [b] + older)[1..] == older == [] + older;
    } else {
      assert (newer + [b] + older)[1..] == newer[1..] + [b] + older && (newer + older)[1..] == newer[1..] + older;
      var next := ReplayBlock(newer[0], cutoff, capacity, held);
      if next.Some? {
        SkippedChangesNothing(newer[1..], b, older, cutoff, capacity, next.value);
      }
    }
  }

  lemma EligibleNext(rs: seq<Record>, cutoff: int, i: nat)
    requires i < |rs|
    ensures Eligible(rs[..i + 1], cutoff) == Eligible(rs[..i], cutoff) + (if rs[i].ts >= cutoff then [rs[i]] else [])
  {
    assert rs[..i + 1][..i] == rs[..i];
  }

  lemma {:induction false} EligiblePrefix(rs: seq<Record>, cutoff: int, i: nat)
    requires i <= |rs|
    ensures |Eligible(rs[..i], cutoff)| <= |Eligible(rs, cutoff)|
    decreases |rs| - i
  {
    if i < |rs| {
      EligibleNext(rs, cutoff, i);
      EligiblePrefix(rs, cutoff, i + 1);
    } else {
      assert rs[..i] == rs;
    }
  }
}
