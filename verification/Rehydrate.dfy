/** RehydrateSensorRing: replaying a sensor's blocks, newest first, into a fresh ring. */
module Rehydrate {
  import opened Bytes
  import opened Rows
  import opened Wrappers
  import opened Errors
  import opened Modular
  import opened BlockCodec
  import opened BlockBuffers
  import opened StorageKeys
  import opened ColdTier
  import opened RocksBackend
  import opened SensorRing
  import opened BlockRecords
  import opened Evictor
  import R = Rehydration

  /** A ring being filled with recovered rows and their recomputed norms: nothing evicted, nothing overwritten yet. */
  ghost predicate Filling(ring: SensorRing, held: seq<Record>, norm: Record -> u32)
    reads ring, ring.Arrays
  {
    && ring.Valid() && RecordsIn(ring.history) == held
    && (forall i :: 0 <= i < |ring.history| ==> ring.history[i].norm == norm(ring.history[i].rec))
    && ring.tail == 0 && ring.head <= ring.capacity && ring.overwrittenEntries == 0 == ring.overwriteEvents
  }

  /** Row i as the buffers of a full read hold it. */
  method RowAt(sch: Schema, i: nat, ts: array<i64>, vec: array<byte>, scales: array?<u32>, pl: array?<byte>, ghost c: Contents)
    returns (r: Record)
    requires WellFormed(c) && SchemaOf(c) == sch && i < c.shape.count
    requires |c.timestamps| <= ts.Length && ts[..|c.timestamps|] == c.timestamps
    requires |c.vectors| <= vec.Length && vec[..|c.vectors|] == c.vectors
    requires (scales != null <==> sch.dtype == Int8) && (scales != null ==> |c.scales| <= scales.Length && scales[..|c.scales|] == c.scales)
    requires (pl != null <==> sch.payloadSize > 0) && (pl != null ==> |c.payloads| <= pl.Length && pl[..|c.payloads|] == c.payloads)
    ensures r == RecordsOf(c)[i]
  {
    var w := sch.RowBytes();
    ChunkAt(c.vectors, w, c.shape.count, i);
    assert vec[i * w..(i + 1) * w] == vec[..|c.vectors|][i * w..(i + 1) * w];
    assert ts[i] == ts[..|c.timestamps|][i];
    ChunkAt(c.payloads, sch.payloadSize, c.shape.count, i);
    var payload := [];
    if pl != null {
      assert pl[i * sch.payloadSize..(i + 1) * sch.payloadSize] == pl[..|c.payloads|][i * sch.payloadSize..(i + 1) * sch.payloadSize];
      payload := pl[i * sch.payloadSize..(i + 1) * sch.payloadSize];
    } else {
      NoPayload(c, i);
    }
    var scale: u32 := 0;
    if scales != null {
      assert scales[i] == scales[..|c.scales|][i];
      scale := scales[i];
    }
    r := Record(ts[i], vec[i * w..(i + 1) * w], scale, payload);
  }

  lemma NoPayload(c: Contents, i: nat)
    requires WellFormed(c) && i < c.shape.count && c.shape.payloadSize == 0
    ensures RecordsOf(c)[i].payload == []
  {
    RecordsConform(c);
    assert SchemaOf(c).Conforms(RecordsOf(c)[i]);
  }

  /** Appending one recovered row. */
  method AppendRow(ring: SensorRing, r: Record, norm: Record -> u32, ghost held: seq<Record>)
    requires Filling(ring, held, norm) && ring.head < ring.capacity && ring.schema.Conforms(r)
    modifies ring, ring.Arrays
    ensures Filling(ring, held + [r], norm)
  {
    ghost var before := ring.Slots()[ring.Slot(ring.head)].rec;
    assert ring.schema.Conforms(before);
    ring.Append(r.ts, r.vec, norm(r), if ring.schema.payloadSize > 0 then Some(r.payload) else None, r.scale);
    assert RecordsIn(ring.history) == held + [r];
  }

  /** The buffers of one full read: as large as the header says, or absent. */
  datatype RowBuffers = RowBuffers(ts: array<i64>, vec: array<byte>, scales: array?<u32>, pl: array?<byte>) {
    function Objects(): set<object> {
      {ts as object, vec as object} + (if scales == null then {} else {scales as object}) + (if pl == null then {} else {pl as object})
    }

    ghost predicate Carry(sch: Schema, c: Contents)
      reads Objects()
    {
      && WellFormed(c) && SchemaOf(c) == sch
      && |c.timestamps| <= ts.Length && ts[..|c.timestamps|] == c.timestamps
      && |c.vectors| <= vec.Length && vec[..|c.vectors|] == c.vectors
      && (scales != null <==> sch.dtype == Int8) && (scales != null ==> |c.scales| <= scales.Length && scales[..|c.scales|] == c.scales)
      && (pl != null <==> sch.payloadSize > 0) && (pl != null ==> |c.payloads| <= pl.Length && pl[..|c.payloads|] == c.payloads)
    }
  }

  /** One row of the inner loop. */
  method ReplayRow(ring: SensorRing, bufs: RowBuffers, i: nat, cutoff: int, norm: Record -> u32,
                   ghost held: seq<Record>, ghost rs: seq<Record>, ghost c: Contents)
    returns (full: bool)
    requires bufs.Carry(ring.schema, c) && rs == RecordsOf(c) && i < |rs|
    requires Filling(ring, held + R.Eligible(rs[..i], cutoff), norm)
    modifies ring, ring.Arrays
    ensures full ==> |held| + |R.Eligible(rs[..i + 1], cutoff)| > ring.capacity
    ensures !full ==> Filling(ring, held + R.Eligible(rs[..i + 1], cutoff), norm)
  {
    hide SensorRing.Valid, RecordsOf, R.Eligible;
    var r := RowAt(ring.schema, i, bufs.ts, bufs.vec, bufs.scales, bufs.pl, c);
    R.EligibleNext(rs, cutoff, i);
    ghost var done := R.Eligible(rs[..i], cutoff);
    FillingCount(ring, held + done, norm);
    if r.ts < cutoff {
      assert done + [] == done;
      return false;
    }
    if ring.head >= ring.capacity {
      return true;
    }
    RowConforms(c, i);
    AppendRow(ring, r, norm, held + done);
    assert held + done + [r] == held + (done + [r]);
    return false;
  }

  lemma FillingCount(ring: SensorRing, held: seq<Record>, norm: Record -> u32)
    requires Filling(ring, held, norm)
    ensures |held| == ring.head <= ring.capacity
  {
  }

  lemma RowConforms(c: Contents, i: nat)
    requires WellFormed(c) && i < |RecordsOf(c)|
    ensures SchemaOf(c).Conforms(RecordsOf(c)[i])
  {
    RecordsConform(c);
  }

  lemma Counted(bufs: RowBuffers, sch: Schema, c: Contents)
    requires bufs.Carry(sch, c)
    ensures WellFormed(c) && |RecordsOf(c)| == c.shape.count
  {
  }

  /** The inner loop: entries of one block inside the window go into the ring, until it is full. */
  method ReplayRows(ring: SensorRing, bufs: RowBuffers, cutoff: int, norm: Record -> u32, ghost held: seq<Record>, ghost c: Contents, count: nat)
    returns (fits: bool)
    requires Filling(ring, held, norm) && bufs.Carry(ring.schema, c) && count == c.shape.count
    requires bufs.Objects() !! ring.Arrays && ring !in bufs.Objects()
    modifies ring, ring.Arrays
    ensures fits <==> |held| + |R.Eligible(RecordsOf(c), cutoff)| <= ring.capacity
    ensures fits ==> Filling(ring, held + R.Eligible(RecordsOf(c), cutoff), norm)
  {
    hide SensorRing.Valid, R.Eligible, RowBuffers.Carry, Filling, RecordsOf;
    Counted(bufs, ring.schema, c);
    ghost var rs := RecordsOf(c);
    NothingYet(rs, cutoff, held);
    for i := 0 to count
      invariant Filling(ring, held + R.Eligible(rs[..i], cutoff), norm)
    {
      var full := ReplayRow(ring, bufs, i, cutoff, norm, held, rs, c);
      if full {
        R.EligiblePrefix(rs, cutoff, i + 1);
        return false;
      }
    }
    assert rs[..count] == rs;
    FillingCount(ring, held + R.Eligible(rs, cutoff), norm);
    return true;
  }

  lemma NothingYet(rs: seq<Record>, cutoff: int, held: seq<Record>)
    ensures held + R.Eligible(rs[..0], cutoff) == held
  {
  }

  /** Every stored block of the sensor that decodes has the engine's schema. */
  ghost predicate Uniform(vals: Store, id: bytes, sch: Schema) {
    forall b: i64 :: Key(id, b) in vals && Decode(vals[Key(id, b)]).Ok? ==> SchemaOf(Decode(vals[Key(id, b)]).contents) == sch
  }

  lemma FailedIsNotOk(vals: Store, id: bytes, block: i64, ok: bool)
    ensures ReadOutcome(vals, id, block, ok).Failed? ==> ReadOutcome(vals, id, block, ok).error != OK
  {
  }

  /** Buffers as large as a header asks for. */
  method Allocate(s: Shape) returns (b: RowBuffers)
    ensures fresh(b.Objects())
    ensures b.ts.Length == s.count && b.vec.Length == s.VectorBytes()
    ensures (b.scales != null <==> s.dtype == Int8) && (b.scales != null ==> b.scales.Length == s.count)
    ensures (b.pl != null <==> s.payloadSize > 0) && (b.pl != null ==> b.pl.Length == s.PayloadBytes() && b.pl != b.vec)
  {
    var ts := new i64[s.count];
    var vec := new byte[s.VectorBytes()];
    var scales: array?<u32> := null;
    if s.dtype == Int8 {
      scales := new u32[s.count];
    }
    var pl: array?<byte> := null;
    if s.payloadSize > 0 {
      pl := new byte[s.PayloadBytes()];
    }
    b := RowBuffers(ts, vec, scales, pl);
  }

  method FullRead(backend: Backend, id: bytes, block: i64, ok: bool, hdr: DecodedHeader, sch: Schema, ghost c: Contents)
    returns (rc: Error, bufs: RowBuffers)
    requires backend.Valid() && WellFormed(c) && SchemaOf(c) == sch && hdr.shape == c.shape
    requires ReadOutcome(backend.db.vals, id, block, ok).Got? ==> ReadOutcome(backend.db.vals, id, block, ok).contents == c
    ensures fresh(bufs.Objects())
    ensures rc == OK <==> ReadOutcome(backend.db.vals, id, block, ok).Got?
    ensures rc != OK ==> ReadOutcome(backend.db.vals, id, block, ok) == Failed(rc)
    ensures rc == OK ==> bufs.Carry(sch, c)
  {
    hide ReadOutcome;
    FailedIsNotOk(backend.db.vals, id, block, ok);
    bufs := Allocate(hdr.shape);
    var h;
    rc, h := backend.ReadBlock(id, block, ok, Buffers(bufs.ts, bufs.vec, bufs.scales, bufs.pl));
  }

  /** What the two reads of one stored block come to. */
  ghost function ReadsOf(vals: Store, id: bytes, block: i64, peekOk: bool, fullOk: bool): R.Reads {
    R.Reads(ReadOutcome(vals, id, block, peekOk), ReadOutcome(vals, id, block, fullOk))
  }

  lemma GotContents(vals: Store, id: bytes, block: i64, ok: bool, sch: Schema)
    requires Uniform(vals, id, sch) && ReadOutcome(vals, id, block, ok).Got?
    ensures WellFormed(ReadOutcome(vals, id, block, ok).contents) && SchemaOf(ReadOutcome(vals, id, block, ok).contents) == sch
    ensures forall ok' :: ReadOutcome(vals, id, block, ok').Got? ==>
              ReadOutcome(vals, id, block, ok').contents == ReadOutcome(vals, id, block, ok).contents
  {
    AcceptedWellFormed(vals[Key(id, block)]);
  }

  /** The header-only read. */
  method Peek(backend: Backend, id: bytes, block: i64, ok: bool) returns (rc: Error, hdr: Option<DecodedHeader>)
    requires backend.Valid()
    ensures match ReadOutcome(backend.db.vals, id, block, ok)
            case Got(c) => rc == OK && hdr == Some(DecodedHeader(c.shape, c.tStart, c.tEnd))
            case Failed(e) => rc == e && rc != OK
  {
    hide ReadOutcome;
    FailedIsNotOk(backend.db.vals, id, block, ok);
    rc, hdr := backend.ReadBlock(id, block, ok, NO_BUFFERS);
  }

  /** One block of the outer loop; false is the early return. */
  method ReplayStored(backend: Backend, id: bytes, block: i64, peekOk: bool, fullOk: bool,
                      ring: SensorRing, cutoff: int, norm: Record -> u32, ghost held: seq<Record>)
    returns (go: bool)
    requires backend.Valid() && Uniform(backend.db.vals, id, ring.schema)
    requires Filling(ring, held, norm) && backend !in ring.Arrays && backend.table !in ring.Arrays && backend.table.t !in ring.Arrays
    modifies ring, ring.Arrays
    ensures go <==> R.ReplayBlock(ReadsOf(backend.db.vals, id, block, peekOk, fullOk), cutoff, ring.capacity, held).Some?
    ensures go ==> Filling(ring, R.ReplayBlock(ReadsOf(backend.db.vals, id, block, peekOk, fullOk), cutoff, ring.capacity, held).value, norm)
  {
    hide ReadOutcome, Uniform, Filling, Backend.Valid, R.Eligible, RowBuffers.Carry, SensorRing.Valid;
    var peek, hdr := Peek(backend, id, block, peekOk);
    if peek == Error.Corruption {
      return true;
    }
    if peek != OK || hdr.value.tEnd < cutoff {
      return false;
    }
    GotContents(backend.db.vals, id, block, peekOk, ring.schema);
    ghost var c := ReadOutcome(backend.db.vals, id, block, peekOk).contents;
    var rc, bufs := FullRead(backend, id, block, fullOk, hdr.value, ring.schema, c);
    if rc == Error.Corruption {
      return true;
    }
    if rc != OK {
      return false;
    }
    go := ReplayRows(ring, bufs, cutoff, norm, held, c, hdr.value.shape.count);
  }

  /** The reads of all blocks, newest first. */
  ghost function AllReads(vals: Store, id: bytes, ids: seq<i64>, io: seq<(bool, bool)>): (rs: seq<R.Reads>)
    requires |io| == |ids|
    ensures |rs| == |ids|
  {
    seq(|ids|, k requires 0 <= k < |ids| => ReadsOf(vals, id, ids[|ids| - 1 - k], io[k].0, io[k].1))
  }

  lemma ReplayNext(blocks: seq<R.Reads>, k: nat, cutoff: int, capacity: nat, held: seq<Record>)
    requires k < |blocks|
    ensures R.Replayed(blocks[k..], cutoff, capacity, held)
         == match R.ReplayBlock(blocks[k], cutoff, capacity, held)
            case None => R.Abandoned
            case Some(more) => R.Replayed(blocks[k + 1..], cutoff, capacity, more)
  {
    assert blocks[k..][1..] == blocks[k + 1..];
  }

  /** RehydrateSensorRing. Every early return leaves the slot without the ring that was being filled. */
  method RehydrateSensorRing(backend: Backend, id: bytes, slot: SensorSlot, ids: seq<i64>, cutoff: int,
                             capacity: nat, sch: Schema, memory: seq<Record>, norm: Record -> u32, io: seq<(bool, bool)>)
    requires backend.Valid() && Uniform(backend.db.vals, id, sch) && |io| == |ids|
    requires HasSingleBit(capacity) && |memory| == capacity && forall i :: 0 <= i < capacity ==> sch.Conforms(memory[i])
    modifies slot`ring
    ensures ids == [] ==> slot.ring == old(slot.ring)
    ensures ids != [] ==>
      match R.Replayed(AllReads(backend.db.vals, id, ids, io), cutoff, capacity, [])
      case Abandoned => slot.ring == old(slot.ring)
      case Installed(es) =>
        slot.ring != null && fresh(slot.ring) && slot.ring.capacity == capacity && slot.ring.schema == sch && Filling(slot.ring, es, norm)
        && RecordsIn(slot.ring.history) == es && slot.ring.overwrittenEntries == 0
        && forall i :: 0 <= i < |slot.ring.history| ==> slot.ring.history[i].norm == norm(slot.ring.history[i].rec)
  {
    hide ReadOutcome, Uniform, Backend.Valid, R.Eligible, R.ReplayBlock, R.Replayed, SensorRing.Valid;
    if ids == [] {
      return;
    }
    var ring := new SensorRing(capacity, sch, memory);
    ghost var blocks := AllReads(backend.db.vals, id, ids, io);
    ghost var held: seq<Record> := [];
    assert RecordsIn([]) == [];
    assert blocks[0..] == blocks;
    var k := 0;
    while k < |ids|
      invariant 0 <= k <= |ids|
      invariant slot.ring == old(slot.ring)
      invariant Filling(ring, held, norm) && fresh(ring) && fresh(ring.Arrays)
      invariant R.Replayed(blocks, cutoff, capacity, []) == R.Replayed(blocks[k..], cutoff, capacity, held)
    {
      assert blocks[k] == ReadsOf(backend.db.vals, id, ids[|ids| - 1 - k], io[k].0, io[k].1);
      ReplayNext(blocks, k, cutoff, capacity, held);
      var go := ReplayStored(backend, id, ids[|ids| - 1 - k], io[k].0, io[k].1, ring, cutoff, norm, held);
      if !go {
        return;
      }
      held := R.ReplayBlock(blocks[k], cutoff, capacity, held).value;
      k := k + 1;
    }
    assert blocks[k..] == [];
    ReplayDone(cutoff, capacity, held);
    slot.ring := ring;
  }

  lemma ReplayDone(cutoff: int, capacity: nat, held: seq<Record>)
    ensures R.Replayed([], cutoff, capacity, held) == R.Installed(held)
  {
  }

  lemma {:induction false} AllAreEligible(rs: seq<Record>, cutoff: int)
    requires forall i :: 0 <= i < |rs| ==> rs[i].ts >= cutoff
    ensures R.Eligible(rs, cutoff) == rs
  {
    if rs == [] {
    } else {
      AllAreEligible(rs[..|rs| - 1], cutoff);
    }
  }

  /** A block written from a scratch that a larger pass had filled carries that pass's last timestamp. If that one is before the cutoff,
    * recovery gives up at the block although every entry in it is inside the window. */
  lemma LeftoverStampAbandons(rs: seq<Record>, sch: Schema, before: seq<i64>, cutoff: int, capacity: nat)
    requires 0 < |rs| < |before| && |rs| < 0x1_0000_0000 && Storable(sch) && AllConform(sch, rs)
    requires (forall i :: 0 <= i < |rs| ==> rs[i].ts >= cutoff) && before[|before| - 1] < cutoff
    ensures var c := ContentsFor(rs, sch, rs[0].ts, LastStamp(before, Stamps(rs)));
      && WellFormed(c) && R.Eligible(RecordsOf(c), cutoff) == rs
      && R.Replayed([R.Reads(Got(c), Got(c))], cutoff, capacity, []) == R.Abandoned
  {
    RecordsRoundTrip(rs, sch, rs[0].ts, LastStamp(before, Stamps(rs)));
    AllAreEligible(rs, cutoff);
  }
}
