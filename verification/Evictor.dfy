/** One eviction pass over one sensor: choose the cut, copy the evicted range out, advance the tail, write a block. */
module Evictor {
  import opened Bytes
  import opened Rows
  import opened Wrappers
  import opened Errors
  import opened BlockCodec
  import opened BlockBuffers
  import opened StorageKeys
  import opened ColdTier
  import opened RocksBackend
  import opened SensorRing
  import opened BlockRecords
  import opened Eviction

  function RecordsIn(es: seq<Entry>): (rs: seq<Record>)
    ensures |rs| == |es|
  {
    seq(|es|, i requires 0 <= i < |es| => es[i].rec)
  }

  function TimesOf(es: seq<Entry>): (ts: seq<int>)
    ensures |ts| == |es|
  {
    seq(|es|, i requires 0 <= i < |es| => es[i].rec.ts)
  }

  // ---- The scratch buffers ----

  /** resize, only ever upwards. */
  function Grown<T>(s: seq<T>, n: nat, zero: T): (g: seq<T>)
    ensures |g| == if |s| < n then n else |s|
    ensures s <= g
  {
    if |s| < n then s + seq(n - |s|, _ => zero) else s
  }

  /** memcpy into a buffer. */
  function Splice(s: bytes, p: nat, src: bytes): (r: bytes)
    requires p + |src| <= |s|
    ensures |r| == |s|
  {
    s[..p] + src + s[p + |src|..]
  }

  lemma SpliceRow(s: bytes, rows: seq<bytes>, width: nat, i: nat)
    requires Uniform(rows, width) && i < |rows| && |rows| * width <= |s|
    requires i * width <= |s| && s[..i * width] == Flatten(rows[..i])
    ensures i * width + width <= |s| && (i + 1) * width <= |s|
    ensures Splice(s, i * width, rows[i])[..(i + 1) * width] == Flatten(rows[..i + 1])
  {
    RowBound(i, |rows|, width);
    assert rows[..i + 1][..i] == rows[..i];
  }

  lemma StampsNext(ts: seq<i64>, rs: seq<Record>, i: nat)
    requires i < |rs| <= |ts| && ts[..i] == Stamps(rs[..i])
    ensures ts[i := rs[i].ts][..i + 1] == Stamps(rs[..i + 1])
  {
    assert ts[i := rs[i].ts][..i + 1] == ts[..i] + [rs[i].ts];
  }

  lemma ScalesNext(ws: seq<u32>, rs: seq<Record>, i: nat)
    requires i < |rs| <= |ws| && ws[..i] == Scales(rs[..i])
    ensures ws[i := rs[i].scale][..i + 1] == Scales(rs[..i + 1])
  {
    assert ws[i := rs[i].scale][..i + 1] == ws[..i] + [rs[i].scale];
  }

  lemma VectorsNext(s: bytes, sch: Schema, rs: seq<Record>, i: nat)
    requires AllConform(sch, rs) && i < |rs| && |rs| * sch.RowBytes() <= |s|
    requires i * sch.RowBytes() <= |s| && s[..i * sch.RowBytes()] == Flatten(Vectors(rs[..i]))
    ensures i * sch.RowBytes() + sch.RowBytes() <= |s| && (i + 1) * sch.RowBytes() <= |s|
    ensures Splice(s, i * sch.RowBytes(), rs[i].vec)[..(i + 1) * sch.RowBytes()] == Flatten(Vectors(rs[..i + 1]))
  {
    assert Vectors(rs[..i]) == Vectors(rs)[..i] && Vectors(rs[..i + 1]) == Vectors(rs)[..i + 1];
    SpliceRow(s, Vectors(rs), sch.RowBytes(), i);
  }

  lemma PayloadsNext(s: bytes, sch: Schema, rs: seq<Record>, i: nat)
    requires AllConform(sch, rs) && i < |rs| && |rs| * sch.payloadSize <= |s|
    requires i * sch.payloadSize <= |s| && s[..i * sch.payloadSize] == Flatten(Payloads(rs[..i]))
    ensures i * sch.payloadSize + sch.payloadSize <= |s| && (i + 1) * sch.payloadSize <= |s|
    ensures Splice(s, i * sch.payloadSize, rs[i].payload)[..(i + 1) * sch.payloadSize] == Flatten(Payloads(rs[..i + 1]))
  {
    assert Payloads(rs[..i]) == Payloads(rs)[..i] && Payloads(rs[..i + 1]) == Payloads(rs)[..i + 1];
    SpliceRow(s, Payloads(rs), sch.payloadSize, i);
  }

  /** The block's t_end: the last element of the scratch timestamps, which never shrink. */
  function LastStamp(before: seq<i64>, ts: seq<i64>): i64
    requires ts != []
  {
    if |before| > |ts| then before[|before| - 1] else ts[|ts| - 1]
  }

  /** The scratch timestamps after a pass: its rows' in front, and behind them what a larger pass had left. */
  function ScratchAfter(before: seq<i64>, ts: seq<i64>): seq<i64> {
    if |before| > |ts| then ts + before[|ts|..] else ts
  }

  class EvictScratch {
    var timestamps: seq<i64>
    var vectors: bytes
    var scales: seq<u32>
    var payloads: bytes

    constructor ()
      ensures timestamps == [] && vectors == [] && scales == [] && payloads == []
    {
      timestamps, vectors, scales, payloads := [], [], [], [];
    }

    // Each column holds the first n records, with room for all of them.

    ghost predicate StampsIn(rs: seq<Record>, n: nat)
      requires n <= |rs|
      reads `timestamps
    {
      |rs| <= |timestamps| && timestamps[..n] == Stamps(rs[..n])
    }

    ghost predicate VectorsIn(sch: Schema, rs: seq<Record>, n: nat)
      requires n <= |rs|
      reads `vectors
    {
      && |rs| * sch.RowBytes() <= |vectors| && n * sch.RowBytes() <= |vectors|
      && vectors[..n * sch.RowBytes()] == Flatten(Vectors(rs[..n]))
    }

    ghost predicate ScalesIn(sch: Schema, rs: seq<Record>, n: nat)
      requires n <= |rs|
      reads `scales
    {
      sch.dtype == Int8 ==> |rs| <= |scales| && scales[..n] == Scales(rs[..n])
    }

    ghost predicate PayloadsIn(sch: Schema, rs: seq<Record>, n: nat)
      requires n <= |rs|
      reads `payloads
    {
      sch.payloadSize > 0 ==>
        && |rs| * sch.payloadSize <= |payloads| && n * sch.payloadSize <= |payloads|
        && payloads[..n * sch.payloadSize] == Flatten(Payloads(rs[..n]))
    }

    ghost predicate Starts(sch: Schema, rs: seq<Record>, n: nat)
      requires n <= |rs|
      reads this
    {
      StampsIn(rs, n) && VectorsIn(sch, rs, n) && ScalesIn(sch, rs, n) && PayloadsIn(sch, rs, n)
    }

    /** Room for these records; the buffers only ever grow. */
    method Resize(sch: Schema, n: nat, ghost rs: seq<Record>)
      requires n == |rs|
      modifies this
      ensures Starts(sch, rs, 0) && timestamps == Grown(old(timestamps), n, 0)
    {
      assert rs[..0] == [];
      timestamps := Grown(timestamps, n, 0);
      vectors := Grown(vectors, n * sch.RowBytes(), 0);
      if sch.dtype == Int8 {
        scales := Grown(scales, n, 0);
      }
      if sch.payloadSize > 0 {
        payloads := Grown(payloads, n * sch.payloadSize, 0);
      }
    }

    method CopyVector(sch: Schema, i: nat, ghost rs: seq<Record>, vec: bytes)
      requires i < |rs| && vec == rs[i].vec && AllConform(sch, rs) && VectorsIn(sch, rs, i)
      modifies `vectors
      ensures VectorsIn(sch, rs, i + 1)
    {
      VectorsNext(vectors, sch, rs, i);
      vectors := Splice(vectors, i * sch.RowBytes(), vec);
    }

    method CopyScale(sch: Schema, i: nat, ghost rs: seq<Record>, scale: Option<u32>)
      requires i < |rs| && ScalesIn(sch, rs, i) && scale == if sch.dtype == Int8 then Some(rs[i].scale) else None
      modifies `scales
      ensures ScalesIn(sch, rs, i + 1)
    {
      if sch.dtype == Int8 && scale.Some? {
        ScalesNext(scales, rs, i);
        scales := scales[i := scale.value];
      }
    }

    method CopyPayload(sch: Schema, i: nat, ghost rs: seq<Record>, payload: Option<bytes>)
      requires i < |rs| && AllConform(sch, rs) && PayloadsIn(sch, rs, i)
      requires payload == if sch.payloadSize == 0 then None else Some(rs[i].payload)
      modifies `payloads
      ensures PayloadsIn(sch, rs, i + 1)
    {
      if sch.payloadSize > 0 {
        PayloadsNext(payloads, sch, rs, i);
        payloads := Splice(payloads, i * sch.payloadSize, payload.value);
      }
    }

    method CopyStamp(i: nat, ghost rs: seq<Record>, ts: i64)
      requires i < |rs| && ts == rs[i].ts && StampsIn(rs, i)
      modifies `timestamps
      ensures StampsIn(rs, i + 1) && timestamps == old(timestamps)[i := ts]
    {
      StampsNext(timestamps, rs, i);
      timestamps := timestamps[i := ts];
    }

    method CopyRow(ring: SensorRing, idx: nat, i: nat, ghost rs: seq<Record>)
      requires ring.Valid() && idx < ring.head <= idx + ring.capacity
      requires i < |rs| && rs[i] == ring.history[idx].rec && AllConform(ring.schema, rs) && Starts(ring.schema, rs, i)
      modifies this
      ensures Starts(ring.schema, rs, i + 1) && timestamps == old(timestamps)[i := rs[i].ts]
    {
      var ts := ring.TimestampAt(idx);
      var vec := ring.VectorAt(idx);
      var scale := ring.ScaleAt(idx);
      var payload := ring.PayloadAt(idx);
      CopyStamp(i, rs, ts);
      CopyVector(ring.schema, i, rs, vec);
      CopyScale(ring.schema, i, rs, scale);
      CopyPayload(ring.schema, i, rs, payload);
    }

    /** The copy loop: rows [begin, begin + n) of the ring, one slot at a time. */
    method CopyRows(ring: SensorRing, begin: nat, n: nat, ghost rs: seq<Record>)
      requires ring.Valid() && begin + n <= ring.head <= begin + ring.capacity && this !in ring.Arrays
      requires n == |rs| && AllConform(ring.schema, rs) && forall i :: 0 <= i < n ==> rs[i] == ring.history[begin + i].rec
      requires Starts(ring.schema, rs, 0)
      modifies this
      ensures Starts(ring.schema, rs, n)
      ensures |timestamps| == |old(timestamps)| && forall k :: n <= k < |timestamps| ==> timestamps[k] == old(timestamps)[k]
    {
      for i := 0 to n
        invariant Starts(ring.schema, rs, i)
        invariant |timestamps| == |old(timestamps)| && forall k :: n <= k < |timestamps| ==> timestamps[k] == old(timestamps)[k]
      {
        CopyRow(ring, begin + i, i, rs);
      }
    }

    method CopyOut(ring: SensorRing, begin: nat, n: nat, ghost rs: seq<Record>)
      requires ring.Valid() && begin + n <= ring.head <= begin + ring.capacity && this !in ring.Arrays
      requires n == |rs| > 0 && AllConform(ring.schema, rs) && forall i :: 0 <= i < n ==> rs[i] == ring.history[begin + i].rec
      modifies this
      ensures Starts(ring.schema, rs, n)
      ensures timestamps != [] && timestamps[0] == rs[0].ts
      ensures timestamps[|timestamps| - 1] == LastStamp(old(timestamps), Stamps(rs))
      ensures timestamps == ScratchAfter(old(timestamps), Stamps(rs))
    {
      Resize(ring.schema, n, rs);
      CopyRows(ring, begin, n, rs);
      EndsOf(old(timestamps), timestamps, rs);
    }
  }

  lemma EndsOf(before: seq<i64>, after: seq<i64>, rs: seq<Record>)
    requires rs != [] && |after| == if |before| < |rs| then |rs| else |before|
    requires after[..|rs|] == Stamps(rs[..|rs|])
    requires forall k :: |rs| <= k < |after| ==> after[k] == before[k]
    ensures after[0] == rs[0].ts
    ensures after[|after| - 1] == LastStamp(before, Stamps(rs))
    ensures after == ScratchAfter(before, Stamps(rs))
  {
    assert rs[..|rs|] == rs;
    assert after == after[..|rs|] + after[|rs|..];
    assert after[0] == after[..|rs|][0];
    assert after[|rs| - 1] == after[..|rs|][|rs| - 1];
  }

  lemma {:induction false} FlattenPrefix(rows: seq<bytes>, width: nat, k: nat)
    requires Uniform(rows, width) && k <= |rows|
    ensures k * width <= |Flatten(rows)| && Flatten(rows)[..k * width] == Flatten(rows[..k])
  {
    FlattenLength(rows, width);
    if k < |rows| {
      var init := rows[..|rows| - 1];
      RowBound(|rows| - 1, |rows|, width);
      FlattenLength(init, width);
      FlattenPrefix(init, width, k);
      assert init[..k] == rows[..k];
    } else {
      assert rows[..k] == rows;
    }
  }

  lemma WindowConforms(ring: SensorRing, begin: nat, n: nat, rs: seq<Record>)
    requires ring.Valid() && begin + n <= ring.head <= begin + ring.capacity
    requires rs == RecordsIn(ring.history[begin..begin + n])
    ensures |rs| == n && AllConform(ring.schema, rs) && forall i :: 0 <= i < n ==> rs[i] == ring.history[begin + i].rec
  {
    forall i | 0 <= i < n ensures ring.schema.Conforms(rs[i]) {
      assert ring.Slots()[ring.Slot(begin + i)] == ring.history[begin + i];
    }
  }

  // ---- The block cut from the scratch ----

  /** The count field is 32 bits wide. */
  function Count(n: nat): u32 {
    n % 0x1_0000_0000
  }

  /** The rows the count field covers. */
  function Covered(rs: seq<Record>): (kept: seq<Record>)
    ensures |kept| == Count(|rs|) && kept <= rs
  {
    rs[..Count(|rs|)]
  }

  /** A row's worth of bytes in a buffer, from the first k rows. */
  lemma ColumnPrefix(buffer: bytes, rows: seq<bytes>, width: nat, k: nat)
    requires Uniform(rows, width) && k <= |rows|
    requires |rows| * width <= |buffer| && buffer[..|rows| * width] == Flatten(rows)
    ensures k * width <= |buffer| && buffer[..k * width] == Flatten(rows[..k])
  {
    FlattenPrefix(rows, width, k);
    FlattenLength(rows, width);
    assert buffer[..|rows| * width][..k * width] == buffer[..k * width];
  }

  lemma KeptVectors(buffer: bytes, sch: Schema, rs: seq<Record>, k: nat)
    requires AllConform(sch, rs) && k <= |rs|
    requires |rs| * sch.RowBytes() <= |buffer| && buffer[..|rs| * sch.RowBytes()] == Flatten(Vectors(rs))
    ensures k * sch.RowBytes() <= |buffer| && Prefix(Some(buffer), k * sch.RowBytes()) == Flatten(Vectors(rs[..k]))
  {
    ColumnPrefix(buffer, Vectors(rs), sch.RowBytes(), k);
    assert Vectors(rs)[..k] == Vectors(rs[..k]);
  }

  lemma KeptPayloads(buffer: Option<bytes>, sch: Schema, rs: seq<Record>, k: nat)
    requires AllConform(sch, rs) && k <= |rs|
    requires buffer.Some? <==> sch.payloadSize > 0
    requires buffer.Some? ==> |rs| * sch.payloadSize <= |buffer.value| && buffer.value[..|rs| * sch.payloadSize] == Flatten(Payloads(rs))
    ensures buffer.None? ==> k * sch.payloadSize == 0
    ensures buffer.Some? ==> k * sch.payloadSize <= |buffer.value|
    ensures Prefix(buffer, k * sch.payloadSize) == Flatten(Payloads(rs[..k]))
  {
    if sch.payloadSize > 0 {
      ColumnPrefix(buffer.value, Payloads(rs), sch.payloadSize, k);
      assert Payloads(rs)[..k] == Payloads(rs[..k]);
    } else {
      assert k * sch.payloadSize == 0;
      NoPayloads(rs[..k]);
    }
  }

  lemma KeptColumn<T>(buffer: seq<T>, column: seq<T>, kept: seq<T>, k: nat)
    requires |column| <= |buffer| && buffer[..|column|] == column && k <= |column| && kept == column[..k]
    ensures Prefix(Some(buffer), k) == kept
  {
  }

  /** The block's sections start with these rows; the buffers behind them may hold more. */
  ghost predicate Carries(blk: Block, sch: Schema, rs: seq<Record>) {
    && blk.timestamps.Some? && |rs| <= |blk.timestamps.value| && blk.timestamps.value[..|rs|] == Stamps(rs)
    && blk.vectors.Some? && |rs| * sch.RowBytes() <= |blk.vectors.value|
    && blk.vectors.value[..|rs| * sch.RowBytes()] == Flatten(Vectors(rs))
    && (blk.scales.Some? <==> sch.dtype == Int8)
    && (blk.scales.Some? ==> |rs| <= |blk.scales.value| && blk.scales.value[..|rs|] == Scales(rs))
    && (blk.payloads.Some? <==> sch.payloadSize > 0)
    && (blk.payloads.Some? ==>
          |rs| * sch.payloadSize <= |blk.payloads.value| && blk.payloads.value[..|rs| * sch.payloadSize] == Flatten(Payloads(rs)))
  }

  lemma CarriesBacked(blk: Block, sch: Schema, rs: seq<Record>)
    requires Storable(sch) && AllConform(sch, rs) && Carries(blk, sch, rs)
    requires blk.shape == ShapeFor(Count(|rs|), sch)
    ensures Serializable(blk) && Backed(blk)
  {
    KeptVectors(blk.vectors.value, sch, rs, Count(|rs|));
    KeptPayloads(blk.payloads, sch, rs, Count(|rs|));
  }

  /** Whatever the scratch holds beyond the copied rows, the block is those rows and nothing else. */
  lemma BlockIsItsRows(blk: Block, sch: Schema, rs: seq<Record>)
    requires Storable(sch) && AllConform(sch, rs) && Carries(blk, sch, rs)
    requires blk.shape == ShapeFor(Count(|rs|), sch)
    ensures Serializable(blk) && Backed(blk)
    ensures ContentsOf(blk) == ContentsFor(Covered(rs), sch, blk.tStart, blk.tEnd)
  {
    hide Flatten, Vectors, Payloads, Stamps, Scales, AllConform, Serializable, Backed;
    var k := Count(|rs|);
    CarriesBacked(blk, sch, rs);
    KeptVectors(blk.vectors.value, sch, rs, k);
    KeptPayloads(blk.payloads, sch, rs, k);
    CoveredColumns(rs);
    KeptColumn(blk.timestamps.value, Stamps(rs), Stamps(Covered(rs)), k);
    if sch.dtype == Int8 {
      KeptColumn(blk.scales.value, Scales(rs), Scales(Covered(rs)), k);
    }
  }

  lemma CoveredColumns(rs: seq<Record>)
    ensures Stamps(Covered(rs)) == Stamps(rs)[..Count(|rs|)]
    ensures Scales(Covered(rs)) == Scales(rs)[..Count(|rs|)]
  {
  }

  lemma {:induction false} NoPayloads(rs: seq<Record>)
    requires forall i :: 0 <= i < |rs| ==> rs[i].payload == []
    ensures Flatten(Payloads(rs)) == []
  {
    FlattenLength(Payloads(rs), 0);
  }

  // ---- Choosing the cut ----

  const INT64_MIN: i64 := -0x8000_0000_0000_0000

  lemma MaxNext(ts: seq<int>, i: nat)
    requires i < |ts|
    ensures Max(ts[..i + 1]) == if i == 0 || ts[i] > Max(ts[..i]) then ts[i] else Max(ts[..i])
  {
    assert ts[..i + 1][..i] == ts[..i];
  }

  method NewestStamp(ring: SensorRing, begin: nat, end: nat, ghost ts: seq<int>) returns (m: i64)
    requires ring.Valid() && begin < end <= ring.head <= begin + ring.capacity
    requires |ts| == end - begin && forall i :: 0 <= i < |ts| ==> ts[i] == ring.history[begin + i].rec.ts
    ensures m == Max(ts)
  {
    hide SensorRing.Valid;
    m := INT64_MIN;
    for idx := begin to end
      invariant idx == begin ==> m == INT64_MIN
      invariant idx > begin ==> m == Max(ts[..idx - begin])
    {
      var t := ring.TimestampAt(idx);
      MaxNext(ts, idx - begin);
      if t > m {
        m := t;
      }
    }
    assert ts[..end - begin] == ts;
  }

  method SkipOlder(ring: SensorRing, begin: nat, end: nat, cutoff: int, ghost ts: seq<int>) returns (newTail: nat)
    requires ring.Valid() && begin <= end <= ring.head <= begin + ring.capacity
    requires |ts| == end - begin && forall i :: 0 <= i < |ts| ==> ts[i] == ring.history[begin + i].rec.ts
    ensures newTail == begin + Leading(ts, cutoff)
  {
    hide SensorRing.Valid, Leading;
    newTail := begin;
    while newTail < end
      invariant begin <= newTail <= end
      invariant forall i :: 0 <= i < newTail - begin ==> ts[i] < cutoff
    {
      var t := ring.TimestampAt(newTail);
      if t >= cutoff {
        break;
      }
      newTail := newTail + 1;
    }
    LeadingIsLongest(ts, cutoff, newTail - begin);
  }

  method ChooseTail(ring: SensorRing, begin: nat, end: nat, window: nat) returns (newTail: nat)
    requires ring.Valid() && begin < end <= ring.head <= begin + ring.capacity
    ensures newTail == begin + Cut(TimesOf(ring.history[begin..end]), window)
  {
    ghost var ts := TimesOf(ring.history[begin..end]);
    if window == 0 {
      return end;
    }
    var maxTs := NewestStamp(ring, begin, end, ts);
    newTail := SkipOlder(ring, begin, end, maxTs - window, ts);
  }

  /** A sensor's ring, absent until its first append, and the id its next block will get. */
  class SensorSlot {
    var ring: SensorRing?
    var nextBlockId: i64

    constructor ()
      ensures ring == null && nextBlockId == 0
    {
      ring, nextBlockId := null, 0;
    }
  }

  /** What the write comes to: a new block under the next id, or nothing at all. */
  ghost predicate Written(vals: Store, vals': Store, id: bytes, next: i64, rs: seq<Record>, sch: Schema, tEnd: i64, ioOk: bool) {
    vals' == if ioOk then vals[Key(id, next) := BlockImage(rs, sch, tEnd)] else vals
  }

  /** The block of a non-empty run of rows. */
  function BlockImage(rs: seq<Record>, sch: Schema, tEnd: i64): bytes {
    Image(ContentsFor(Covered(rs), sch, if rs == [] then 0 else rs[0].ts, tEnd))
  }

  class Engine {
    const backend: Backend
    const scratch: EvictScratch
    var totalEvictions: nat
    var flushErrors: nat

    constructor (backend: Backend)
      ensures this.backend == backend && fresh(scratch)
      ensures totalEvictions == flushErrors == 0
    {
      this.backend := backend;
      scratch := new EvictScratch();
      totalEvictions, flushErrors := 0, 0;
    }

    method BlockFrom(sch: Schema, ghost rs: seq<Record>, n: nat) returns (blk: Block)
      requires n == |rs| > 0 && Storable(sch) && AllConform(sch, rs) && scratch.Starts(sch, rs, n)
      requires scratch.timestamps != [] && scratch.timestamps[0] == rs[0].ts
      ensures Serializable(blk) && Backed(blk)
      ensures ContentsOf(blk) == ContentsFor(Covered(rs), sch, rs[0].ts, scratch.timestamps[|scratch.timestamps| - 1])
    {
      blk := Block(ShapeFor(Count(n), sch), scratch.timestamps[0], scratch.timestamps[|scratch.timestamps| - 1],
                   Some(scratch.timestamps), Some(scratch.vectors),
                   if sch.dtype == Int8 then Some(scratch.scales) else None,
                   if sch.payloadSize > 0 then Some(scratch.payloads) else None);
      assert rs[..n] == rs;
      BlockIsItsRows(blk, sch, rs);
    }

    /** Writing the copied rows as a block. A failed write is counted and not retried. */
    method Persist(id: bytes, slot: SensorSlot, sch: Schema, ghost rs: seq<Record>, n: nat, ioOk: bool)
      requires backend.Valid() && ValidId(id) && 0 <= slot.nextBlockId < 0x7FFF_FFFF_FFFF_FFFF
      requires n == |rs| > 0 && Storable(sch) && AllConform(sch, rs) && scratch.Starts(sch, rs, n)
      requires scratch.timestamps != [] && scratch.timestamps[0] == rs[0].ts
      modifies this, slot`nextBlockId, backend, backend.writeScratch
      ensures backend.Valid() && (backend.writeScratch == old(backend.writeScratch) || fresh(backend.writeScratch))
      ensures Written(old(backend.db.vals), backend.db.vals, id, old(slot.nextBlockId), rs, sch, scratch.timestamps[|scratch.timestamps| - 1], ioOk)
      ensures slot.nextBlockId == old(slot.nextBlockId) + (if ioOk then 1 else 0)
      ensures flushErrors == old(flushErrors) + (if ioOk then 0 else 1)
      ensures totalEvictions == old(totalEvictions) + 1
    {
      hide Image, ContentsFor, ContentsOf, Serializable, Backed, Backend.Valid, EvictScratch.Starts, AllConform, Key;
      totalEvictions := totalEvictions + 1;
      var blk := BlockFrom(sch, rs, n);
      var rc := backend.WriteBlock(id, slot.nextBlockId, blk, ioOk);
      if rc == OK {
        slot.nextBlockId := slot.nextBlockId + 1;
      } else {
        flushErrors := flushErrors + 1;
      }
    }

    /** The objects of a pass do not overlap. */
    ghost predicate Separate(ring: SensorRing)
      reads this, ring, backend
    {
      scratch !in ring.Arrays && backend !in ring.Arrays && backend.writeScratch !in ring.Arrays && this !in ring.Arrays
    }

    /** The scratch is a full copy before the tail moves. */
    method TakeOut(ring: SensorRing, begin: nat, n: nat, ghost rs: seq<Record>)
      requires ring.Valid() && scratch !in ring.Arrays
      requires ring.tail <= begin && begin + n <= ring.head <= begin + ring.capacity
      requires n == |rs| > 0 && AllConform(ring.schema, rs) && forall i :: 0 <= i < n ==> rs[i] == ring.history[begin + i].rec
      modifies scratch, ring`tail
      ensures ring.Valid() && ring.tail == begin + n
      ensures scratch.Starts(ring.schema, rs, n)
      ensures scratch.timestamps != [] && scratch.timestamps[0] == rs[0].ts
      ensures scratch.timestamps[|scratch.timestamps| - 1] == LastStamp(old(scratch.timestamps), Stamps(rs))
      ensures scratch.timestamps == ScratchAfter(old(scratch.timestamps), Stamps(rs))
    {
      scratch.CopyOut(ring, begin, n, rs);
      ring.AdvanceTail(begin + n);
    }

    /** Copy out, then advance the tail, then write. */
    method EvictRange(id: bytes, slot: SensorSlot, ring: SensorRing, begin: nat, n: nat, ghost rs: seq<Record>, ioOk: bool)
      returns (ghost tEnd: i64)
      requires backend.Valid() && ValidId(id) && 0 <= slot.nextBlockId < 0x7FFF_FFFF_FFFF_FFFF
      requires ring.Valid() && Storable(ring.schema) && Separate(ring) && slot !in ring.Arrays
      requires ring.tail <= begin && begin + n <= ring.head <= begin + ring.capacity
      requires n > 0 && rs == RecordsIn(ring.history[begin..begin + n])
      modifies this, scratch, slot`nextBlockId, ring`tail, backend, backend.writeScratch
      ensures ring.Valid() && ring.tail == begin + n
      ensures backend.Valid() && (backend.writeScratch == old(backend.writeScratch) || fresh(backend.writeScratch))
      ensures Written(old(backend.db.vals), backend.db.vals, id, old(slot.nextBlockId), rs, ring.schema, tEnd, ioOk)
      ensures tEnd == LastStamp(old(scratch.timestamps), Stamps(rs))
      ensures scratch.timestamps == ScratchAfter(old(scratch.timestamps), Stamps(rs))
      ensures slot.nextBlockId == old(slot.nextBlockId) + (if ioOk then 1 else 0)
      ensures flushErrors == old(flushErrors) + (if ioOk then 0 else 1)
      ensures totalEvictions == old(totalEvictions) + 1
    {
      hide Image, Written, SensorRing.Valid, RecordsIn, Backend.Valid;
      WindowConforms(ring, begin, n, rs);
      TakeOut(ring, begin, n, rs);
      tEnd := scratch.timestamps[|scratch.timestamps| - 1];
      Persist(id, slot, ring.schema, rs, n, ioOk);
    }

    /** EvictSensor. The pass removes the cut of the window; the removed rows become the sensor's next block, or are lost if the write fails.
      * A slot without a ring has nothing to evict and is not passed in. */
    method EvictSensor(id: bytes, slot: SensorSlot, ring: SensorRing, window: nat, ioOk: bool) returns (ghost n: nat, ghost tEnd: i64)
      requires backend.Valid() && ValidId(id) && 0 <= slot.nextBlockId < 0x7FFF_FFFF_FFFF_FFFF
      requires slot.ring == ring && ring.Valid() && Storable(ring.schema) && Separate(ring) && slot !in ring.Arrays
      modifies this, scratch, slot`nextBlockId, ring`tail, backend, backend.writeScratch
      ensures ring.Valid() && backend.Valid() && (backend.writeScratch == old(backend.writeScratch) || fresh(backend.writeScratch))
      ensures n == Cut(TimesOf(old(ring.Window())), window)
      ensures ring.tail == if n == 0 then old(ring.tail) else old(ring.Begin()) + n
      ensures n == 0 ==>
                && backend.db.vals == old(backend.db.vals) && slot.nextBlockId == old(slot.nextBlockId)
                && scratch.timestamps == old(scratch.timestamps)
                && flushErrors == old(flushErrors) && totalEvictions == old(totalEvictions)
      ensures n > 0 ==>
        var rs := RecordsIn(old(ring.Window())[..n]);
        && tEnd == LastStamp(old(scratch.timestamps), Stamps(rs))
        && scratch.timestamps == ScratchAfter(old(scratch.timestamps), Stamps(rs))
        && Written(old(backend.db.vals), backend.db.vals, id, old(slot.nextBlockId), rs, ring.schema, tEnd, ioOk)
        && slot.nextBlockId == old(slot.nextBlockId) + (if ioOk then 1 else 0)
        && flushErrors == old(flushErrors) + (if ioOk then 0 else 1)
        && totalEvictions == old(totalEvictions) + 1
    {
      hide Image, Written, Backend.Valid, RecordsIn, Cut, HoldsNewest;
      var begin, end := ring.Snapshot();
      if begin == end {
        return 0, 0;
      }
      var newTail := ChooseTail(ring, begin, end, window);
      n, tEnd := newTail - begin, 0;
      if newTail == begin {
        return;
      }
      assert ring.Window()[..n] == ring.history[begin..begin + n];
      tEnd := EvictRange(id, slot, ring, begin, newTail - begin, RecordsIn(ring.history[begin..begin + n]), ioOk);
    }
  }
}
