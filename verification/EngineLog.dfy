/** The imperative engine takes exactly the steps the log is proved for. */
module EngineLog {
  import opened Bytes
  import opened Wrappers
  import opened BlockCodec
  import opened BlockRecords
  import opened RocksBackend
  import opened SensorRing
  import opened Eviction
  import opened Evictor
  import opened SensorLog

  /** The log's view of a ring, its slot and the store. */
  ghost predicate Views(s: Sensor, engine: Engine, slot: SensorSlot, ring: SensorRing)
    reads engine, engine.backend, slot, ring
  {
    && s.history == ring.history && s.tail == ring.tail && s.overwritten == ring.overwrittenEntries
    && s.next == slot.nextBlockId && s.vals == engine.backend.db.vals
  }

  method Ingest(engine: Engine, slot: SensorSlot, ring: SensorRing, ts: i64, vec: bytes, norm: u32, payload: Option<bytes>, scale: u32,
                ghost c: Config, ghost s: Sensor)
    returns (ghost e: Entry)
    requires ring.Valid() && c.capacity == ring.capacity && c.schema == ring.schema && Views(s, engine, slot, ring)
    requires engine !in ring.Arrays && engine.backend !in ring.Arrays && slot !in ring.Arrays
    requires |vec| == ring.schema.RowBytes() && (payload.Some? && ring.schema.payloadSize > 0 ==> |payload.value| == ring.schema.payloadSize)
    modifies ring, ring.Arrays
    ensures ring.Valid() && Enabled(c, s, Append(e)) && Views(Next(c, s, Append(e)), engine, slot, ring)
    ensures e.rec.ts == ts && e.rec.vec == vec && e.norm == norm
    ensures ring.schema.dtype == Int8 ==> e.rec.scale == scale
    ensures payload.Some? && ring.schema.payloadSize > 0 ==> e.rec.payload == payload.value
  {
    e := ring.Stored(ts, vec, norm, payload, scale);
    assert ring.schema.Conforms(ring.Slots()[ring.Slot(ring.head)].rec);
    ring.Append(ts, vec, norm, payload, scale);
  }

  lemma Bounds(ring: SensorRing)
    requires ring.Valid()
    ensures ring.tail <= ring.head == |ring.history|
  {
  }

  method Pass(engine: Engine, c: Config, slot: SensorSlot, ring: SensorRing, window: nat, ioOk: bool, ghost s: Sensor)
    returns (ghost tEnd: i64)
    requires engine.backend.Valid() && c.Ok() && 0 <= slot.nextBlockId < 0x7FFF_FFFF_FFFF_FFFF
    requires slot.ring == ring && ring.Valid() && engine.Separate(ring) && slot !in ring.Arrays
    requires c.capacity == ring.capacity && c.schema == ring.schema && Views(s, engine, slot, ring)
    modifies engine, engine.scratch, slot`nextBlockId, ring`tail, engine.backend, engine.backend.writeScratch
    ensures ring.Valid() && engine.backend.Valid()
    ensures Enabled(c, s, Evict(window, tEnd, ioOk)) && Views(Next(c, s, Evict(window, tEnd, ioOk)), engine, slot, ring)
    ensures var w := s.history[s.Begin(c.capacity)..];
      var rs := RecordsIn(w[..Cut(TimesOf(w), window)]);
      && (rs == [] ==> engine.scratch.timestamps == old(engine.scratch.timestamps))
      && (rs != [] ==> tEnd == LastStamp(old(engine.scratch.timestamps), Stamps(rs))
                       && engine.scratch.timestamps == ScratchAfter(old(engine.scratch.timestamps), Stamps(rs)))
  {
    hide SensorRing.Valid, Backend.Valid, RecordsIn, Cut, TimesOf, BlockImage;
    ghost var n;
    Bounds(ring);
    ghost var w := s.history[s.Begin(c.capacity)..];
    assert ring.Window() == w;
    n, tEnd := engine.EvictSensor(c.id, slot, ring, window, ioOk);
    assert n == Cut(TimesOf(w), window);
  }
}
