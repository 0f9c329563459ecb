/** EvictOnce and Flush: one pass over every sensor, in whatever order the sensor map is walked. */
module EvictionPass {
  import opened Bytes
  import opened StorageKeys
  import opened ColdTier
  import opened SensorRing
  import opened BlockRecords
  import opened Eviction
  import opened Evictor
  import opened SensorLog
  import opened EngineLog
  import opened RocksBackend

  /** The engine during a pass: what it holds of each sensor, the store, and the timestamps left in the shared scratch. */
  datatype Pass = Pass(hot: map<bytes, Sensor>, vals: Store, scratch: seq<i64>)

  function ConfigOf(c: Config, id: bytes): Config {
    c.(id := id)
  }

  /** A sensor together with the store as it is now. */
  function SensorIn(p: Pass, id: bytes): Sensor
    requires id in p.hot
  {
    p.hot[id].(vals := p.vals)
  }

  predicate Distinct(order: seq<bytes>) {
    forall i, j :: 0 <= i < j < |order| ==> order[i] != order[j]
  }

  ghost predicate ReadyOne(c: Config, p: Pass, id: bytes) {
    && id in p.hot && ConfigOf(c, id).Ok() && p.hot[id].tail <= |p.hot[id].history| && p.hot[id].next < MAX_BLOCK
    && forall i :: 0 <= i < |p.hot[id].history| ==> c.schema.Conforms(p.hot[id].history[i].rec)
  }

  ghost predicate Ready(c: Config, p: Pass, order: seq<bytes>) {
    Clean(p.vals) && Distinct(order) && forall i :: 0 <= i < |order| ==> ReadyOne(c, p, order[i])
  }

  /** The rows a pass takes from a sensor. */
  function Taken(c: Config, s: Sensor, window: nat): seq<Record>
    requires s.tail <= |s.history|
  {
    var w := s.history[s.Begin(c.capacity)..];
    RecordsIn(w[..Cut(TimesOf(w), window)])
  }

  /** The t_end a pass over this sensor writes, which depends on what earlier passes left in the scratch. */
  function StampFor(c: Config, p: Pass, id: bytes, window: nat): i64
    requires id in p.hot && p.hot[id].tail <= |p.hot[id].history|
  {
    var rs := Taken(c, p.hot[id], window);
    if rs == [] then 0 else LastStamp(p.scratch, Stamps(rs))
  }

  predicate Known(p: Pass, order: seq<bytes>) {
    forall i :: 0 <= i < |order| ==> order[i] in p.hot && p.hot[order[i]].tail <= |p.hot[order[i]].history|
  }

  /** The t_end that the walk gives to sensor id: its own last timestamp, or what the sensors before it in the walk, and earlier walks,
    * left in the scratch behind its rows. */
  function StampLeft(c: Config, p: Pass, order: seq<bytes>, window: nat, id: bytes): i64
    requires id in order && Known(p, order)
    decreases |order|
  {
    if order[0] == id then StampFor(c, p, id, window)
    else
      assert id in order[1..];
      StampLeft(c, p.(scratch := ScratchAfter(p.scratch, Stamps(Taken(c, p.hot[order[0]], window)))), order[1..], window, id)
  }

  lemma {:induction false} StampLeftFrame(c: Config, p: Pass, q: Pass, order: seq<bytes>, window: nat, id: bytes)
    requires id in order && Known(p, order) && Known(q, order) && p.scratch == q.scratch
    requires forall i :: 0 <= i < |order| ==> p.hot[order[i]] == q.hot[order[i]]
    ensures StampLeft(c, p, order, window, id) == StampLeft(c, q, order, window, id)
    decreases |order|
  {
    hide ScratchAfter, Taken, StampFor;
    if order[0] == id {
      SameStamp(c, p, q, id, window);
    } else {
      var scratch := ScratchAfter(p.scratch, Stamps(Taken(c, p.hot[order[0]], window)));
      assert forall i :: 0 <= i < |order| - 1 ==> order[1..][i] == order[i + 1];
      StampLeftFrame(c, p.(scratch := scratch), q.(scratch := scratch), order[1..], window, id);
    }
  }

  lemma SameStamp(c: Config, p: Pass, q: Pass, id: bytes, window: nat)
    requires id in p.hot && id in q.hot && p.hot[id] == q.hot[id] && p.hot[id].tail <= |p.hot[id].history| && p.scratch == q.scratch
    ensures StampFor(c, p, id, window) == StampFor(c, q, id, window)
  {
  }

  /** EvictSensor on one sensor of the map. */
  function EvictOne(c: Config, p: Pass, id: bytes, window: nat, ioOk: bool): Pass
    requires id in p.hot && p.hot[id].tail <= |p.hot[id].history| && p.hot[id].next < MAX_BLOCK
  {
    var s := Next(ConfigOf(c, id), SensorIn(p, id), Evict(window, StampFor(c, p, id, window), ioOk));
    Pass(p.hot[id := s], s.vals, ScratchAfter(p.scratch, Stamps(Taken(c, p.hot[id], window))))
  }

  /** The imperative pass over one sensor takes exactly that step, for its ring, its slot, the store and the shared scratch. */
  method EvictInPlace(engine: Engine, c: Config, id: bytes, slot: SensorSlot, ring: SensorRing, window: nat, ioOk: bool, ghost p: Pass)
    returns (ghost p': Pass)
    requires engine.backend.Valid() && ConfigOf(c, id).Ok() && 0 <= slot.nextBlockId < 0x7FFF_FFFF_FFFF_FFFF
    requires slot.ring == ring && ring.Valid() && engine.Separate(ring) && slot !in ring.Arrays
    requires c.capacity == ring.capacity && c.schema == ring.schema
    requires id in p.hot && Views(SensorIn(p, id), engine, slot, ring) && p.scratch == engine.scratch.timestamps
    modifies engine, engine.scratch, slot`nextBlockId, ring`tail, engine.backend, engine.backend.writeScratch
    ensures ring.Valid() && engine.backend.Valid()
    ensures p.hot[id].tail <= |p.hot[id].history| && p.hot[id].next < MAX_BLOCK && p' == EvictOne(c, p, id, window, ioOk)
    ensures Views(SensorIn(p', id), engine, slot, ring) && p'.scratch == engine.scratch.timestamps && p'.vals == engine.backend.db.vals
  {
    hide SensorRing.Valid, Backend.Valid, RecordsIn, Cut, TimesOf, BlockImage, Key;
    Bounds(ring);
    ghost var s := SensorIn(p, id);
    ghost var tEnd := EngineLog.Pass(engine, ConfigOf(c, id), slot, ring, window, ioOk, s);
    p' := EvictOne(c, p, id, window, ioOk);
  }

  /** Two states of a sensor that differ in the store at most, and not in the sensor's own blocks. */
  ghost predicate Agree(id: bytes, s: Sensor, vals: Store, t: Sensor) {
    s.(vals := t.vals) == t && Blocks(vals, id) == Blocks(t.vals, id)
  }

  /** What a sensor's own pass comes to does not depend on the rest of the store. */
  lemma PassIsLocal(c: Config, s: Sensor, vals: Store, a: Action)
    requires c.Ok() && s.tail <= |s.history| && a.Evict? && s.next < MAX_BLOCK
    requires Clean(s.vals) && Clean(vals) && Blocks(vals, c.id) == Blocks(s.vals, c.id)
    ensures var t := Next(c, s.(vals := vals), a);
      Agree(c.id, t, t.vals, Next(c, s, a))
  {
    hide Blocks, Clean, BlockImage, Key, Cut, TimesOf;
    var w := s.history[s.Begin(c.capacity)..];
    var n := Cut(TimesOf(w), a.window);
    if n > 0 && a.ioOk {
      var image := BlockImage(RecordsIn(w[..n]), c.schema, a.tEnd);
      PutRefines(s.vals, c.id, s.next, image, c.id);
      PutRefines(vals, c.id, s.next, image, c.id);
    }
  }

  /** Evicting one sensor leaves the blocks of every other, and the metadata, as they are. */
  lemma EvictOneFrame(c: Config, p: Pass, id: bytes, window: nat, ioOk: bool, other: bytes)
    requires ReadyOne(c, p, id) && Clean(p.vals) && ValidId(other)
    ensures var p' := EvictOne(c, p, id, window, ioOk);
      Clean(p'.vals) && Meta(p'.vals) == Meta(p.vals) && (other != id ==> Blocks(p'.vals, other) == Blocks(p.vals, other))
  {
    hide Blocks, Clean, BlockImage, Key, Cut, TimesOf, Meta, StampFor, ScratchAfter;
    var s := SensorIn(p, id);
    var w := s.history[s.Begin(c.capacity)..];
    var n := Cut(TimesOf(w), window);
    if n > 0 && ioOk {
      PutRefines(p.vals, id, s.next, BlockImage(RecordsIn(w[..n]), c.schema, StampFor(c, p, id, window)), other);
    }
  }

  lemma StillReady(c: Config, p: Pass, order: seq<bytes>, window: nat, ioOk: bool)
    requires Ready(c, p, order) && order != []
    ensures Ready(c, EvictOne(c, p, order[0], window, ioOk), order[1..])
  {
    hide Clean, ReadyOne, Next;
    EvictOneReady(c, p, order[0]);
    EvictOneFrame(c, p, order[0], window, ioOk, order[0]);
    var p' := EvictOne(c, p, order[0], window, ioOk);
    forall i | 0 <= i < |order[1..]| ensures ReadyOne(c, p', order[1..][i]) {
      assert ReadyOne(c, p, order[i + 1]) && order[i + 1] != order[0];
      EvictOneReady(c, p, order[i + 1]);
      SameSensorReady(c, p, p', order[i + 1]);
    }
  }

  lemma EvictOneReady(c: Config, p: Pass, id: bytes)
    requires ReadyOne(c, p, id)
    ensures id in p.hot && ConfigOf(c, id).Ok() && p.hot[id].tail <= |p.hot[id].history| && p.hot[id].next < MAX_BLOCK && ValidId(id)
  {
  }

  lemma SameSensorReady(c: Config, p: Pass, p': Pass, id: bytes)
    requires ReadyOne(c, p, id) && id in p'.hot && p'.hot[id] == p.hot[id]
    ensures ReadyOne(c, p', id)
  {
  }

  /** The loop of EvictOnce. Each sensor is visited once; ok says whose write succeeds. */
  ghost function EvictAll(c: Config, p: Pass, order: seq<bytes>, window: nat, ok: set<bytes>): Pass
    requires Ready(c, p, order)
    decreases |order|
  {
    if order == [] then p
    else
      StillReady(c, p, order, window, order[0] in ok);
      EvictAll(c, EvictOne(c, p, order[0], window, order[0] in ok), order[1..], window, ok)
  }

  ghost predicate Evicted(c: Config, p: Pass, p': Pass, window: nat, ioOk: bool, id: bytes, tEnd: i64)
    requires id in p.hot && id in p'.hot && p.hot[id].tail <= |p.hot[id].history| && p.hot[id].next < MAX_BLOCK
  {
    Agree(id, p'.hot[id], p'.vals, Next(ConfigOf(c, id), SensorIn(p, id), Evict(window, tEnd, ioOk)))
  }

  lemma ReadyIsKnown(c: Config, p: Pass, order: seq<bytes>)
    requires Ready(c, p, order)
    ensures Known(p, order)
  {
    forall i | 0 <= i < |order| ensures order[i] in p.hot && p.hot[order[i]].tail <= |p.hot[order[i]].history| {
      EvictOneReady(c, p, order[i]);
    }
  }

  lemma VisitedLater(c: Config, p: Pass, p1: Pass, p': Pass, window: nat, ioOk: bool, id: bytes, tEnd: i64)
    requires ReadyOne(c, p, id) && Clean(p.vals) && Clean(p1.vals)
    requires id in p1.hot && p1.hot[id] == p.hot[id] && Blocks(p1.vals, id) == Blocks(p.vals, id) && id in p'.hot
    requires Evicted(c, p1, p', window, ioOk, id, tEnd)
    ensures Evicted(c, p, p', window, ioOk, id, tEnd)
  {
    hide Blocks, Clean, Next;
    PassIsLocal(ConfigOf(c, id), SensorIn(p, id), p1.vals, Evict(window, tEnd, ioOk));
    assert SensorIn(p1, id) == SensorIn(p, id).(vals := p1.vals);
  }

  /** The rest of a walk gives the stamps that the whole walk gives. */
  lemma StampAfterFirst(c: Config, p: Pass, order: seq<bytes>, window: nat, ioOk: bool, id: bytes)
    requires Ready(c, p, order) && order != [] && id in order && id != order[0]
    ensures var p1 := EvictOne(c, p, order[0], window, ioOk);
      id in order[1..] && Known(p, order) && Known(p1, order[1..]) && id in p1.hot && p1.hot[id] == p.hot[id]
      && StampLeft(c, p, order, window, id) == StampLeft(c, p1, order[1..], window, id)
  {
    hide Next, ReadyOne, StampFor, ScratchAfter, Taken, Clean;
    var first, rest := order[0], order[1..];
    EvictOneReady(c, p, first);
    ReadyIsKnown(c, p, order);
    var p1 := EvictOne(c, p, first, window, ioOk);
    assert forall i :: 0 <= i < |rest| ==> rest[i] == order[i + 1] && rest[i] != first;
    assert forall i :: 0 <= i < |rest| ==> p1.hot[rest[i]] == p.hot[rest[i]];
    StampLeftFrame(c, p.(scratch := p1.scratch), p1, rest, window, id);
  }

  /** One pass is every sensor's own pass: a visited sensor ends where its own eviction takes it, with the t_end the walk gives it (the
    * one thing the order of the walk can change), and any other keeps its state and its blocks. */
  lemma {:induction false} PassIsEachSensors(c: Config, p: Pass, order: seq<bytes>, window: nat, ok: set<bytes>, id: bytes)
    requires Ready(c, p, order) && ValidId(id)
    ensures var p' := EvictAll(c, p, order, window, ok);
      && Meta(p'.vals) == Meta(p.vals) && Clean(p'.vals)
      && (id !in order ==> (id in p.hot <==> id in p'.hot) && (id in p.hot ==> p'.hot[id] == p.hot[id])
                           && Blocks(p'.vals, id) == Blocks(p.vals, id))
      && (id in order ==> id in p'.hot && ReadyOne(c, p, id) && Known(p, order)
                          && Evicted(c, p, p', window, id in ok, id, StampLeft(c, p, order, window, id)))
    decreases |order|
  {
    if order == [] {
    } else {
      hide Blocks, Clean, Meta, Next, ReadyOne, StampFor, ScratchAfter;
      var first, rest := order[0], order[1..];
      var p1 := EvictOne(c, p, first, window, first in ok);
      EvictOneReady(c, p, first);
      ReadyIsKnown(c, p, order);
      StillReady(c, p, order, window, first in ok);
      EvictOneFrame(c, p, first, window, first in ok, id);
      PassIsEachSensors(c, p1, rest, window, ok, id);
      assert id in order <==> id == first || id in rest;
      if id == first {
        assert id !in rest;
        assert Evicted(c, p, p1, window, id in ok, id, StampFor(c, p, id, window));
        assert Evicted(c, p, EvictAll(c, p1, rest, window, ok), window, id in ok, id, StampFor(c, p, id, window));
      } else if id in rest {
        StampAfterFirst(c, p, order, window, first in ok, id);
        VisitedLater(c, p, p1, EvictAll(c, p1, rest, window, ok), window, id in ok, id, StampLeft(c, p1, rest, window, id));
      }
    }
  }

  /** Flush empties every window, and a sensor whose write succeeded has its window, as far as a block's count field reaches (all of it
    * in a ring of fewer than 2^32 slots), appended to what its blocks read back as. */
  lemma FlushMovesWindow(c: Config, p: Pass, order: seq<bytes>, ok: set<bytes>, id: bytes)
    requires Ready(c, p, order) && id in order && ReadyOne(c, p, id)
    requires Dense(Blocks(p.vals, id), p.hot[id].next)
    ensures var p' := EvictAll(c, p, order, 0, ok);
      var s := p.hot[id];
      && id in p'.hot && p'.hot[id].history == s.history
      && p'.hot[id].tail == |s.history| && s.Begin(c.capacity) <= |s.history|
      && (c.capacity < 0x1_0000_0000 ==> Covered(RecordsIn(s.history[s.Begin(c.capacity)..])) == RecordsIn(s.history[s.Begin(c.capacity)..]))
      && Dense(Blocks(p'.vals, id), p'.hot[id].next)
      && ReadBack(Blocks(p'.vals, id), p'.hot[id].next)
         == ReadBack(Blocks(p.vals, id), s.next) + (if id in ok then Covered(RecordsIn(s.history[s.Begin(c.capacity)..])) else [])
  {
    hide Blocks, Clean, ReadBack, Dense, EvictAll, Ready, StampLeft;
    EvictOneReady(c, p, id);
    ReadyIsClean(c, p, order);
    PassIsEachSensors(c, p, order, 0, ok, id);
    var p' := EvictAll(c, p, order, 0, ok);
    FlushOne(ConfigOf(c, id), SensorIn(p, id), StampLeft(c, p, order, 0, id), id in ok);
  }

  lemma ReadyIsClean(c: Config, p: Pass, order: seq<bytes>)
    requires Ready(c, p, order)
    ensures Clean(p.vals)
  {
  }

  lemma FlushOne(c: Config, s: Sensor, tEnd: i64, ioOk: bool)
    requires c.Ok() && s.tail <= |s.history| && s.next < MAX_BLOCK && Clean(s.vals) && Dense(Blocks(s.vals, c.id), s.next)
    requires forall i :: 0 <= i < |s.history| ==> c.schema.Conforms(s.history[i].rec)
    ensures var t := Next(c, s, Evict(0, tEnd, ioOk));
      && t.history == s.history && t.tail == |s.history| && s.Begin(c.capacity) <= |s.history|
      && Dense(Blocks(t.vals, c.id), t.next)
      && ReadBack(Blocks(t.vals, c.id), t.next)
         == ReadBack(Blocks(s.vals, c.id), s.next) + (if ioOk then Covered(RecordsIn(s.history[s.Begin(c.capacity)..])) else [])
  {
    hide Blocks, Clean, ReadBack, Dense, BlockImage, Key;
    var w := s.history[s.Begin(c.capacity)..];
    assert w[..|w|] == w;
    if w != [] && ioOk {
      PassWrites(c, s, RecordsIn(w), tEnd);
    } else {
      assert ReadBack(Blocks(s.vals, c.id), s.next) + [] == ReadBack(Blocks(s.vals, c.id), s.next);
    }
  }
}
