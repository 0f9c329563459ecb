/** Create, Open and DropSensor as the engine runs them against the backend. */
module LifecycleEngine {
  import opened Bytes
  import opened Wrappers
  import opened Errors
  import opened StorageKeys
  import opened SortedDb
  import opened ColdTier
  import opened RocksBackend
  import opened SensorRing
  import opened BlockRecords
  import opened Eviction
  import opened Evictor
  import opened SensorLog
  import M = Metadata
  import opened Lifecycle

  /** A running engine over a backend. */
  class Instance {
    const backend: Backend
    var cfg: M.Config
    var uuid: M.Uuid
    var next: map<bytes, int>

    constructor (backend: Backend, cfg: M.Config, uuid: M.Uuid, next: map<bytes, int>)
      ensures this.backend == backend && View() == Running(cfg, uuid, next)
    {
      this.backend, this.cfg, this.uuid, this.next := backend, cfg, uuid, next;
    }

    ghost function View(): Running
      reads this
    {
      Running(cfg, uuid, next)
    }

    /** GetOrCreateRing where the sensor is new: its block ids start at 0. */
    method RegisterSensor(id: bytes) returns (rc: Error)
      requires ValidId(id)
      modifies this`next
      ensures Step(World(backend.db.vals, Some(old(View()))), Register(id), rc, World(backend.db.vals, Some(View())), true)
    {
      if id !in next {
        next := next[id := 0];
      }
      rc := OK;
    }

    /** DropSensor: the map entry goes first; whether the blocks could be deleted is not looked at. */
    method DropSensor(id: bytes, io: Access) returns (rc: Error)
      requires backend.Valid() && ValidId(id)
      modifies this`next, backend`db
      ensures backend.Valid()
      ensures Step(World(old(backend.db.vals), Some(old(View()))), Drop(id, io), rc, World(backend.db.vals, Some(View())), true)
    {
      hide Backend.Valid, Outside;
      if id !in next {
        return NotFound;
      }
      next := next - {id};
      var ignored := backend.DeleteSensor(id, io.canWrite);
      rc := OK;
    }
  }

  /** The world a backend and an optional engine make up. */
  ghost function WorldOf(vals: Store, e: Instance?): World
    reads e
  {
    World(vals, if e == null then None else Some(e.View()))
  }

  method ReconcileStored(backend: Backend, c: M.Config, uuid: M.Uuid) returns (r: Admitted)
    requires backend.Valid()
    ensures r == Reconcile(Meta(backend.db.vals), c, uuid)
  {
    hide Backend.Valid;
    var re, existing := backend.ReadMetadata(true);
    if re == NotFound {
      return Admit(c, uuid);
    }
    var parsed := M.ParseBlob(existing);
    if parsed.None? {
      return Refuse(Error.Corruption);
    }
    if !SameSchema(parsed.value.0, c) {
      return Refuse(InvalidArg);
    }
    return Admit(c, parsed.value.1);
  }

  /** Engine::Create. uuid is the caller's, or a generated one where the caller's is zero. */
  method CreateEngine(backend: Backend, abi: nat, cfg: M.Config, uuid: M.Uuid, io: Access, int8Built: bool)
    returns (rc: Error, e: Instance?)
    requires backend.Valid()
    modifies backend`db
    ensures backend.Valid() && (e != null ==> fresh(e) && e.backend == backend)
    ensures Step(World(old(backend.db.vals), None), Create(abi, cfg, uuid, io), rc, WorldOf(backend.db.vals, e), int8Built)
  {
    hide Backend.Valid, M.Blob, M.ParseBlob;
    e := null;
    var v := M.ValidateAndDefault(abi, cfg, int8Built);
    if v.Rejected? {
      return v.error, null;
    }
    if !io.canOpen || !io.canRead {
      return Error.Io, null;
    }
    var r := ReconcileStored(backend, v.cfg, uuid);
    if r.Refuse? {
      return r.error, null;
    }
    var meta := new byte[M.META_SIZE];
    M.SerializeMetadata(r.cfg, r.uuid, meta);
    rc := backend.WriteMetadata(meta[..], io.canWrite);
    if rc != OK {
      return rc, null;
    }
    e := new Instance(backend, r.cfg, r.uuid, map[]);
  }

  /** Open's loop over the stored sensors. */
  method ResumeIds(backend: Backend, sensors: seq<bytes>) returns (next: map<bytes, int>)
    requires backend.Valid() && ListsSensors(backend.db.vals, sensors)
    ensures Resumes(backend.db.vals, next)
  {
    hide Backend.Valid, Blocks, ListsBlocks;
    next := map[];
    for i := 0 to |sensors|
      invariant forall s :: s in next <==> s in sensors[..i]
      invariant forall s :: s in next ==> FollowsLast(backend.db.vals, s, next[s])
    {
      assert sensors[i] in sensors;
      var rc, ids := backend.ListBlocks(sensors[i], true);
      assert FollowsLast(backend.db.vals, sensors[i], if ids == [] then 0 else (ids[|ids| - 1] as int) + 1);
      next := next[sensors[i] := if ids == [] then 0 else (ids[|ids| - 1] as int) + 1];
    }
    assert sensors[..|sensors|] == sensors;
  }

  /** Engine::Open, up to rehydration. */
  method OpenEngine(backend: Backend, uuid: M.Uuid, io: Access, int8Built: bool) returns (rc: Error, e: Instance?)
    requires backend.Valid()
    ensures e != null ==> fresh(e) && e.backend == backend
    ensures Step(World(backend.db.vals, None), Open(uuid, io), rc, WorldOf(backend.db.vals, e), int8Built)
  {
    hide Backend.Valid, M.ParseBlob, Resumes;
    e := null;
    if !io.canOpen || !io.canRead {
      return Error.Io, null;
    }
    var cfg, id := PLACEHOLDER, uuid;
    var me, blob := backend.ReadMetadata(true);
    if me == OK {
      var parsed := M.ParseBlob(blob);
      if parsed.None? {
        return Error.Corruption, null;
      }
      cfg, id := parsed.value.0, parsed.value.1;
    }
    var v := M.ValidateAndDefault(M.ABI_VERSION, cfg, int8Built);
    if v.Rejected? {
      return v.error, null;
    }
    var lse, sensors := backend.ListSensors(true);
    var next := ResumeIds(backend, sensors);
    e := new Instance(backend, v.cfg, id, next);
    rc := OK;
  }

  lemma EvictedConform(ring: SensorRing, n: nat)
    requires ring.Valid() && n <= |ring.Window()|
    ensures AllConform(ring.schema, RecordsIn(ring.Window()[..n])) && |RecordsIn(ring.Window()[..n])| == n
  {
    var begin := ring.Begin();
    assert ring.Window()[..n] == ring.history[begin..begin + n];
    WindowConforms(ring, begin, n, RecordsIn(ring.history[begin..begin + n]));
  }

  lemma WriteIsStep(vals: Store, vals': Store, e: Running, id: bytes, rs: seq<Record>, tEnd: i64, ioOk: bool, int8Built: bool)
    requires ValidId(id) && id in e.next && 0 <= e.next[id] < MAX_BLOCK && rs != [] && AllConform(SchemaFor(e.cfg), rs)
    requires Written(vals, vals', id, e.next[id], rs, SchemaFor(e.cfg), tEnd, ioOk)
    ensures Step(World(vals, Some(e)), Write(id, rs, tEnd, Access(true, true, ioOk)), if ioOk then OK else Error.Io,
                 World(vals', Some(e.(next := e.next[id := e.next[id] + (if ioOk then 1 else 0)]))), int8Built)
  {
    hide BlockImage, Key;
    assert e.next[id := e.next[id]] == e.next;
  }

  /** An eviction pass that removes anything takes exactly the Write step for the rows it removed; any other changes nothing. */
  method EvictionIsWrite(engine: Engine, id: bytes, slot: SensorSlot, ring: SensorRing, window: nat, ioOk: bool, ghost e: Running, int8Built: bool)
    returns (ghost rs: seq<Record>, ghost tEnd: i64)
    requires engine.backend.Valid() && ValidId(id) && 0 <= slot.nextBlockId < 0x7FFF_FFFF_FFFF_FFFF
    requires slot.ring == ring && ring.Valid() && Storable(ring.schema) && engine.Separate(ring) && slot !in ring.Arrays
    requires id in e.next && e.next[id] == slot.nextBlockId && SchemaFor(e.cfg) == ring.schema
    modifies engine, engine.scratch, slot`nextBlockId, ring`tail, engine.backend, engine.backend.writeScratch
    ensures rs == RecordsIn(old(ring.Window())[..Cut(TimesOf(old(ring.Window())), window)])
    ensures rs == [] ==> engine.backend.db.vals == old(engine.backend.db.vals) && slot.nextBlockId == old(slot.nextBlockId)
    ensures rs != [] ==>
      Step(World(old(engine.backend.db.vals), Some(e)), Write(id, rs, tEnd, Access(true, true, ioOk)), if ioOk then OK else Error.Io,
           World(engine.backend.db.vals, Some(e.(next := e.next[id := slot.nextBlockId]))), int8Built)
  {
    hide Backend.Valid, Written, BlockImage, Cut, RecordsIn, HoldsNewest;
    ghost var vals, w := engine.backend.db.vals, ring.Window();
    EvictedConform(ring, Cut(TimesOf(w), window));
    rs := RecordsIn(w[..Cut(TimesOf(w), window)]);
    ghost var n;
    n, tEnd := engine.EvictSensor(id, slot, ring, window, ioOk);
    if rs != [] {
      WriteIsStep(vals, engine.backend.db.vals, e, id, rs, tEnd, ioOk, int8Built);
    }
  }
}
