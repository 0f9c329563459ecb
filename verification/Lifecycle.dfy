/** Create, Open, Close, Drop and block writes on one cold path, over whole runs. */
module Lifecycle {
  import opened Bytes
  import opened Wrappers
  import opened Errors
  import opened BlockCodec
  import opened StorageKeys
  import opened SortedDb
  import opened ColdTier
  import opened SensorRing
  import opened BlockRecords
  import opened Evictor
  import opened SensorLog
  import opened M = Metadata

  /** A running engine: its configuration, its identity, and the next block id of every sensor it knows. */
  datatype Running = Running(cfg: M.Config, uuid: Uuid, next: map<bytes, int>)

  /** The store outlives engines; at most one engine runs on it. */
  datatype World = World(vals: Store, live: Option<Running>)

  /** What the storage engine underneath allows. */
  datatype Access = Access(canOpen: bool, canRead: bool, canWrite: bool)

  datatype Action =
    | Create(abi: nat, cfg: M.Config, uuid: Uuid, io: Access)
    | Open(uuid: Uuid, io: Access)
    | Close
    | Register(id: bytes)
    | Drop(id: bytes, io: Access)
    | Write(id: bytes, rs: seq<Record>, tEnd: i64, io: Access)

  function SchemaFor(c: M.Config): Schema {
    Schema(c.dim, c.payloadSize, if c.dtype == DTYPE_INT8 then Int8 else Float32)
  }

  /** The fields Create compares with what is persisted. */
  predicate SameSchema(c: M.Config, d: M.Config) {
    c.dim == d.dim && c.dtype == d.dtype && c.metric == d.metric && c.payloadSize == d.payloadSize && c.ringCapacity == d.ringCapacity
  }

  /** What Open runs with when nothing is persisted. */
  const PLACEHOLDER := M.Config(128, 0, 0, 0, 0, 0, 0, 0)

  /** The identity and configuration an engine ends up with, or why it refuses. */
  datatype Admitted = Admit(cfg: M.Config, uuid: Uuid) | Refuse(error: Error)

  function Reconcile(stored: Option<bytes>, c: M.Config, uuid: Uuid): Admitted {
    match stored
    case None => Admit(c, uuid)
    case Some(blob) =>
      match ParseBlob(blob)
      case None => Refuse(Error.Corruption)
      case Some(p) => if SameSchema(p.0, c) then Admit(c, p.1) else Refuse(InvalidArg)
  }

  function AdmitCreate(vals: Store, abi: nat, cfg: M.Config, uuid: Uuid, io: Access, int8Built: bool): Admitted {
    match ValidateAndDefault(abi, cfg, int8Built)
    case Rejected(e) => Refuse(e)
    case Accepted(c) =>
      if !io.canOpen || !io.canRead then Refuse(Error.Io)
      else match Reconcile(if META_KEY in vals then Some(vals[META_KEY]) else None, c, uuid)
           case Refuse(e) => Refuse(e)
           case Admit(d, u) => if io.canWrite then Admit(d, u) else Refuse(Error.Io)
  }

  function Recovered(stored: Option<bytes>, uuid: Uuid): Admitted {
    match stored
    case None => Admit(PLACEHOLDER, uuid)
    case Some(blob) =>
      match ParseBlob(blob)
      case None => Refuse(Error.Corruption)
      case Some(p) => Admit(p.0, p.1)
  }

  function AdmitOpen(vals: Store, uuid: Uuid, io: Access, int8Built: bool): Admitted {
    if !io.canOpen || !io.canRead then Refuse(Error.Io)
    else match Recovered(if META_KEY in vals then Some(vals[META_KEY]) else None, uuid)
         case Refuse(e) => Refuse(e)
         case Admit(c, u) =>
           match ValidateAndDefault(ABI_VERSION, c, int8Built)
           case Rejected(e) => Refuse(e)
           case Accepted(d) => Admit(d, u)
  }

  /** Open's enumeration: every sensor with blocks, resuming after the last id that ListBlocks gives. */
  ghost predicate Resumes(vals: Store, next: map<bytes, int>) {
    && (forall s :: s in next <==> ValidId(s) && Blocks(vals, s) != map[])
    && (forall s :: s in next ==> FollowsLast(vals, s, next[s]))
  }

  ghost predicate FollowsLast(vals: Store, id: bytes, next: int) {
    exists ids: seq<i64> :: ListsBlocks(vals, id, ids) && next == if ids == [] then 0 else (ids[|ids| - 1] as int) + 1
  }

  /** One call, and the code it returns. */
  ghost predicate Step(w: World, a: Action, rc: Error, w': World, int8Built: bool) {
    match a
    case Create(abi, cfg, uuid, io) =>
      w.live.None? &&
      (match AdmitCreate(w.vals, abi, cfg, uuid, io, int8Built)
       case Refuse(e) => rc == e && w' == w
       case Admit(c, u) => rc == OK && w' == World(w.vals[META_KEY := Blob(c, u)], Some(Running(c, u, map[]))))
    case Open(uuid, io) =>
      w.live.None? &&
      (match AdmitOpen(w.vals, uuid, io, int8Built)
       case Refuse(e) => rc == e && w' == w
       case Admit(c, u) =>
         rc == OK && w'.vals == w.vals && w'.live.Some? && w'.live.value.cfg == c && w'.live.value.uuid == u
         && Resumes(w.vals, w'.live.value.next))
    case Close =>
      w.live.Some? && rc == OK && w' == w.(live := None)
    case Register(id) =>
      w.live.Some? && ValidId(id) && rc == OK
      && w' == if id in w.live.value.next then w else w.(live := Some(w.live.value.(next := w.live.value.next[id := 0])))
    case Drop(id, io) =>
      w.live.Some? && ValidId(id)
      && (if id !in w.live.value.next then rc == NotFound && w' == w
          else rc == OK && w' == World(if io.canWrite then Outside(w.vals, RangeBegin(id), RangeEnd(id)) else w.vals,
                                       Some(w.live.value.(next := w.live.value.next - {id}))))
    case Write(id, rs, tEnd, io) =>
      w.live.Some? && ValidId(id) && id in w.live.value.next && 0 <= w.live.value.next[id] < MAX_BLOCK
      && rs != [] && AllConform(SchemaFor(w.live.value.cfg), rs)
      && (if io.canWrite
          then rc == OK && w' == World(w.vals[Key(id, w.live.value.next[id]) := BlockImage(rs, SchemaFor(w.live.value.cfg), tEnd)],
                                       Some(w.live.value.(next := w.live.value.next[id := w.live.value.next[id] + 1])))
          else rc == Error.Io && w' == w)
  }

  ghost predicate Steps(w: World, a: Action, w': World, int8Built: bool) {
    exists rc: Error :: Step(w, a, rc, w', int8Built)
  }

  /** Calls one after another; each is allowed where it is made. */
  ghost predicate Reached(w0: World, run: seq<Action>, w: World, int8Built: bool)
    decreases |run|, 0
  {
    if run == [] then w == w0 else ReachedBy(w0, run[..|run| - 1], run[|run| - 1], w, int8Built)
  }

  ghost predicate ReachedBy(w0: World, init: seq<Action>, a: Action, w: World, int8Built: bool)
    decreases |init|, 1
  {
    exists v: World :: Reached(w0, init, v, int8Built) && Steps(v, a, w, int8Built)
  }

  // ---- Schema and identity ----

  /** Every stored block of a sensor reads back with this schema. */
  ghost predicate AllOf(blocks: map<int, bytes>, sch: Schema) {
    forall b :: b in blocks ==> Decode(blocks[b]).Ok? && SchemaOf(Decode(blocks[b]).contents) == sch
  }

  /** The path was created with configuration c0 and identity u0, and still is. */
  ghost predicate Keeps(c0: M.Config, u0: Uuid, w: World, int8Built: bool) {
    && Clean(w.vals)
    && (exists c :: Meta(w.vals) == Some(Blob(c, u0)) && SameSchema(c, c0) && Usable(c, int8Built))
    && (w.live.Some? ==> SameSchema(w.live.value.cfg, c0) && w.live.value.uuid == u0 && Usable(w.live.value.cfg, int8Built))
    && (forall id :: ValidId(id) ==> AllOf(Blocks(w.vals, id), SchemaFor(c0)))
  }

  lemma AdmittedCreate(c0: M.Config, u0: Uuid, w: World, abi: nat, cfg: M.Config, uuid: Uuid, io: Access, int8Built: bool)
    requires Keeps(c0, u0, w, int8Built)
    ensures match AdmitCreate(w.vals, abi, cfg, uuid, io, int8Built)
            case Refuse(_) => true
            case Admit(c, u) => u == u0 && SameSchema(c, c0) && Usable(c, int8Built)
  {
    hide Blob;
    var c :| Meta(w.vals) == Some(Blob(c, u0)) && SameSchema(c, c0) && Usable(c, int8Built);
    BlobRoundTrip(c, u0, []);
    assert Blob(c, u0) + [] == Blob(c, u0);
    ValidationIsExact(abi, cfg, int8Built);
  }

  lemma AdmittedOpen(c0: M.Config, u0: Uuid, w: World, uuid: Uuid, io: Access, int8Built: bool)
    requires Keeps(c0, u0, w, int8Built)
    ensures match AdmitOpen(w.vals, uuid, io, int8Built)
            case Refuse(e) => e == Error.Io && !(io.canOpen && io.canRead)
            case Admit(c, u) => u == u0 && SameSchema(c, c0) && Usable(c, int8Built) && Meta(w.vals) == Some(Blob(c, u))
  {
    hide Blob;
    var c :| Meta(w.vals) == Some(Blob(c, u0)) && SameSchema(c, c0) && Usable(c, int8Built);
    BlobRoundTrip(c, u0, []);
    assert Blob(c, u0) + [] == Blob(c, u0);
    ValidationIsExact(ABI_VERSION, c, int8Built);
  }

  lemma WrittenBlock(rs: seq<Record>, sch: Schema, tEnd: i64)
    requires Storable(sch) && sch.dim <= MAX_DIM && sch.payloadSize <= MAX_PAYLOAD && AllConform(sch, rs)
    ensures Decode(BlockImage(rs, sch, tEnd)).Ok? && SchemaOf(Decode(BlockImage(rs, sch, tEnd)).contents) == sch
  {
    hide Image, Decode;
    var kept := Covered(rs);
    var tStart: i64 := if rs == [] then 0 else rs[0].ts;
    var c := ContentsFor(kept, sch, tStart, tEnd);
    SizeFits(|kept|, sch);
    ContentsForWellFormed(kept, sch, tStart, tEnd);
    DecodeImage(c, []);
    assert Image(c) + [] == Image(c);
  }

  lemma StoreKeepsSchema(vals: Store, id: bytes, n: i64, rs: seq<Record>, sch: Schema, tEnd: i64)
    requires Clean(vals) && ValidId(id)
    requires Storable(sch) && sch.dim <= MAX_DIM && sch.payloadSize <= MAX_PAYLOAD && AllConform(sch, rs)
    requires forall s :: ValidId(s) ==> AllOf(Blocks(vals, s), sch)
    ensures var vals' := vals[Key(id, n) := BlockImage(rs, sch, tEnd)];
      Clean(vals') && Meta(vals') == Meta(vals) && forall s :: ValidId(s) ==> AllOf(Blocks(vals', s), sch)
  {
    hide Blocks, Key, BlockImage, Clean, Meta, Decode;
    var image := BlockImage(rs, sch, tEnd);
    var vals' := vals[Key(id, n) := image];
    WrittenBlock(rs, sch, tEnd);
    PutRefines(vals, id, n, image, id);
    forall s | ValidId(s) ensures AllOf(Blocks(vals', s), sch) {
      PutRefines(vals, id, n, image, s);
    }
  }

  lemma DropKeepsSchema(vals: Store, id: bytes, sch: Schema)
    requires Clean(vals) && ValidId(id)
    requires forall s :: ValidId(s) ==> AllOf(Blocks(vals, s), sch)
    ensures var vals' := Outside(vals, RangeBegin(id), RangeEnd(id));
      Clean(vals') && Meta(vals') == Meta(vals) && forall s :: ValidId(s) ==> AllOf(Blocks(vals', s), sch)
  {
    hide Blocks, Clean, Meta, Decode, Outside;
    var vals' := Outside(vals, RangeBegin(id), RangeEnd(id));
    DeleteRefines(vals, id, id);
    forall s | ValidId(s) ensures AllOf(Blocks(vals', s), sch) {
      DeleteRefines(vals, id, s);
    }
  }

  lemma MetaKeepsSchema(vals: Store, blob: bytes, sch: Schema)
    requires Clean(vals)
    requires forall s :: ValidId(s) ==> AllOf(Blocks(vals, s), sch)
    ensures var vals' := vals[META_KEY := blob];
      Clean(vals') && Meta(vals') == Some(blob) && forall s :: ValidId(s) ==> AllOf(Blocks(vals', s), sch)
  {
    hide Blocks, Clean, Meta, Decode;
    var vals' := vals[META_KEY := blob];
    MetaRefines(vals, blob, [2]);
    forall s | ValidId(s) ensures AllOf(Blocks(vals', s), sch) {
      MetaRefines(vals, blob, s);
    }
  }

  lemma SchemaIsStorable(c: M.Config, c0: M.Config, int8Built: bool)
    requires Usable(c, int8Built) && SameSchema(c, c0)
    ensures var sch := SchemaFor(c); sch == SchemaFor(c0) && Storable(sch) && sch.dim <= MAX_DIM && sch.payloadSize <= MAX_PAYLOAD
  {
  }

  lemma StepKeeps(c0: M.Config, u0: Uuid, w: World, a: Action, rc: Error, w': World, int8Built: bool)
    requires Keeps(c0, u0, w, int8Built) && Step(w, a, rc, w', int8Built)
    ensures Keeps(c0, u0, w', int8Built)
  {
    hide Blob, Usable, AllOf, SchemaFor, Clean, Blocks, BlockImage, Resumes, AdmitCreate, AdmitOpen;
    var sch := SchemaFor(c0);
    match a
    case Create(abi, cfg, uuid, io) =>
      AdmittedCreate(c0, u0, w, abi, cfg, uuid, io, int8Built);
      var admitted := AdmitCreate(w.vals, abi, cfg, uuid, io, int8Built);
      if admitted.Admit? {
        MetaKeepsSchema(w.vals, Blob(admitted.cfg, admitted.uuid), sch);
      }
    case Open(uuid, io) =>
      AdmittedOpen(c0, u0, w, uuid, io, int8Built);
    case Close =>
    case Register(id) =>
    case Drop(id, io) =>
      DropKeepsSchema(w.vals, id, sch);
    case Write(id, rs, tEnd, io) =>
      SchemaIsStorable(w.live.value.cfg, c0, int8Built);
      StoreKeepsSchema(w.vals, id, w.live.value.next[id], rs, sch, tEnd);
  }

  lemma {:induction false} KeepsReached(c0: M.Config, u0: Uuid, w0: World, run: seq<Action>, w: World, int8Built: bool)
    requires Keeps(c0, u0, w0, int8Built) && Reached(w0, run, w, int8Built)
    ensures Keeps(c0, u0, w, int8Built)
    decreases |run|
  {
    hide Keeps, Step;
    if run == [] {
    } else {
      var init, a := run[..|run| - 1], run[|run| - 1];
      assert ReachedBy(w0, init, a, w, int8Built);
      var v: World :| Reached(w0, init, v, int8Built) && Steps(v, a, w, int8Built);
      var rc: Error :| Step(v, a, rc, w, int8Built);
      KeepsReached(c0, u0, w0, init, v, int8Built);
      StepKeeps(c0, u0, v, a, rc, w, int8Built);
    }
  }

  /** What a call changes in the store: Open, Close and Register nothing, Create the metadata only, a drop the blocks of its sensor, a
    * write one block of its sensor. */
  lemma StepFrame(w: World, a: Action, rc: Error, w': World, int8Built: bool, s: bytes)
    requires Step(w, a, rc, w', int8Built) && Clean(w.vals) && ValidId(s)
    ensures a.Open? || a.Close? || a.Register? ==> w'.vals == w.vals
    ensures !a.Create? ==> Meta(w'.vals) == Meta(w.vals)
    ensures a.Create? || ((a.Drop? || a.Write?) && a.id != s) ==> Blocks(w'.vals, s) == Blocks(w.vals, s)
    ensures a.Drop? && a.id == s && rc == OK ==> Blocks(w'.vals, s) == if a.io.canWrite then map[] else Blocks(w.vals, s)
    ensures a.Write? && a.id == s ==>
              Blocks(w'.vals, s) == if a.io.canWrite then Blocks(w.vals, s)[w.live.value.next[s] := BlockImage(a.rs, SchemaFor(w.live.value.cfg), a.tEnd)]
                                    else Blocks(w.vals, s)
  {
    hide Clean, Blocks, BlockImage, Resumes, AdmitCreate, AdmitOpen, Blob, Outside, Key, Meta;
    match a
    case Create(abi, cfg, uuid, io) =>
      var admitted := AdmitCreate(w.vals, abi, cfg, uuid, io, int8Built);
      if admitted.Admit? {
        MetaRefines(w.vals, Blob(admitted.cfg, admitted.uuid), s);
      }
    case Open(uuid, io) =>
    case Close =>
    case Register(id) =>
    case Drop(id, io) =>
      DeleteRefines(w.vals, id, s);
    case Write(id, rs, tEnd, io) =>
      var e := w.live.value;
      PutRefines(w.vals, id, e.next[id], BlockImage(rs, SchemaFor(e.cfg), tEnd), s);
  }

  lemma NoBlocks(id: bytes)
    ensures Blocks(map[], id) == map[]
  {
  }

  /** A path is created by the first Create that succeeds on it: it runs with, and persists, the configuration asked for. */
  lemma FirstCreate(abi: nat, cfg: M.Config, uuid: Uuid, io: Access, rc: Error, w: World, int8Built: bool)
    requires Step(World(map[], None), Create(abi, cfg, uuid, io), rc, w, int8Built) && rc == OK
    ensures Keeps(Defaulted(cfg), uuid, w, int8Built)
    ensures w.live == Some(Running(Defaulted(cfg), uuid, map[])) && Meta(w.vals) == Some(Blob(Defaulted(cfg), uuid))
  {
    hide Blob, Blocks, Clean, Meta;
    ValidationIsExact(abi, cfg, int8Built);
    var c := Defaulted(cfg);
    forall id | ValidId(id) ensures AllOf(Blocks(map[], id), SchemaFor(c)) {
      NoBlocks(id);
    }
    EmptyIsClean();
    MetaKeepsSchema(map[], Blob(c, uuid), SchemaFor(c));
  }

  lemma EmptyIsClean()
    ensures Clean(map[])
  {
  }

  /** From the first Create on, over any calls, closes, reopens and I/O failures: the persisted identity and schema never change,
    * every engine that runs on the path has them, and every stored block has that schema. */
  lemma SchemaNeverChanges(c0: M.Config, u0: Uuid, w0: World, run: seq<Action>, w: World, int8Built: bool)
    requires Keeps(c0, u0, w0, int8Built) && Reached(w0, run, w, int8Built)
    ensures Meta(w.vals).Some? && ParseBlob(Meta(w.vals).value).Some?
    ensures var p := ParseBlob(Meta(w.vals).value).value; p.1 == u0 && SameSchema(p.0, c0)
    ensures w.live.Some? ==> w.live.value.uuid == u0 && SameSchema(w.live.value.cfg, c0)
    ensures forall id, b :: ValidId(id) && b in Blocks(w.vals, id) ==>
              Decode(Blocks(w.vals, id)[b]).Ok? && SchemaOf(Decode(Blocks(w.vals, id)[b]).contents) == SchemaFor(c0)
    ensures SchemaFor(c0) == Schema(c0.dim, c0.payloadSize, if c0.dtype == 1 then Int8 else Float32)
  {
    hide Blob, Reached, Blocks, Decode, Usable;
    KeepsReached(c0, u0, w0, run, w, int8Built);
    var c :| Meta(w.vals) == Some(Blob(c, u0)) && SameSchema(c, c0) && Usable(c, int8Built);
    BlobRoundTrip(c, u0, []);
    assert Blob(c, u0) + [] == Blob(c, u0);
  }

  /** Create succeeds exactly on a valid configuration with the path's schema, and a refused one leaves the store as it was. One that
    * succeeds runs with the caller's window, interval and recovery flag under the path's identity, and persists them. */
  lemma CreateSucceedsIff(c0: M.Config, u0: Uuid, w: World, abi: nat, cfg: M.Config, uuid: Uuid, io: Access, rc: Error, w': World, int8Built: bool)
    requires Keeps(c0, u0, w, int8Built) && Step(w, Create(abi, cfg, uuid, io), rc, w', int8Built)
    ensures rc == OK <==> abi == ABI_VERSION && Usable(Defaulted(cfg), int8Built) && SameSchema(Defaulted(cfg), c0)
                          && io.canOpen && io.canRead && io.canWrite
    ensures rc != OK ==> w' == w
    ensures rc == OK ==> w'.live == Some(Running(Defaulted(cfg), u0, map[])) && Meta(w'.vals) == Some(Blob(Defaulted(cfg), u0))
    ensures rc == OK ==> forall key :: key != META_KEY ==> (key in w'.vals <==> key in w.vals) && (key in w.vals ==> w'.vals[key] == w.vals[key])
    ensures abi == ABI_VERSION && Usable(Defaulted(cfg), int8Built) && io.canOpen && io.canRead && !SameSchema(Defaulted(cfg), c0)
            ==> rc == InvalidArg
  {
    hide Blob, Usable;
    var c :| Meta(w.vals) == Some(Blob(c, u0)) && SameSchema(c, c0) && Usable(c, int8Built);
    BlobRoundTrip(c, u0, []);
    assert Blob(c, u0) + [] == Blob(c, u0);
    ValidationIsExact(abi, cfg, int8Built);
    RefusalIsNotOk(abi, cfg, int8Built);
  }

  lemma RefusalIsNotOk(abi: nat, cfg: M.Config, int8Built: bool)
    ensures ValidateAndDefault(abi, cfg, int8Built).Rejected? ==> ValidateAndDefault(abi, cfg, int8Built).error != OK
  {
  }

  /** Open is refused for I/O reasons only, and runs with exactly what was last persisted. */
  lemma OpenRecovers(c0: M.Config, u0: Uuid, w: World, uuid: Uuid, io: Access, rc: Error, w': World, int8Built: bool)
    requires Keeps(c0, u0, w, int8Built) && Step(w, Open(uuid, io), rc, w', int8Built)
    ensures rc == OK <==> io.canOpen && io.canRead
    ensures rc == OK ==> w'.live.Some? && Meta(w.vals) == Some(Blob(w'.live.value.cfg, w'.live.value.uuid)) && w'.live.value.uuid == u0
    ensures w'.vals == w.vals
  {
    hide Blob, Usable, AdmitOpen, Resumes;
    AdmittedOpen(c0, u0, w, uuid, io, int8Built);
    OpenNeedsIo(w.vals, uuid, io, int8Built);
  }

  lemma OpenNeedsIo(vals: Store, uuid: Uuid, io: Access, int8Built: bool)
    ensures AdmitOpen(vals, uuid, io, int8Built).Admit? ==> io.canOpen && io.canRead
  {
  }

  /** On a path without metadata Open makes up a configuration and keeps the identity it was given. */
  lemma OpenWithoutMetadata(w: World, uuid: Uuid, io: Access, rc: Error, w': World, int8Built: bool)
    requires META_KEY !in w.vals && Step(w, Open(uuid, io), rc, w', int8Built)
    ensures rc == OK <==> io.canOpen && io.canRead
    ensures w'.vals == w.vals
    ensures rc == OK ==> w'.live.Some? && w'.live.value.uuid == uuid
                         && w'.live.value.cfg == M.Config(128, 0, 0, 0, 65536, 600000, 60000, 0)
  {
    hide Resumes;
    SmallestBits();
  }

  // ---- Block ids ----

  /** The ids in use are exactly 0..n-1. */
  ghost predicate Filled(blocks: map<int, bytes>, n: int) {
    n >= 0 && forall b :: b in blocks <==> 0 <= b < n
  }

  ghost predicate Numbered(w: World) {
    && Clean(w.vals)
    && (forall id :: ValidId(id) ==> exists n: int :: 0 <= n <= MAX_BLOCK && Filled(Blocks(w.vals, id), n))
    && (w.live.Some? ==>
          && (forall id :: id in w.live.value.next ==>
                ValidId(id) && 0 <= w.live.value.next[id] <= MAX_BLOCK && Filled(Blocks(w.vals, id), w.live.value.next[id]))
          && (forall id :: ValidId(id) && id !in w.live.value.next ==> Blocks(w.vals, id) == map[]))
  }

  /** The calls that keep the numbering: a Create that is refused or finds no blocks, and a drop that deletes or has nothing to delete. */
  ghost predicate Careful(w: World, a: Action, int8Built: bool) {
    match a
    case Create(abi, cfg, uuid, io) =>
      AdmitCreate(w.vals, abi, cfg, uuid, io, int8Built).Admit? ==> forall id :: ValidId(id) ==> Blocks(w.vals, id) == map[]
    case Drop(id, io) => io.canWrite || Blocks(w.vals, id) == map[]
    case _ => true
  }

  lemma NumberedCreate(vals: Store, blob: bytes, cfg: M.Config, uuid: Uuid)
    requires Clean(vals) && forall id :: ValidId(id) ==> Blocks(vals, id) == map[]
    ensures Numbered(World(vals[META_KEY := blob], Some(Running(cfg, uuid, map[]))))
  {
    hide Blocks, Clean;
    var vals' := vals[META_KEY := blob];
    MetaRefines(vals, blob, [2]);
    forall id | ValidId(id) ensures Blocks(vals', id) == map[] && Filled(Blocks(vals', id), 0) {
      MetaRefines(vals, blob, id);
    }
  }

  lemma NumberedOpen(w: World, cfg: M.Config, uuid: Uuid, next: map<bytes, int>)
    requires Numbered(w) && Resumes(w.vals, next)
    ensures Numbered(World(w.vals, Some(Running(cfg, uuid, next))))
  {
    hide Blocks, Clean, ListsBlocks;
    forall id | id in next ensures 0 <= next[id] <= MAX_BLOCK && Filled(Blocks(w.vals, id), next[id]) {
      var n: int :| 0 <= n <= MAX_BLOCK && Filled(Blocks(w.vals, id), n);
      assert FollowsLast(w.vals, id, next[id]);
      var ids: seq<i64> :| ListsBlocks(w.vals, id, ids) && next[id] == if ids == [] then 0 else (ids[|ids| - 1] as int) + 1;
      ListedInOrder(w.vals, id, ids, n);
    }
  }

  lemma NumberedDrop(vals: Store, cfg: M.Config, uuid: Uuid, next: map<bytes, int>, id: bytes)
    requires Numbered(World(vals, Some(Running(cfg, uuid, next)))) && ValidId(id)
    ensures Numbered(World(Outside(vals, RangeBegin(id), RangeEnd(id)), Some(Running(cfg, uuid, next - {id}))))
  {
    hide Blocks, Clean, Outside;
    var vals' := Outside(vals, RangeBegin(id), RangeEnd(id));
    DeleteRefines(vals, id, id);
    assert Filled(Blocks(vals', id), 0);
    forall s | ValidId(s) && s != id ensures Blocks(vals', s) == Blocks(vals, s) {
      DeleteRefines(vals, id, s);
    }
  }

  lemma NotStored(vals: Store, id: bytes, n: i64)
    requires n !in Blocks(vals, id)
    ensures Key(id, n) !in vals
  {
  }

  lemma NumberedWrite(vals: Store, cfg: M.Config, uuid: Uuid, next: map<bytes, int>, id: bytes, image: bytes)
    requires Numbered(World(vals, Some(Running(cfg, uuid, next)))) && id in next && next[id] < MAX_BLOCK
    ensures ValidId(id) && 0 <= next[id] && Key(id, next[id]) !in vals
    ensures Numbered(World(vals[Key(id, next[id]) := image], Some(Running(cfg, uuid, next[id := next[id] + 1]))))
  {
    hide Blocks, Clean, Key;
    NotStored(vals, id, next[id]);
    var vals' := vals[Key(id, next[id]) := image];
    PutRefines(vals, id, next[id], image, id);
    assert Filled(Blocks(vals', id), next[id] + 1);
    forall s | ValidId(s) && s != id ensures Blocks(vals', s) == Blocks(vals, s) {
      PutRefines(vals, id, next[id], image, s);
    }
  }

  /** A drop that deletes nothing keeps the numbering exactly where there was nothing to delete. */
  lemma NumberedFailedDrop(vals: Store, cfg: M.Config, uuid: Uuid, next: map<bytes, int>, id: bytes)
    requires Numbered(World(vals, Some(Running(cfg, uuid, next)))) && ValidId(id)
    ensures Numbered(World(vals, Some(Running(cfg, uuid, next - {id})))) <==> Blocks(vals, id) == map[]
  {
    hide Blocks, Clean, Filled;
  }

  /** A Create keeps the numbering exactly where no sensor had a block. */
  lemma NumberedCreateIff(vals: Store, blob: bytes, cfg: M.Config, uuid: Uuid)
    requires Numbered(World(vals, None))
    ensures Numbered(World(vals[META_KEY := blob], Some(Running(cfg, uuid, map[])))) <==> forall id :: ValidId(id) ==> Blocks(vals, id) == map[]
  {
    hide Blocks, Clean, Filled;
    if forall id :: ValidId(id) ==> Blocks(vals, id) == map[] {
      NumberedCreate(vals, blob, cfg, uuid);
    } else {
      var id :| ValidId(id) && Blocks(vals, id) != map[];
      MetaRefines(vals, blob, id);
    }
  }

  /** Every call on a numbered path keeps the numbering if and only if it is a careful one. */
  lemma StepNumbered(w: World, a: Action, rc: Error, w': World, int8Built: bool)
    requires Numbered(w) && Step(w, a, rc, w', int8Built)
    ensures Numbered(w') <==> Careful(w, a, int8Built)
  {
    hide Clean, Blocks, BlockImage, Resumes, AdmitCreate, AdmitOpen, Blob, Filled, Outside, Key;
    match a
    case Create(abi, cfg, uuid, io) =>
      var admitted := AdmitCreate(w.vals, abi, cfg, uuid, io, int8Built);
      if admitted.Admit? {
        NumberedCreateIff(w.vals, Blob(admitted.cfg, admitted.uuid), admitted.cfg, admitted.uuid);
      }
    case Open(uuid, io) =>
      var admitted := AdmitOpen(w.vals, uuid, io, int8Built);
      if admitted.Admit? {
        NumberedOpen(w, admitted.cfg, admitted.uuid, w'.live.value.next);
      }
    case Close =>
    case Register(id) =>
      EmptyIsFilled(Blocks(w.vals, id));
    case Drop(id, io) =>
      var e := w.live.value;
      if io.canWrite {
        NumberedDrop(w.vals, e.cfg, e.uuid, e.next, id);
      } else {
        NumberedFailedDrop(w.vals, e.cfg, e.uuid, e.next, id);
      }
    case Write(id, rs, tEnd, io) =>
      var e := w.live.value;
      NumberedWrite(w.vals, e.cfg, e.uuid, e.next, id, BlockImage(rs, SchemaFor(e.cfg), tEnd));
  }

  lemma EmptyIsFilled(blocks: map<int, bytes>)
    ensures blocks == map[] ==> Filled(blocks, 0)
  {
  }

  ghost predicate CarefullyReached(w0: World, run: seq<Action>, w: World, int8Built: bool)
    decreases |run|, 0
  {
    if run == [] then w == w0 else CarefullyReachedBy(w0, run[..|run| - 1], run[|run| - 1], w, int8Built)
  }

  ghost predicate CarefullyReachedBy(w0: World, init: seq<Action>, a: Action, w: World, int8Built: bool)
    decreases |init|, 1
  {
    exists v: World :: CarefullyReached(w0, init, v, int8Built) && Careful(v, a, int8Built) && Steps(v, a, w, int8Built)
  }

  /** Through evictions, failed writes, drops and reopens, each sensor's stored ids are exactly 0..next-1. */
  lemma {:induction false} IdsStayDense(w0: World, run: seq<Action>, w: World, int8Built: bool)
    requires Numbered(w0) && CarefullyReached(w0, run, w, int8Built)
    ensures Numbered(w)
    decreases |run|
  {
    hide Numbered, Step, Careful;
    if run == [] {
    } else {
      var init, a := run[..|run| - 1], run[|run| - 1];
      assert CarefullyReachedBy(w0, init, a, w, int8Built);
      var v: World :| CarefullyReached(w0, init, v, int8Built) && Careful(v, a, int8Built) && Steps(v, a, w, int8Built);
      var rc: Error :| Step(v, a, rc, w, int8Built);
      IdsStayDense(w0, init, v, int8Built);
      StepNumbered(v, a, rc, w, int8Built);
    }
  }

  /** So no write ever replaces a block. */
  lemma WritesAreFresh(w0: World, run: seq<Action>, w: World, a: Action, rc: Error, w': World, int8Built: bool)
    requires Numbered(w0) && CarefullyReached(w0, run, w, int8Built)
    requires a.Write? && Step(w, a, rc, w', int8Built)
    ensures Key(a.id, w.live.value.next[a.id]) !in w.vals
  {
    hide CarefullyReached, BlockImage;
    IdsStayDense(w0, run, w, int8Built);
    var e := w.live.value;
    NumberedWrite(w.vals, e.cfg, e.uuid, e.next, a.id, []);
  }

  lemma EmptyPathIsNumbered()
    ensures Numbered(World(map[], None))
  {
    EmptyIsClean();
    forall id | ValidId(id) ensures Filled(Blocks(map[], id), 0) {
      NoBlocks(id);
    }
  }

  // ---- Where ids are reused ----

  lemma FilledZero(vals: Store, id: bytes)
    requires ValidId(id) && exists n: int :: 0 <= n <= MAX_BLOCK && Filled(Blocks(vals, id), n)
    ensures Key(id, 0) !in vals <==> Blocks(vals, id) == map[]
  {
    var n: int :| 0 <= n <= MAX_BLOCK && Filled(Blocks(vals, id), n);
    if n == 0 {
      assert Blocks(vals, id) == map[];
      assert 0 !in Blocks(vals, id);
    } else {
      assert 0 in Blocks(vals, id);
    }
  }

  /** Create does not look at stored blocks: afterwards a sensor's first write goes to id 0, and it is a fresh key if and only if
    * the sensor had no blocks. */
  lemma CreateReusesIds(w: World, abi: nat, cfg: M.Config, uuid: Uuid, io: Access, w1: World, id: bytes, w2: World,
                        rs: seq<Record>, tEnd: i64, io': Access, rc: Error, w3: World, int8Built: bool)
    requires Numbered(w) && Step(w, Create(abi, cfg, uuid, io), OK, w1, int8Built)
    requires Step(w1, Register(id), OK, w2, int8Built)
    requires Step(w2, Write(id, rs, tEnd, io'), rc, w3, int8Built)
    ensures w2.live.Some? && w2.live.value.next == map[id := 0]
    ensures Key(id, 0) !in w2.vals <==> Blocks(w.vals, id) == map[]
    ensures rc == OK ==> w3.vals == w2.vals[Key(id, 0) := BlockImage(rs, SchemaFor(w2.live.value.cfg), tEnd)]
  {
    hide BlockImage, Blob, Blocks, Key, Filled;
    CreateIsAdmitted(w, abi, cfg, uuid, io, w1, int8Built);
    KeyIsNotMeta(id);
    FilledZero(w.vals, id);
  }

  lemma KeyIsNotMeta(id: bytes)
    requires ValidId(id)
    ensures Key(id, 0) != META_KEY
  {
    KeyParts(id, 0);
  }

  lemma CreateIsAdmitted(w: World, abi: nat, cfg: M.Config, uuid: Uuid, io: Access, w1: World, int8Built: bool)
    requires Step(w, Create(abi, cfg, uuid, io), OK, w1, int8Built)
    ensures AdmitCreate(w.vals, abi, cfg, uuid, io, int8Built).Admit?
  {
    hide Blob;
    RefusalIsNotOk(abi, cfg, int8Built);
  }

  /** Likewise after a drop whose deletion failed: the first write goes to id 0, and it is a fresh key if and only if there was
    * nothing to delete. */
  lemma FailedDropReusesIds(w: World, id: bytes, w1: World, w2: World, rs: seq<Record>, tEnd: i64, io: Access, rc: Error, w3: World, int8Built: bool)
    requires Numbered(w) && w.live.Some? && id in w.live.value.next
    requires Step(w, Drop(id, Access(true, true, false)), OK, w1, int8Built)
    requires Step(w1, Register(id), OK, w2, int8Built)
    requires Step(w2, Write(id, rs, tEnd, io), rc, w3, int8Built)
    ensures w2.vals == w.vals && w2.live.Some? && id in w2.live.value.next && w2.live.value.next[id] == 0
    ensures Key(id, 0) !in w2.vals <==> Blocks(w.vals, id) == map[]
    ensures rc == OK ==> w3.vals == w.vals[Key(id, 0) := BlockImage(rs, SchemaFor(w.live.value.cfg), tEnd)]
  {
    hide BlockImage, Blocks, Key, Filled;
    FilledZero(w.vals, id);
  }

  lemma Extend(w0: World, run: seq<Action>, v: World, a: Action, rc: Error, w: World, int8Built: bool)
    requires Reached(w0, run, v, int8Built) && Step(v, a, rc, w, int8Built)
    ensures Reached(w0, run + [a], w, int8Built)
  {
    hide Step;
    var longer := run + [a];
    assert longer[..|longer| - 1] == run && longer[|longer| - 1] == a;
    assert Steps(v, a, w, int8Built);
    assert ReachedBy(w0, run, a, w, int8Built);
  }

  const ALL_OK := Access(true, true, true)

  /** An engine is created on a path, registers a sensor and stores one block. */
  lemma CreateAndStore(w0: World, run: seq<Action>, w: World, c: M.Config, uuid: Uuid, id: bytes, rs: seq<Record>, int8Built: bool)
    returns (run': seq<Action>, w': World)
    requires Reached(w0, run, w, int8Built) && w.live.None? && Usable(c, int8Built) && ValidId(id)
    requires META_KEY in w.vals ==> ParseBlob(w.vals[META_KEY]) == Some((c, uuid))
    requires rs != [] && AllConform(SchemaFor(c), rs)
    ensures Reached(w0, run', w', int8Built) && w'.live.None?
    ensures run' == run + [Create(ABI_VERSION, c, uuid, ALL_OK), Register(id), Write(id, rs, 0, ALL_OK), Close]
    ensures w'.vals == w.vals[META_KEY := Blob(c, uuid)][Key(id, 0) := BlockImage(rs, SchemaFor(c), 0)]
  {
    hide BlockImage, Blob, Usable, Reached, SchemaFor, AllConform;
    ValidationIsExact(ABI_VERSION, c, int8Built);
    var w1 := World(w.vals[META_KEY := Blob(c, uuid)], Some(Running(c, uuid, map[])));
    Extend(w0, run, w, Create(ABI_VERSION, c, uuid, ALL_OK), OK, w1, int8Built);
    run' := run + [Create(ABI_VERSION, c, uuid, ALL_OK)];
    var w2 := World(w1.vals, Some(Running(c, uuid, map[id := 0])));
    Extend(w0, run', w1, Register(id), OK, w2, int8Built);
    run' := run' + [Register(id)];
    var w3 := World(w2.vals[Key(id, 0) := BlockImage(rs, SchemaFor(c), 0)], Some(Running(c, uuid, map[id := 1])));
    assert map[id := 0][id := 1] == map[id := 1];
    Extend(w0, run', w2, Write(id, rs, 0, ALL_OK), OK, w3, int8Built);
    run' := run' + [Write(id, rs, 0, ALL_OK)];
    w' := World(w3.vals, None);
    Extend(w0, run', w3, Close, OK, w', int8Built);
    run' := run' + [Close];
  }

  /** What a create-and-store leaves of a sensor: one block, under id 0, whatever was there. */
  lemma StoredOverZero(vals: Store, blob: bytes, id: bytes, image: bytes)
    requires Clean(vals) && ValidId(id)
    ensures var vals' := vals[META_KEY := blob][Key(id, 0) := image];
      Clean(vals') && META_KEY in vals' && vals'[META_KEY] == blob && Blocks(vals', id) == Blocks(vals, id)[0 := image]
  {
    hide Blocks, Clean, Key;
    MetaRefines(vals, blob, id);
    PutRefines(vals[META_KEY := blob], id, 0, image, id);
    KeyParts(id, 0);
  }

  /** Two Creates in a row on one path, each storing one block of the same sensor: only the second block is left, under id 0. */
  lemma SecondCreateLosesBlock(c: M.Config, uuid: Uuid, id: bytes, rs1: seq<Record>, rs2: seq<Record>, int8Built: bool)
    returns (run: seq<Action>, w: World)
    requires Usable(c, int8Built) && ValidId(id)
    requires rs1 != [] && AllConform(SchemaFor(c), rs1) && rs2 != [] && AllConform(SchemaFor(c), rs2)
    ensures Reached(World(map[], None), run, w, int8Built)
    ensures |run| == 8 && run[2] == Write(id, rs1, 0, ALL_OK) && run[6] == Write(id, rs2, 0, ALL_OK)
    ensures Blocks(w.vals, id) == map[0 := BlockImage(rs2, SchemaFor(c), 0)]
  {
    hide BlockImage, Blob, Usable, SchemaFor, AllConform, Key, Blocks, Clean;
    var image1, image2 := BlockImage(rs1, SchemaFor(c), 0), BlockImage(rs2, SchemaFor(c), 0);
    var w0 := World(map[], None);
    EmptyIsClean();
    NoBlocks(id);
    BlobRoundTrip(c, uuid, []);
    assert Blob(c, uuid) + [] == Blob(c, uuid);
    assert Reached(w0, [], w0, int8Built);
    hide Reached;
    run, w := CreateAndStore(w0, [], w0, c, uuid, id, rs1, int8Built);
    StoredOverZero(w0.vals, Blob(c, uuid), id, image1);
    var vals1 := w.vals;
    run, w := CreateAndStore(w0, run, w, c, uuid, id, rs2, int8Built);
    StoredOverZero(vals1, Blob(c, uuid), id, image2);
    assert map[][0 := image1][0 := image2] == map[0 := image2];
  }
}
