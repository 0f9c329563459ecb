/** One sensor over its whole life: appends, eviction passes and flushes, and what its blocks read back as. */
module SensorLog {
  import opened Bytes
  import opened Wrappers
  import opened BlockCodec
  import opened StorageKeys
  import opened ColdTier
  import opened SensorRing
  import opened BlockRecords
  import opened Eviction
  import opened Evictor
  import Metadata

  /** A validated engine's view of one sensor. */
  datatype Config = Config(id: bytes, capacity: nat, schema: Schema) {
    predicate Ok() {
      && ValidId(id)
      && 0 < capacity
      && Storable(schema) && schema.dim <= Metadata.MAX_DIM && schema.payloadSize <= Metadata.MAX_PAYLOAD
    }
  }

  /** What became of an entry. Truncated ones were evicted in a pass so large that the block's 32-bit count left them out. */
  datatype Fate = Persisted | Failed | Truncated | Overwritten | Live

  /** fates says what became of every entry the tail has passed. */
  datatype Sensor = Sensor(history: seq<Entry>, tail: nat, overwritten: nat, next: nat, vals: Store, fates: seq<Fate>) {
    function Begin(capacity: nat): nat {
      if |history| - tail > capacity then |history| - capacity else tail
    }
  }

  /** Elsewhere is anything that leaves this sensor's blocks alone: other sensors' writes and drops, and metadata. */
  datatype Action =
    | Append(e: Entry)
    | Evict(window: nat, tEnd: i64, ioOk: bool)
    | Elsewhere(vals: Store)

  const MAX_BLOCK: nat := 0x7FFF_FFFF_FFFF_FFFF

  ghost predicate Enabled(c: Config, s: Sensor, a: Action) {
    match a
    case Append(e) => c.schema.Conforms(e.rec)
    case Evict(_, _, _) => s.next < MAX_BLOCK
    case Elsewhere(vals) => Clean(vals) && Blocks(vals, c.id) == Blocks(s.vals, c.id)
  }

  function Repeat(f: Fate, n: nat): (fs: seq<Fate>)
    ensures |fs| == n
  {
    seq(n, _ => f)
  }

  /** How many of n evicted rows share the fate of the write; the others did not fit the count field. */
  function Kept(n: nat, ioOk: bool): (k: nat)
    ensures k <= n && (n < 0x1_0000_0000 ==> k == n)
  {
    if ioOk then Count(n) else n
  }

  function Next(c: Config, s: Sensor, a: Action): Sensor
    requires s.tail <= |s.history|
    requires a.Evict? ==> s.next < MAX_BLOCK
  {
    match a
    case Append(e) =>
      s.(history := s.history + [e],
         overwritten := s.overwritten + (if |s.history| - s.tail >= c.capacity then 1 else 0))
    case Evict(window, tEnd, ioOk) =>
      var begin := s.Begin(c.capacity);
      var w := s.history[begin..];
      var n := Cut(TimesOf(w), window);
      if n == 0 then s
      else s.(tail := begin + n,
              next := s.next + (if ioOk then 1 else 0),
              vals := if ioOk then s.vals[Key(c.id, s.next) := BlockImage(RecordsIn(w[..n]), c.schema, tEnd)] else s.vals,
              fates := PassFates(s, begin, if ioOk then Persisted else Failed, Kept(n, ioOk)) + Repeat(Truncated, n - Kept(n, ioOk)))
    case Elsewhere(vals) =>
      s.(vals := vals)
  }

  // ---- Reading a sensor's blocks back ----

  function Rows(blocks: map<int, bytes>, b: int): seq<Record> {
    if b in blocks && Restore(blocks[b]).Some? then Restore(blocks[b]).value else []
  }

  /** Blocks 0..n read back in order. */
  function ReadBack(blocks: map<int, bytes>, n: nat): seq<Record> {
    if n == 0 then [] else ReadBack(blocks, n - 1) + Rows(blocks, n - 1)
  }

  /** Blocks read back in the order ListBlocks gave. */
  function ReadListed(blocks: map<int, bytes>, ids: seq<i64>): seq<Record> {
    if ids == [] then [] else ReadListed(blocks, ids[..|ids| - 1]) + Rows(blocks, ids[|ids| - 1])
  }

  /** A sensor's stored ids are exactly 0..n-1, and every one of its blocks reads back. */
  ghost predicate Dense(blocks: map<int, bytes>, n: nat) {
    && (forall b :: b in blocks <==> 0 <= b < n)
    && (forall b :: b in blocks ==> Restore(blocks[b]).Some?)
  }

  lemma {:induction false} ReadBackSame(blocks: map<int, bytes>, blocks': map<int, bytes>, n: nat)
    requires forall b :: 0 <= b < n ==> Rows(blocks, b) == Rows(blocks', b)
    ensures ReadBack(blocks, n) == ReadBack(blocks', n)
  {
    if n == 0 {
    } else {
      ReadBackSame(blocks, blocks', n - 1);
    }
  }

  // ---- Fates ----

  /** The fates once the next n entries from begin on have met theirs. */
  function PassFates(s: Sensor, begin: nat, f: Fate, n: nat): seq<Fate>
    requires s.tail <= begin
  {
    s.fates + Repeat(Overwritten, begin - s.tail) + Repeat(f, n)
  }

  function FatesOf(c: Config, s: Sensor): seq<Fate>
    requires s.tail <= |s.history|
  {
    PassFates(s, s.Begin(c.capacity), Live, |s.history| - s.Begin(c.capacity))
  }

  function Tally(fs: seq<Fate>, f: Fate): nat {
    if fs == [] then 0 else Tally(fs[..|fs| - 1], f) + (if fs[|fs| - 1] == f then 1 else 0)
  }

  /** The records whose fate is one of these, in the order they were appended. */
  function Select(es: seq<Entry>, fs: seq<Fate>, keep: set<Fate>): seq<Record>
    requires |es| == |fs|
  {
    if es == [] then []
    else
      var n := |es| - 1;
      Select(es[..n], fs[..n], keep) + (if fs[n] in keep then [es[n].rec] else [])
  }

  lemma {:induction false} TallyConcat(fs: seq<Fate>, gs: seq<Fate>, f: Fate)
    ensures Tally(fs + gs, f) == Tally(fs, f) + Tally(gs, f)
  {
    if gs == [] {
      assert fs + gs == fs;
    } else {
      var n := |gs| - 1;
      TallyConcat(fs, gs[..n], f);
      assert (fs + gs)[..|fs + gs| - 1] == fs + gs[..n];
    }
  }

  lemma {:induction false} TallyRepeat(g: Fate, n: nat, f: Fate)
    ensures Tally(Repeat(g, n), f) == if g == f then n else 0
  {
    if n == 0 {
    } else {
      TallyRepeat(g, n - 1, f);
      assert Repeat(g, n)[..n - 1] == Repeat(g, n - 1);
    }
  }

  lemma {:induction false} TallyAll(fs: seq<Fate>)
    ensures |fs| == Tally(fs, Persisted) + Tally(fs, Failed) + Tally(fs, Truncated) + Tally(fs, Overwritten) + Tally(fs, Live)
  {
    if fs == [] {
    } else {
      TallyAll(fs[..|fs| - 1]);
    }
  }

  lemma {:induction false} SelectConcat(es: seq<Entry>, fs: seq<Fate>, es': seq<Entry>, fs': seq<Fate>, keep: set<Fate>)
    requires |es| == |fs| && |es'| == |fs'|
    ensures Select(es + es', fs + fs', keep) == Select(es, fs, keep) + Select(es', fs', keep)
  {
    if es' == [] {
      assert es + es' == es && fs + fs' == fs;
    } else {
      var n := |es'| - 1;
      SelectConcat(es, fs, es'[..n], fs'[..n], keep);
      assert (es + es')[..|es| + n] == es + es'[..n] && (fs + fs')[..|es| + n] == fs + fs'[..n];
    }
  }

  lemma {:induction false} SelectRepeat(es: seq<Entry>, f: Fate, keep: set<Fate>)
    ensures Select(es, Repeat(f, |es|), keep) == if f in keep then RecordsIn(es) else []
  {
    if es == [] {
    } else {
      var n := |es| - 1;
      SelectRepeat(es[..n], f, keep);
      assert Repeat(f, |es|)[..n] == Repeat(f, n);
      assert RecordsIn(es) == RecordsIn(es[..n]) + [es[n].rec];
    }
  }

  /** With nothing lost, every record is selected. */
  lemma {:induction false} SelectEverything(es: seq<Entry>, fs: seq<Fate>)
    requires |es| == |fs| && Tally(fs, Overwritten) == 0 && Tally(fs, Failed) == 0 && Tally(fs, Truncated) == 0
    ensures Select(es, fs, {Persisted, Live}) == RecordsIn(es)
  {
    if es == [] {
    } else {
      var n := |es| - 1;
      SelectEverything(es[..n], fs[..n]);
      assert RecordsIn(es) == RecordsIn(es[..n]) + [es[n].rec];
    }
  }

  // ---- A block gives its rows back ----

  lemma SizeFits(n: nat, sch: Schema)
    requires n < 0x1_0000_0000 && sch.dim <= Metadata.MAX_DIM && sch.payloadSize <= Metadata.MAX_PAYLOAD
    ensures ShapeFor(n, sch).SerializedSize() < SIZE_LIMIT
  {
    var rowBytes := sch.RowBytes();
    assert rowBytes <= 4 * Metadata.MAX_DIM;
    Product(n, rowBytes, 4 * Metadata.MAX_DIM);
    Product(n, sch.payloadSize, Metadata.MAX_PAYLOAD);
  }

  lemma Product(n: nat, x: nat, bound: nat)
    requires n < 0x1_0000_0000 && x <= bound
    ensures n * x <= 0x1_0000_0000 * bound
  {
    assert n * x <= n * bound <= 0x1_0000_0000 * bound;
  }

  /** A block reads back as the rows its count field covers. */
  lemma BlockKeepsRows(rs: seq<Record>, sch: Schema, tEnd: i64)
    requires Storable(sch) && sch.dim <= Metadata.MAX_DIM && sch.payloadSize <= Metadata.MAX_PAYLOAD && AllConform(sch, rs)
    ensures Restore(BlockImage(rs, sch, tEnd)) == Some(Covered(rs))
  {
    hide Image, ContentsFor, Restore;
    var kept := Covered(rs);
    var tStart: i64 := if rs == [] then 0 else rs[0].ts;
    SizeFits(|kept|, sch);
    KeptSize(kept, sch, tStart, tEnd);
    StoredRecords(kept, sch, tStart, tEnd);
  }

  /** Its header has the schema, the rows' count as far as 32 bits go, and the stamps: the first row's timestamp and the t_end given. */
  lemma BlockHeaderIs(rs: seq<Record>, sch: Schema, tEnd: i64)
    requires rs != [] && Storable(sch) && sch.dim <= Metadata.MAX_DIM && sch.payloadSize <= Metadata.MAX_PAYLOAD && AllConform(sch, rs)
    ensures var d := Decode(BlockImage(rs, sch, tEnd));
      && d.Ok? && d.contents.shape == Shape(|rs| % 0x1_0000_0000, sch.dim, sch.payloadSize, sch.dtype)
      && d.contents.tStart == rs[0].ts && d.contents.tEnd == tEnd
  {
    hide Image, Decode;
    var kept := Covered(rs);
    var c := ContentsFor(kept, sch, rs[0].ts, tEnd);
    SizeFits(|kept|, sch);
    ContentsForWellFormed(kept, sch, rs[0].ts, tEnd);
    DecodeImage(c, []);
    assert Image(c) + [] == Image(c);
  }

  /** That is all of them if and only if there were fewer than 2^32. */
  lemma BlockReadsBack(rs: seq<Record>, sch: Schema, tEnd: i64)
    requires Storable(sch) && sch.dim <= Metadata.MAX_DIM && sch.payloadSize <= Metadata.MAX_PAYLOAD && AllConform(sch, rs)
    ensures Restore(BlockImage(rs, sch, tEnd)) == Some(rs) <==> |rs| < 0x1_0000_0000
  {
    hide BlockImage, Restore;
    BlockKeepsRows(rs, sch, tEnd);
    var kept := Covered(rs);
    assert kept == rs <==> |kept| == |rs|;
  }

  lemma KeptSize(rs: seq<Record>, sch: Schema, tStart: i64, tEnd: i64)
    requires |rs| < 0x1_0000_0000
    ensures ContentsFor(rs, sch, tStart, tEnd).shape == ShapeFor(|rs|, sch)
  {
  }

  // ---- The invariant ----

  ghost predicate Inv(c: Config, base: seq<Record>, s: Sensor) {
    && |s.fates| == s.tail <= |s.history|
    && (forall i :: 0 <= i < |s.history| ==> c.schema.Conforms(s.history[i].rec))
    && Tally(s.fates, Live) == 0 && (c.capacity < 0x1_0000_0000 ==> Tally(s.fates, Truncated) == 0)
    && s.overwritten == Tally(s.fates, Overwritten) + (s.Begin(c.capacity) - s.tail)
    && Clean(s.vals) && Dense(Blocks(s.vals, c.id), s.next)
    && ReadBack(Blocks(s.vals, c.id), s.next) == base + Select(s.history[..s.tail], s.fates, {Persisted})
  }

  lemma AppendKeeps(c: Config, base: seq<Record>, s: Sensor, e: Entry)
    requires c.Ok() && Inv(c, base, s) && Enabled(c, s, Append(e))
    ensures Inv(c, base, Next(c, s, Append(e)))
  {
    hide Dense, ReadBack, Blocks, Clean, Select, Tally;
    assert (s.history + [e])[..s.tail] == s.history[..s.tail];
  }

  lemma ElsewhereKeeps(c: Config, base: seq<Record>, s: Sensor, vals: Store)
    requires c.Ok() && Inv(c, base, s) && Enabled(c, s, Elsewhere(vals))
    ensures Inv(c, base, Next(c, s, Elsewhere(vals)))
  {
  }

  /** One more block at the end of a dense run of blocks. */
  lemma OneMoreBlock(blocks: map<int, bytes>, n: nat, image: bytes)
    requires Dense(blocks, n) && Restore(image).Some?
    ensures Dense(blocks[n := image], n + 1)
    ensures ReadBack(blocks[n := image], n + 1) == ReadBack(blocks, n) + Restore(image).value
  {
    hide Restore;
    ReadBackSame(blocks, blocks[n := image], n);
  }

  /** One more block, which reads back as these rows. */
  ghost predicate Extended(c: Config, s: Sensor, vals: Store, more: seq<Record>) {
    && Clean(vals) && Dense(Blocks(vals, c.id), s.next + 1)
    && ReadBack(Blocks(vals, c.id), s.next + 1) == ReadBack(Blocks(s.vals, c.id), s.next) + more
  }

  /** What a successful pass does to the log: the evicted rows, as far as the count field reaches, are appended to what the blocks read back as. */
  lemma PassWrites(c: Config, s: Sensor, rs: seq<Record>, tEnd: i64)
    requires c.Ok() && AllConform(c.schema, rs) && s.next < MAX_BLOCK
    requires Clean(s.vals) && Dense(Blocks(s.vals, c.id), s.next)
    ensures Extended(c, s, s.vals[Key(c.id, s.next) := BlockImage(rs, c.schema, tEnd)], Covered(rs))
  {
    hide Restore, BlockImage, Key, Blocks, Dense, Clean;
    var image := BlockImage(rs, c.schema, tEnd);
    BlockKeepsRows(rs, c.schema, tEnd);
    PutRefines(s.vals, c.id, s.next, image, c.id);
    OneMoreBlock(Blocks(s.vals, c.id), s.next, image);
  }

  lemma PassTallies(s: Sensor, begin: nat, f: Fate, n: nat, g: Fate)
    requires s.tail <= begin
    ensures Tally(PassFates(s, begin, f, n), g)
         == Tally(s.fates, g) + (if g == Overwritten then begin - s.tail else 0) + (if g == f then n else 0)
  {
    TallyConcat(s.fates + Repeat(Overwritten, begin - s.tail), Repeat(f, n), g);
    TallyConcat(s.fates, Repeat(Overwritten, begin - s.tail), g);
    TallyRepeat(Overwritten, begin - s.tail, g);
    TallyRepeat(f, n, g);
  }

  lemma SelectParts(passed: seq<Entry>, fates: seq<Fate>, gone: seq<Entry>, taken: seq<Entry>, f: Fate, keep: set<Fate>)
    requires |passed| == |fates| && Overwritten !in keep
    ensures Select(passed + gone + taken, fates + Repeat(Overwritten, |gone|) + Repeat(f, |taken|), keep)
         == Select(passed, fates, keep) + (if f in keep then RecordsIn(taken) else [])
  {
    hide Select, Repeat, RecordsIn;
    var r1, r2 := Repeat(Overwritten, |gone|), Repeat(f, |taken|);
    var kept := Select(passed, fates, keep);
    assert Select(passed + gone, fates + r1, keep) == kept by {
      SelectRepeat(gone, Overwritten, keep);
      SelectConcat(passed, fates, gone, r1, keep);
    }
    assert Select(passed + gone + taken, fates + r1 + r2, keep) == kept + Select(taken, r2, keep) by {
      SelectConcat(passed + gone, fates + r1, taken, r2, keep);
    }
    SelectRepeat(taken, f, keep);
  }

  lemma PassSelects(s: Sensor, begin: nat, f: Fate, n: nat, keep: set<Fate>)
    requires |s.fates| == s.tail <= begin && begin + n <= |s.history| && Overwritten !in keep
    ensures Select(s.history[..begin + n], PassFates(s, begin, f, n), keep)
         == Select(s.history[..s.tail], s.fates, keep) + (if f in keep then RecordsIn(s.history[begin..begin + n]) else [])
  {
    hide Select, Repeat, RecordsIn;
    SelectParts(s.history[..s.tail], s.fates, s.history[s.tail..begin], s.history[begin..begin + n], f, keep);
    assert s.history[..begin + n] == s.history[..s.tail] + s.history[s.tail..begin] + s.history[begin..begin + n];
  }

  /** Behind the rows that share the write's fate come the ones the count left out. */
  lemma PassWithRest(s: Sensor, begin: nat, f: Fate, k: nat, n: nat)
    requires |s.fates| == s.tail <= begin && k <= n && begin + n <= |s.history| && (f == Persisted || f == Failed)
    ensures var fs := PassFates(s, begin, f, k) + Repeat(Truncated, n - k);
      && |fs| == begin + n
      && Tally(fs, Live) == Tally(s.fates, Live)
      && Tally(fs, Truncated) == Tally(s.fates, Truncated) + (n - k)
      && Tally(fs, Overwritten) == Tally(s.fates, Overwritten) + (begin - s.tail)
      && Select(s.history[..begin + n], fs, {Persisted})
         == Select(s.history[..s.tail], s.fates, {Persisted}) + (if f == Persisted then RecordsIn(s.history[begin..begin + k]) else [])
  {
    hide Select, Tally, RecordsIn;
    var front, rest := PassFates(s, begin, f, k), s.history[begin + k..begin + n];
    PassTally(s, begin, f, k, n, Live);
    PassTally(s, begin, f, k, n, Truncated);
    PassTally(s, begin, f, k, n, Overwritten);
    PassSelects(s, begin, f, k, {Persisted});
    SelectRepeat(rest, Truncated, {Persisted});
    SelectConcat(s.history[..begin + k], front, rest, Repeat(Truncated, n - k), {Persisted});
    assert s.history[..begin + n] == s.history[..begin + k] + rest;
  }

  lemma PassTally(s: Sensor, begin: nat, f: Fate, k: nat, n: nat, g: Fate)
    requires s.tail <= begin && k <= n
    ensures Tally(PassFates(s, begin, f, k) + Repeat(Truncated, n - k), g)
         == Tally(s.fates, g) + (if g == Overwritten then begin - s.tail else 0) + (if g == f then k else 0) + (if g == Truncated then n - k else 0)
  {
    hide Tally, Repeat;
    PassTallies(s, begin, f, k, g);
    TallyConcat(PassFates(s, begin, f, k), Repeat(Truncated, n - k), g);
    TallyRepeat(Truncated, n - k, g);
  }

  lemma KeptRows(history: seq<Entry>, begin: nat, n: nat, ioOk: bool)
    requires begin + n <= |history|
    ensures |RecordsIn(history[begin..][..n])| == n
    ensures ioOk ==> Covered(RecordsIn(history[begin..][..n])) == RecordsIn(history[begin..begin + Kept(n, ioOk)])
  {
  }

  /** What a pass does to the fates, and to what they select. */
  lemma PassFatesAre(s: Sensor, begin: nat, n: nat, ioOk: bool, fs: seq<Fate>)
    requires |s.fates| == s.tail <= begin && begin + n <= |s.history|
    requires fs == PassFates(s, begin, if ioOk then Persisted else Failed, Kept(n, ioOk)) + Repeat(Truncated, n - Kept(n, ioOk))
    ensures |fs| == begin + n && Tally(fs, Live) == Tally(s.fates, Live)
    ensures Tally(fs, Truncated) == Tally(s.fates, Truncated) + (n - Kept(n, ioOk))
    ensures Tally(fs, Overwritten) == Tally(s.fates, Overwritten) + (begin - s.tail)
    ensures Select(s.history[..begin + n], fs, {Persisted})
         == Select(s.history[..s.tail], s.fates, {Persisted}) + (if ioOk then Covered(RecordsIn(s.history[begin..][..n])) else [])
  {
    hide Select, Tally, RecordsIn, PassFates, Repeat, Kept, Covered;
    PassWithRest(s, begin, if ioOk then Persisted else Failed, Kept(n, ioOk), n);
    KeptRows(s.history, begin, n, ioOk);
  }

  /** What it does to the store. */
  lemma PassStores(c: Config, s: Sensor, rs: seq<Record>, tEnd: i64, ioOk: bool, vals: Store, next: nat)
    requires c.Ok() && AllConform(c.schema, rs) && s.next < MAX_BLOCK
    requires Clean(s.vals) && Dense(Blocks(s.vals, c.id), s.next)
    requires vals == (if ioOk then s.vals[Key(c.id, s.next) := BlockImage(rs, c.schema, tEnd)] else s.vals)
    requires next == s.next + (if ioOk then 1 else 0)
    ensures Clean(vals) && Dense(Blocks(vals, c.id), next)
    ensures ReadBack(Blocks(vals, c.id), next) == ReadBack(Blocks(s.vals, c.id), s.next) + (if ioOk then Covered(rs) else [])
  {
    hide Dense, ReadBack, Blocks, Clean, BlockImage, Key, Covered;
    if ioOk {
      PassWrites(c, s, rs, tEnd);
    } else {
      assert ReadBack(Blocks(s.vals, c.id), s.next) + [] == ReadBack(Blocks(s.vals, c.id), s.next);
    }
  }

  lemma PassConforms(sch: Schema, history: seq<Entry>, begin: nat, n: nat)
    requires begin + n <= |history| && forall i :: 0 <= i < |history| ==> sch.Conforms(history[i].rec)
    ensures AllConform(sch, RecordsIn(history[begin..][..n]))
  {
  }

  lemma EvictKeeps(c: Config, base: seq<Record>, s: Sensor, window: nat, tEnd: i64, ioOk: bool)
    requires c.Ok() && Inv(c, base, s) && Enabled(c, s, Evict(window, tEnd, ioOk))
    ensures Inv(c, base, Next(c, s, Evict(window, tEnd, ioOk)))
  {
    hide Dense, ReadBack, Blocks, Clean, Select, Tally, BlockImage, Key, Cut, TimesOf, Repeat, Kept, PassFates, RecordsIn, Covered, AllConform;
    var begin := s.Begin(c.capacity);
    var n := Cut(TimesOf(s.history[begin..]), window);
    if n > 0 {
      var t, rs := Next(c, s, Evict(window, tEnd, ioOk)), RecordsIn(s.history[begin..][..n]);
      PassConforms(c.schema, s.history, begin, n);
      PassFatesAre(s, begin, n, ioOk, t.fates);
      PassStores(c, s, rs, tEnd, ioOk, t.vals, t.next);
      var front, kept := Select(s.history[..s.tail], s.fates, {Persisted}), if ioOk then Covered(rs) else [];
      assert base + front + kept == base + (front + kept);
    }
  }

  // ---- Runs ----

  /** A fresh ring, empty or holding recovered entries, over whatever blocks the sensor already has. */
  ghost predicate Initial(c: Config, s: Sensor) {
    && c.Ok() && s == Sensor(s.history, 0, 0, s.next, s.vals, [])
    && |s.history| <= c.capacity && (forall i :: 0 <= i < |s.history| ==> c.schema.Conforms(s.history[i].rec))
    && Clean(s.vals) && Dense(Blocks(s.vals, c.id), s.next)
  }

  ghost predicate Reached(c: Config, s0: Sensor, run: seq<Action>, s: Sensor) {
    if run == [] then s == s0 && Initial(c, s0)
    else exists p: Sensor ::
           && Reached(c, s0, run[..|run| - 1], p) && p.tail <= |p.history|
           && Enabled(c, p, run[|run| - 1]) && s == Next(c, p, run[|run| - 1])
  }

  lemma {:induction false} InvReached(c: Config, s0: Sensor, run: seq<Action>, s: Sensor)
    requires Reached(c, s0, run, s)
    ensures c.Ok() && Inv(c, ReadBack(Blocks(s0.vals, c.id), s0.next), s)
  {
    hide Dense, ReadBack, Blocks, Clean, Next;
    var base := ReadBack(Blocks(s0.vals, c.id), s0.next);
    if run == [] {
      assert base + [] == base;
    } else {
      var a := run[|run| - 1];
      var p: Sensor :| Reached(c, s0, run[..|run| - 1], p) && p.tail <= |p.history| && Enabled(c, p, a) && s == Next(c, p, a);
      InvReached(c, s0, run[..|run| - 1], p);
      match a
      case Append(e) => AppendKeeps(c, base, p, e);
      case Evict(window, tEnd, ioOk) => EvictKeeps(c, base, p, window, tEnd, ioOk);
      case Elsewhere(vals) => ElsewhereKeeps(c, base, p, vals);
    }
  }

  /** Nothing appended, or recovered before, is ever changed in the history. */
  lemma {:induction false} HistoryGrows(c: Config, s0: Sensor, run: seq<Action>, s: Sensor)
    requires Reached(c, s0, run, s)
    ensures s0.history <= s.history
  {
    if run == [] {
      assert s == s0;
    } else {
      var p: Sensor :| Reached(c, s0, run[..|run| - 1], p) && p.tail <= |p.history|
                       && Enabled(c, p, run[|run| - 1]) && s == Next(c, p, run[|run| - 1]);
      HistoryGrows(c, s0, run[..|run| - 1], p);
    }
  }

  lemma FatesLength(s: Sensor, begin: nat, n: nat)
    requires |s.fates| == s.tail <= begin
    ensures |PassFates(s, begin, Live, n)| == begin + n
  {
  }

  /** The log: what the blocks read back as, followed by the window, is everything appended
    * except exactly the overwritten entries, those of failed writes, and those a block's count left out. */
  lemma LogIsHistoryMinusLoss(c: Config, s0: Sensor, run: seq<Action>, s: Sensor)
    requires Reached(c, s0, run, s)
    ensures s.tail <= |s.history| == |FatesOf(c, s)|
    ensures ReadBack(Blocks(s.vals, c.id), s.next) + RecordsIn(s.history[s.Begin(c.capacity)..])
         == ReadBack(Blocks(s0.vals, c.id), s0.next) + Select(s.history, FatesOf(c, s), {Persisted, Live})
  {
    hide Dense, ReadBack, Blocks, Clean, Select, Tally, Repeat, RecordsIn, PassFates, Reached;
    InvReached(c, s0, run, s);
    var begin := s.Begin(c.capacity);
    var base := ReadBack(Blocks(s0.vals, c.id), s0.next);
    var n := |s.history| - begin;
    assert s.history[..begin + n] == s.history && s.history[begin..begin + n] == s.history[begin..];
    PassSelects(s, begin, Live, n, {Persisted, Live});
    FatesLength(s, begin, n);
    SelectPersisted(s.history[..s.tail], s.fates);
    var tail, window := Select(s.history[..s.tail], s.fates, {Persisted}), RecordsIn(s.history[begin..]);
    assert base + tail + window == base + (tail + window);
  }

  lemma {:induction false} SelectPersisted(es: seq<Entry>, fs: seq<Fate>)
    requires |es| == |fs| && Tally(fs, Live) == 0
    ensures Select(es, fs, {Persisted, Live}) == Select(es, fs, {Persisted})
  {
    if es == [] {
    } else {
      SelectPersisted(es[..|es| - 1], fs[..|fs| - 1]);
    }
  }

  /** Every appended entry is accounted for, and the overwrite counter is exact when operations do not overlap. */
  lemma EveryEntryIsAccountedFor(c: Config, s0: Sensor, run: seq<Action>, s: Sensor)
    requires Reached(c, s0, run, s)
    ensures s.tail <= |s.history|
    ensures var fs := FatesOf(c, s);
      && |s.history| == Tally(fs, Persisted) + Tally(fs, Failed) + Tally(fs, Truncated) + s.overwritten + Tally(fs, Live)
      && (c.capacity < 0x1_0000_0000 ==> Tally(fs, Truncated) == 0)
      && s.overwritten == Tally(fs, Overwritten)
      && Tally(fs, Live) == |s.history| - s.Begin(c.capacity) <= c.capacity
  {
    hide Dense, ReadBack, Blocks, Clean, Select, Tally, Repeat, RecordsIn, PassFates, Reached;
    InvReached(c, s0, run, s);
    var begin := s.Begin(c.capacity);
    PassTallies(s, begin, Live, |s.history| - begin, Overwritten);
    PassTallies(s, begin, Live, |s.history| - begin, Live);
    PassTallies(s, begin, Live, |s.history| - begin, Truncated);
    TallyAll(FatesOf(c, s));
    FatesLength(s, begin, |s.history| - begin);
  }

  /** With no overwrite, no failed write and no pass too large for a block, nothing is missing. */
  lemma LogIsHistory(c: Config, s0: Sensor, run: seq<Action>, s: Sensor)
    requires Reached(c, s0, run, s)
    requires s.tail <= |s.history| && s.overwritten == 0 && Tally(s.fates, Failed) == 0
    requires c.capacity < 0x1_0000_0000 || Tally(s.fates, Truncated) == 0
    ensures ReadBack(Blocks(s.vals, c.id), s.next) + RecordsIn(s.history[s.Begin(c.capacity)..])
         == ReadBack(Blocks(s0.vals, c.id), s0.next) + RecordsIn(s.history)
  {
    hide Dense, ReadBack, Blocks, Clean, Select, Tally;
    LogIsHistoryMinusLoss(c, s0, run, s);
    EveryEntryIsAccountedFor(c, s0, run, s);
    PassTallies(s, s.Begin(c.capacity), Live, |s.history| - s.Begin(c.capacity), Failed);
    PassTallies(s, s.Begin(c.capacity), Live, |s.history| - s.Begin(c.capacity), Truncated);
    SelectEverything(s.history, FatesOf(c, s));
  }

  // ---- Block ids ----

  /** No write lands on a key that is in use: stored ids are exactly 0..next-1. */
  lemma WritesHitFreshKeys(c: Config, s0: Sensor, run: seq<Action>, s: Sensor)
    requires Reached(c, s0, run, s) && s.next < MAX_BLOCK
    ensures Key(c.id, s.next) !in s.vals
    ensures forall b :: b in Blocks(s.vals, c.id) <==> 0 <= b < s.next
  {
    InvReached(c, s0, run, s);
    assert s.next !in Blocks(s.vals, c.id);
  }

  lemma {:induction false} AscendingCover(ids: seq<int>, n: nat)
    requires forall i, j :: 0 <= i < j < |ids| ==> ids[i] < ids[j]
    requires forall b :: b in ids <==> 0 <= b < n
    ensures |ids| == n && forall i :: 0 <= i < n ==> ids[i] == i
  {
    assert |ids| > 0 ==> ids[0] in ids;
    if n == 0 {
    } else {
      var last := |ids| - 1;
      assert n - 1 in ids;
      var k :| 0 <= k < |ids| && ids[k] == n - 1;
      assert ids[last] in ids;
      assert k == last;
      var init := ids[..last];
      forall b ensures b in init <==> 0 <= b < n - 1 {
        if b in init {
          var i :| 0 <= i < last && init[i] == b;
          assert ids[i] in ids;
        }
        if 0 <= b < n - 1 {
          assert b in ids;
        }
      }
      AscendingCover(init, n - 1);
    }
  }

  /** ListBlocks returns 0..n-1 in order, so Open resumes at n. */
  lemma ListedInOrder(vals: Store, id: bytes, ids: seq<i64>, n: nat)
    requires ListsBlocks(vals, id, ids) && n <= MAX_BLOCK
    requires forall b :: b in Blocks(vals, id) <==> 0 <= b < n
    ensures |ids| == n && forall i :: 0 <= i < n ==> ids[i] == i
    ensures (if ids == [] then 0 else ids[|ids| - 1] + 1) == n
  {
    hide Blocks;
    var plain: seq<int> := ids;
    forall b ensures b in plain <==> 0 <= b < n {
      if 0 <= b < n {
        assert b in Blocks(vals, id);
      }
      if b in plain {
        var i :| 0 <= i < |ids| && ids[i] == b;
        assert ids[i] in ids;
      }
    }
    forall i, j | 0 <= i < j < |plain| ensures plain[i] < plain[j] {
      assert plain[i] in plain && plain[j] in plain;
    }
    AscendingCover(plain, n);
  }

  lemma {:induction false} ListedReadBack(blocks: map<int, bytes>, ids: seq<i64>)
    requires forall i :: 0 <= i < |ids| ==> ids[i] == i
    ensures ReadListed(blocks, ids) == ReadBack(blocks, |ids|)
  {
    if ids == [] {
    } else {
      ListedReadBack(blocks, ids[..|ids| - 1]);
    }
  }

  /** The log in the terms of the storage interface: list the sensor's blocks, read each, and put the window behind them. */
  lemma ListedLog(c: Config, s0: Sensor, run: seq<Action>, s: Sensor, ids: seq<i64>)
    requires Reached(c, s0, run, s) && s.next <= MAX_BLOCK && ListsBlocks(s.vals, c.id, ids)
    ensures s.tail <= |s.history| == |FatesOf(c, s)|
    ensures ReadListed(Blocks(s.vals, c.id), ids) + RecordsIn(s.history[s.Begin(c.capacity)..])
         == ReadBack(Blocks(s0.vals, c.id), s0.next) + Select(s.history, FatesOf(c, s), {Persisted, Live})
  {
    hide Reached, Blocks, ReadBack, ReadListed, Select;
    InvReached(c, s0, run, s);
    ListedInOrder(s.vals, c.id, ids, s.next);
    ListedReadBack(Blocks(s.vals, c.id), ids);
    LogIsHistoryMinusLoss(c, s0, run, s);
  }
}
