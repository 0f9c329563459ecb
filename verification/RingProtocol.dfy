/** The ring under concurrency: one producer, one evictor at a time and any number of readers, one memory access per step. */
module RingProtocol {
  import opened Wrappers
  import opened Modular

  // ---- States and steps ----

  type Cell = int
  type Row = seq<Cell>

  /** capacity slots of width cells each: timestamp, vector words, norm, scale and payload are all cells. */
  datatype Config = Config(capacity: nat, width: nat) {
    predicate Ok() {
      capacity > 0 && width > 0
    }

    function Slot(i: nat): (n: nat)
      requires capacity > 0
      ensures n < capacity
    {
      i % capacity
    }
  }

  /** One append. A cell that is not given (a null payload) keeps what the slot held before. */
  type Input = seq<Option<Cell>>

  function Merge(input: Input, before: Row): (row: Row)
    requires |input| == |before|
    ensures |row| == |input|
  {
    seq(|input|, k requires 0 <= k < |input| => if input[k].Some? then input[k].value else before[k])
  }

  datatype Producer =
    | Idle
    | Started(input: Input, before: Row)
    | SawTail(input: Input, before: Row, t: nat)
    | Writing(input: Input, before: Row, done: nat)

  datatype Evictor =
    | Resting
    | LoadedTail(t: nat)
    | Scanning(begin: nat, end: nat)
    | Copying(begin: nat, newTail: nat, rows: seq<Row>, part: Row)

  datatype Reader =
    | ReaderSawTail(t: nat)
    | Window(begin: nat, end: nat)
    | Reading(begin: nat, end: nat, idx: nat, part: Row)

  /** Shared memory, the program counters, and three history variables: hist, copied and counted. */
  datatype State = State(
    cells: seq<Row>, head: nat, tail: nat, events: nat, overwritten: nat,
    producer: Producer, evictor: Evictor, readers: map<nat, Reader>,
    hist: seq<Row>, copied: map<nat, Row>, counted: set<nat>)

  datatype Action =
    | Begin(input: Input)
    | LoadTail
    | Count
    | WriteCell
    | Publish
    | EvictLoadTail
    | EvictLoadHead
    | Choose(newTail: nat)
    | CopyCell
    | StoreTail
    | ReadLoadTail(r: nat)
    | ReadLoadHead(r: nat)
    | Pick(r: nat, idx: nat)
    | ReadCell(r: nat)
    | Finish(r: nat)

  predicate Initial(c: Config, s: State) {
    && c.Ok()
    && |s.cells| == c.capacity
    && (forall n :: 0 <= n < c.capacity ==> |s.cells[n]| == c.width)
    && s == State(s.cells, 0, 0, 0, 0, Idle, Resting, map[], [], map[], {})
  }

  /** Snapshot: the newest capacity entries when the producer has lapped the loaded tail. */
  function SnapshotBegin(c: Config, t: nat, h: nat): nat {
    if h - t > c.capacity then h - c.capacity else t
  }

  /** Rows by the index they were copied for. */
  function Handed(begin: nat, rows: seq<Row>): (m: map<nat, Row>)
    ensures forall i :: i in m <==> begin <= i < begin + |rows|
    ensures forall i :: i in m ==> m[i] == rows[i - begin]
  {
    if rows == [] then map[] else Handed(begin, rows[..|rows| - 1])[begin + |rows| - 1 := rows[|rows| - 1]]
  }

  predicate Shaped(c: Config, s: State) {
    c.Ok() && |s.cells| == c.capacity && forall n :: 0 <= n < c.capacity ==> |s.cells[n]| == c.width
  }

  predicate Enabled(c: Config, s: State, a: Action)
    requires Shaped(c, s)
  {
    match a
    case Begin(input) => s.producer.Idle? && |input| == c.width
    case LoadTail => s.producer.Started?
    case Count => s.producer.SawTail?
    case WriteCell => s.producer.Writing? && s.producer.done < c.width == |s.producer.input|
    case Publish => s.producer.Writing? && s.producer.done == c.width == |s.producer.input| == |s.producer.before|
    case EvictLoadTail => s.evictor.Resting?
    case EvictLoadHead => s.evictor.LoadedTail?
    case Choose(n) => s.evictor.Scanning? && s.evictor.begin <= n <= s.evictor.end
    case CopyCell => s.evictor.Copying? && s.evictor.begin + |s.evictor.rows| < s.evictor.newTail && |s.evictor.part| < c.width
    case StoreTail => s.evictor.Copying? && s.evictor.begin + |s.evictor.rows| == s.evictor.newTail
    case ReadLoadTail(r) => true
    case ReadLoadHead(r) => r in s.readers && s.readers[r].ReaderSawTail?
    case Pick(r, idx) => r in s.readers && s.readers[r].Window? && s.readers[r].begin <= idx < s.readers[r].end
    case ReadCell(r) => r in s.readers && s.readers[r].Reading? && |s.readers[r].part| < c.width
    case Finish(r) => r in s.readers && s.readers[r].Reading? && |s.readers[r].part| == c.width
  }

  function Next(c: Config, s: State, a: Action): State
    requires Shaped(c, s) && Enabled(c, s, a)
  {
    match a
    // Append
    case Begin(input) =>
      s.(producer := Started(input, s.cells[c.Slot(s.head)]))
    case LoadTail =>
      s.(producer := SawTail(s.producer.input, s.producer.before, s.tail))
    case Count =>
      var lap := s.head - s.producer.t >= c.capacity;
      s.(producer := Writing(s.producer.input, s.producer.before, 0),
         events := s.events + (if lap then 1 else 0),
         overwritten := s.overwritten + (if lap then 1 else 0),
         counted := s.counted + (if lap then {s.head} else {}))
    case WriteCell =>
      var n, k := c.Slot(s.head), s.producer.done;
      var row := if s.producer.input[k].Some? then s.cells[n][k := s.producer.input[k].value] else s.cells[n];
      s.(producer := s.producer.(done := k + 1), cells := s.cells[n := row])
    case Publish =>
      s.(producer := Idle, head := s.head + 1, hist := s.hist + [Merge(s.producer.input, s.producer.before)])
    // EvictSensor
    case EvictLoadTail =>
      s.(evictor := LoadedTail(s.tail))
    case EvictLoadHead =>
      s.(evictor := Scanning(SnapshotBegin(c, s.evictor.t, s.head), s.head))
    case Choose(n) =>
      s.(evictor := if n == s.evictor.begin then Resting else Copying(s.evictor.begin, n, [], []))
    case CopyCell =>
      var e := s.evictor;
      var part := e.part + [s.cells[c.Slot(e.begin + |e.rows|)][|e.part|]];
      s.(evictor := if |part| == c.width then e.(rows := e.rows + [part], part := []) else e.(part := part))
    case StoreTail =>
      var e := s.evictor;
      s.(evictor := Resting, tail := e.newTail,
         copied := s.copied + Handed(e.begin, e.rows))
    // Queries
    case ReadLoadTail(r) =>
      s.(readers := s.readers[r := ReaderSawTail(s.tail)])
    case ReadLoadHead(r) =>
      s.(readers := s.readers[r := Window(SnapshotBegin(c, s.readers[r].t, s.head), s.head)])
    case Pick(r, idx) =>
      s.(readers := s.readers[r := Reading(s.readers[r].begin, s.readers[r].end, idx, [])])
    case ReadCell(r) =>
      var d := s.readers[r];
      s.(readers := s.readers[r := d.(part := d.part + [s.cells[c.Slot(d.idx)][|d.part|]])])
    case Finish(r) =>
      s.(readers := s.readers[r := Window(s.readers[r].begin, s.readers[r].end)])
  }

  /** s is reached from an initial state by these actions, in any interleaving. */
  ghost predicate Reached(c: Config, run: seq<Action>, s: State) {
    if run == [] then Initial(c, s)
    else exists p: State ::
           && Reached(c, run[..|run| - 1], p)
           && Shaped(c, p) && Enabled(c, p, run[|run| - 1])
           && s == Next(c, p, run[|run| - 1])
  }

  // ---- The invariant ----

  /** Entry i's slot is being, or has been, written by a later append. */
  predicate Disturbed(c: Config, s: State, i: nat) {
    s.head > i + c.capacity || (s.head == i + c.capacity && s.producer.Writing?)
  }

  predicate Counted(c: Config, s: State, i: nat) {
    i + c.capacity in s.counted
  }

  predicate Faithful(s: State, i: nat) {
    i < |s.hist| && i in s.copied && s.copied[i] == s.hist[i]
  }

  /** Still in the window, with the appended row in its slot. */
  predicate Live(c: Config, s: State, i: nat) {
    s.tail <= i < s.head <= i + c.capacity && Shaped(c, s) && i < |s.hist| && s.cells[c.Slot(i)] == s.hist[i]
  }

  predicate Wide(c: Config, s: State) {
    |s.hist| == s.head && forall i :: 0 <= i < s.head ==> |s.hist[i]| == c.width
  }

  predicate MemoryInv(c: Config, s: State) {
    && Shaped(c, s)
    && Wide(c, s)
    && s.tail <= s.head
    && (forall i: nat :: i < s.head && !Disturbed(c, s, i) ==> s.cells[c.Slot(i)] == s.hist[i])
  }

  predicate ProducerInv(c: Config, s: State)
    requires Shaped(c, s)
  {
    match s.producer
    case Idle => true
    case Started(input, before) => |input| == c.width && before == s.cells[c.Slot(s.head)]
    case SawTail(input, before, t) => |input| == c.width && before == s.cells[c.Slot(s.head)] && t <= s.tail
    case Writing(input, before, done) =>
      && |input| == |before| == c.width && done <= c.width
      && s.cells[c.Slot(s.head)] == Merge(input, before)[..done] + before[done..]
      && (s.head in s.counted || s.head < s.tail + c.capacity)
  }

  /** Every append that reused a slot was counted, or came after the tail had passed that slot's entry. */
  predicate CountInv(c: Config, s: State) {
    && (forall k :: k in s.counted ==> c.capacity <= k && (k < s.head || (k == s.head && s.producer.Writing?)))
    && (forall k: nat :: c.capacity <= k < s.head ==> k in s.counted || k < s.tail + c.capacity)
    && s.overwritten == s.events == |s.counted|
  }

  /** Every entry the tail has passed was copied faithfully or its overwrite was counted. */
  predicate TailInv(c: Config, s: State) {
    && (forall i: nat :: i < s.tail ==> Faithful(s, i) || Counted(c, s, i))
    && (forall i :: i in s.copied ==> i < s.tail)
  }

  predicate Skipped(c: Config, s: State, begin: nat) {
    forall i: nat :: s.tail <= i < begin ==> Counted(c, s, i)
  }

  /** What the evictor holds so far: each row, and each cell of the row at hand, is right or its overwrite was counted. */
  predicate CopyInv(c: Config, s: State, begin: nat, newTail: nat, rows: seq<Row>, part: Row)
    requires Wide(c, s)
  {
    && begin < newTail <= s.head && begin + |rows| <= newTail && |part| < c.width
    && (forall m :: 0 <= m < |rows| ==> rows[m] == s.hist[begin + m] || Counted(c, s, begin + m))
    && (begin + |rows| == newTail ==> part == [])
    && (begin + |rows| < newTail ==> part == s.hist[begin + |rows|][..|part|] || Counted(c, s, begin + |rows|))
  }

  predicate EvictorInv(c: Config, s: State)
    requires Wide(c, s)
  {
    match s.evictor
    case Resting => true
    case LoadedTail(t) => t == s.tail
    case Scanning(begin, end) => s.tail <= begin <= end <= s.head && Skipped(c, s, begin)
    case Copying(begin, newTail, rows, part) =>
      s.tail <= begin && Skipped(c, s, begin) && CopyInv(c, s, begin, newTail, rows, part)
  }

  predicate ReaderInv(c: Config, s: State, d: Reader)
    requires Wide(c, s)
  {
    match d
    case ReaderSawTail(t) => t <= s.tail
    case Window(begin, end) => begin <= end <= s.head && end - begin <= c.capacity
    case Reading(begin, end, idx, part) =>
      && begin <= idx < end <= s.head && end - begin <= c.capacity
      && |part| <= c.width
      && (Disturbed(c, s, idx) || part == s.hist[idx][..|part|])
  }

  predicate ReadersInv(c: Config, s: State)
    requires Wide(c, s)
  {
    forall r :: r in s.readers ==> ReaderInv(c, s, s.readers[r])
  }

  predicate Inv(c: Config, s: State) {
    && MemoryInv(c, s)
    && ProducerInv(c, s)
    && CountInv(c, s)
    && TailInv(c, s)
    && EvictorInv(c, s)
    && ReadersInv(c, s)
  }

  /** An entry at or above the tail whose slot was reused has had the reuse counted. */
  lemma DisturbedIsCounted(c: Config, s: State, i: nat)
    requires MemoryInv(c, s) && ProducerInv(c, s) && CountInv(c, s)
    requires s.tail <= i && Disturbed(c, s, i)
    ensures Counted(c, s, i)
  {
  }

  // ---- Every step keeps it ----

  lemma SlotApart(c: Config, i: nat, h: nat)
    requires c.capacity > 0 && i < h < i + c.capacity
    ensures c.Slot(i) != c.Slot(h)
  {
    ModApart(i, h, c.capacity);
  }

  /** What every step does: nothing published, counted or disturbed is undone, and the tail never falls. */
  predicate Grows(c: Config, s: State, s': State) {
    && |s.hist| == s.head <= s'.head == |s'.hist| && s.tail <= s'.tail
    && (forall i :: 0 <= i < s.head ==> s'.hist[i] == s.hist[i])
    && (forall k :: k in s.counted ==> k in s'.counted)
    && (s.producer.Writing? ==> s'.producer.Writing? || s'.head > s.head)
  }

  lemma TailFrame(c: Config, s: State, s': State)
    requires Grows(c, s, s') && TailInv(c, s)
    requires s'.tail == s.tail && s'.copied == s.copied
    ensures TailInv(c, s')
  {
    forall i: nat | i < s'.tail ensures Faithful(s', i) || Counted(c, s', i) {
      assert Faithful(s, i) || Counted(c, s, i);
    }
  }

  lemma SkippedFrame(c: Config, s: State, s': State, begin: nat)
    requires Grows(c, s, s') && s'.tail == s.tail && Skipped(c, s, begin)
    ensures Skipped(c, s', begin)
  {
    forall i: nat | s'.tail <= i < begin ensures Counted(c, s', i) {
      assert Counted(c, s, i);
    }
  }

  lemma EvictorFrame(c: Config, s: State, s': State)
    requires Wide(c, s) && Wide(c, s') && Grows(c, s, s') && EvictorInv(c, s)
    requires s'.tail == s.tail && s'.evictor == s.evictor
    ensures EvictorInv(c, s')
  {
    if s.evictor.Scanning? || s.evictor.Copying? {
      SkippedFrame(c, s, s', s.evictor.begin);
    }
  }

  lemma ReaderFrame(c: Config, s: State, s': State, d: Reader)
    requires Wide(c, s) && Wide(c, s') && Grows(c, s, s') && ReaderInv(c, s, d)
    ensures ReaderInv(c, s', d)
  {
  }

  lemma ReadersFrame(c: Config, s: State, s': State)
    requires Wide(c, s) && Wide(c, s') && Grows(c, s, s')
    requires ReadersInv(c, s) && s'.readers == s.readers
    ensures ReadersInv(c, s')
  {
    forall r | r in s.readers ensures ReaderInv(c, s', s.readers[r]) {
      ReaderFrame(c, s, s', s.readers[r]);
    }
  }

  lemma InitialInv(c: Config, s: State)
    requires Initial(c, s)
    ensures Inv(c, s)
  {
  }

  predicate ProducerAction(a: Action) {
    a.Begin? || a.LoadTail? || a.Count? || a.WriteCell? || a.Publish?
  }

  predicate EvictorAction(a: Action) {
    a.EvictLoadTail? || a.EvictLoadHead? || a.Choose? || a.CopyCell? || a.StoreTail?
  }

  lemma StepGrows(c: Config, s: State, a: Action)
    requires Inv(c, s) && Enabled(c, s, a)
    ensures Grows(c, s, Next(c, s, a))
  {
  }

  /** The producer leaves the other threads' invariants alone once its own and the memory's are kept. */
  lemma ProducerFrame(c: Config, s: State, a: Action)
    requires Inv(c, s) && Enabled(c, s, a) && ProducerAction(a)
    requires MemoryInv(c, Next(c, s, a)) && ProducerInv(c, Next(c, s, a)) && CountInv(c, Next(c, s, a))
    ensures Inv(c, Next(c, s, a))
  {
    var s' := Next(c, s, a);
    StepGrows(c, s, a);
    TailFrame(c, s, s');
    EvictorFrame(c, s, s');
    ReadersFrame(c, s, s');
  }

  lemma BeginKeeps(c: Config, s: State, a: Action)
    requires Inv(c, s) && Enabled(c, s, a) && (a.Begin? || a.LoadTail?)
    ensures Inv(c, Next(c, s, a))
  {
    var s' := Next(c, s, a);
    forall i: nat | i < s'.head && !Disturbed(c, s', i) ensures s'.cells[c.Slot(i)] == s'.hist[i] {
      assert !Disturbed(c, s, i);
    }
    ProducerFrame(c, s, a);
  }

  lemma CountKeeps(c: Config, s: State)
    requires Inv(c, s) && Enabled(c, s, Count)
    ensures Inv(c, Next(c, s, Count))
  {
    var s' := Next(c, s, Count);
    var p := s.producer;
    assert Merge(p.input, p.before)[..0] + p.before[0..] == p.before;
    forall i: nat | i < s'.head && !Disturbed(c, s', i) ensures s'.cells[c.Slot(i)] == s'.hist[i] {
      assert !Disturbed(c, s, i);
    }
    assert s.head !in s.counted;
    ProducerFrame(c, s, Count);
  }

  lemma WriteCellKeeps(c: Config, s: State)
    requires Inv(c, s) && Enabled(c, s, WriteCell)
    ensures Inv(c, Next(c, s, WriteCell))
  {
    var s' := Next(c, s, WriteCell);
    var p := s.producer;
    var merged := Merge(p.input, p.before);
    assert s'.cells[c.Slot(s.head)] == merged[..p.done + 1] + p.before[p.done + 1..];
    forall i: nat | i < s'.head && !Disturbed(c, s', i) ensures s'.cells[c.Slot(i)] == s'.hist[i] {
      assert !Disturbed(c, s, i);
      SlotApart(c, i, s.head);
    }
    ProducerFrame(c, s, WriteCell);
  }

  lemma PublishKeeps(c: Config, s: State)
    requires Inv(c, s) && Enabled(c, s, Publish)
    ensures Inv(c, Next(c, s, Publish))
  {
    var s' := Next(c, s, Publish);
    var p := s.producer;
    assert s.cells[c.Slot(s.head)] == Merge(p.input, p.before);
    forall i: nat | i < s'.head && !Disturbed(c, s', i) ensures s'.cells[c.Slot(i)] == s'.hist[i] {
      if i < s.head {
        assert !Disturbed(c, s, i);
      }
    }
    ProducerFrame(c, s, Publish);
  }

  /** The evictor's own steps keep everything once its own invariant and the tail's are kept. */
  lemma EvictorSideFrame(c: Config, s: State, a: Action)
    requires Inv(c, s) && Enabled(c, s, a) && EvictorAction(a)
    requires Next(c, s, a).tail <= s.head
    requires TailInv(c, Next(c, s, a)) && Wide(c, Next(c, s, a)) && EvictorInv(c, Next(c, s, a))
    ensures Inv(c, Next(c, s, a))
  {
    var s' := Next(c, s, a);
    StepGrows(c, s, a);
    ReadersFrame(c, s, s');
    forall i: nat | i < s'.head && !Disturbed(c, s', i) ensures s'.cells[c.Slot(i)] == s'.hist[i] {
      assert !Disturbed(c, s, i);
    }
  }

  lemma LoadsKeep(c: Config, s: State, a: Action)
    requires Inv(c, s) && Enabled(c, s, a) && (a.EvictLoadTail? || a.EvictLoadHead? || a.Choose?)
    ensures Inv(c, Next(c, s, a))
  {
    var s' := Next(c, s, a);
    StepGrows(c, s, a);
    TailFrame(c, s, s');
    if a.EvictLoadHead? {
      forall i: nat | s'.tail <= i < s'.evictor.begin ensures Counted(c, s', i) {
        assert i + c.capacity < s.head;
      }
    }
    if a.Choose? {
      SkippedFrame(c, s, s', s.evictor.begin);
    }
    EvictorSideFrame(c, s, a);
  }

  lemma CopyExtends(c: Config, s: State, begin: nat, newTail: nat, rows: seq<Row>, part: Row, cell: Cell)
    requires Wide(c, s) && CopyInv(c, s, begin, newTail, rows, part)
    requires begin + |rows| < newTail
    requires cell == s.hist[begin + |rows|][|part|] || Counted(c, s, begin + |rows|)
    ensures |part| + 1 < c.width ==> CopyInv(c, s, begin, newTail, rows, part + [cell])
    ensures |part| + 1 == c.width ==> CopyInv(c, s, begin, newTail, rows + [part + [cell]], [])
  {
    var i := begin + |rows|;
    if !Counted(c, s, i) {
      assert part + [cell] == s.hist[i][..|part| + 1];
    }
  }

  lemma CopyCellOwn(c: Config, s: State, e: Evictor)
    requires MemoryInv(c, s) && ProducerInv(c, s) && CountInv(c, s)
    requires e.Copying? && s.tail <= e.begin && CopyInv(c, s, e.begin, e.newTail, e.rows, e.part)
    requires e.begin + |e.rows| < e.newTail
    ensures
      var part := e.part + [s.cells[c.Slot(e.begin + |e.rows|)][|e.part|]];
      && (|part| < c.width ==> CopyInv(c, s, e.begin, e.newTail, e.rows, part))
      && (|part| == c.width ==> CopyInv(c, s, e.begin, e.newTail, e.rows + [part], []))
  {
    var i := e.begin + |e.rows|;
    if Disturbed(c, s, i) {
      DisturbedIsCounted(c, s, i);
    }
    CopyExtends(c, s, e.begin, e.newTail, e.rows, e.part, s.cells[c.Slot(i)][|e.part|]);
  }

  lemma CopyFrame(c: Config, s: State, s': State, begin: nat, newTail: nat, rows: seq<Row>, part: Row)
    requires Wide(c, s) && Wide(c, s') && Grows(c, s, s') && CopyInv(c, s, begin, newTail, rows, part)
    ensures CopyInv(c, s', begin, newTail, rows, part)
  {
  }

  lemma CopyCellEvictor(c: Config, s: State)
    requires MemoryInv(c, s) && ProducerInv(c, s) && CountInv(c, s) && EvictorInv(c, s)
    requires Enabled(c, s, CopyCell) && Grows(c, s, Next(c, s, CopyCell))
    ensures Wide(c, Next(c, s, CopyCell)) && EvictorInv(c, Next(c, s, CopyCell))
  {
    hide Disturbed, Counted, ReaderInv, Merge, ProducerInv, CountInv, Handed, SnapshotBegin;
    var s' := Next(c, s, CopyCell);
    SkippedFrame(c, s, s', s.evictor.begin);
    CopyCellOwn(c, s, s.evictor);
    var e := s'.evictor;
    CopyFrame(c, s, s', e.begin, e.newTail, e.rows, e.part);
  }

  lemma CopyCellKeeps(c: Config, s: State)
    requires Inv(c, s) && Enabled(c, s, CopyCell)
    ensures Inv(c, Next(c, s, CopyCell))
  {
    StepGrows(c, s, CopyCell);
    TailFrame(c, s, Next(c, s, CopyCell));
    CopyCellEvictor(c, s);
    EvictorSideFrame(c, s, CopyCell);
  }

  lemma StoreTailTail(c: Config, s: State)
    requires Inv(c, s) && Enabled(c, s, StoreTail)
    ensures TailInv(c, Next(c, s, StoreTail))
  {
    hide ReadersInv, ProducerInv, CountInv, Disturbed;
    var s' := Next(c, s, StoreTail);
    var e := s.evictor;
    forall i: nat | i < s'.tail ensures Faithful(s', i) || Counted(c, s', i) {
      if i < s.tail {
        assert Faithful(s, i) || Counted(c, s, i);
      } else if i < e.begin {
        assert Counted(c, s, i);
      } else {
        assert e.rows[i - e.begin] == s.hist[i] || Counted(c, s, i);
      }
    }
  }

  lemma StoreTailKeeps(c: Config, s: State)
    requires Inv(c, s) && Enabled(c, s, StoreTail)
    ensures Inv(c, Next(c, s, StoreTail))
  {
    StoreTailTail(c, s);
    EvictorSideFrame(c, s, StoreTail);
  }

  lemma ReadCellOwn(c: Config, s: State, d: Reader)
    requires MemoryInv(c, s) && ReaderInv(c, s, d) && d.Reading? && |d.part| < c.width
    ensures ReaderInv(c, s, d.(part := d.part + [s.cells[c.Slot(d.idx)][|d.part|]]))
  {
    if !Disturbed(c, s, d.idx) {
      assert d.part + [s.hist[d.idx][|d.part|]] == s.hist[d.idx][..|d.part| + 1];
    }
  }

  lemma ReaderOwn(c: Config, s: State, a: Action)
    requires Inv(c, s) && Enabled(c, s, a) && !ProducerAction(a) && !EvictorAction(a)
    ensures Wide(c, Next(c, s, a)) && ReadersInv(c, Next(c, s, a))
  {
    var s' := Next(c, s, a);
    if a.ReadCell? {
      ReadCellOwn(c, s, s.readers[a.r]);
    }
    forall r | r in s'.readers ensures ReaderInv(c, s', s'.readers[r]) {
      ReaderFrame(c, s, s', s'.readers[r]);
    }
  }

  lemma ReaderKeeps(c: Config, s: State, a: Action)
    requires Inv(c, s) && Enabled(c, s, a) && !ProducerAction(a) && !EvictorAction(a)
    ensures Inv(c, Next(c, s, a))
  {
    var s' := Next(c, s, a);
    StepGrows(c, s, a);
    TailFrame(c, s, s');
    EvictorFrame(c, s, s');
    ReaderOwn(c, s, a);
    forall i: nat | i < s'.head && !Disturbed(c, s', i) ensures s'.cells[c.Slot(i)] == s'.hist[i] {
      assert !Disturbed(c, s, i);
    }
  }

  lemma StepKeeps(c: Config, s: State, a: Action)
    requires Inv(c, s) && Enabled(c, s, a)
    ensures Inv(c, Next(c, s, a))
  {
    match a
    case Begin(_) => BeginKeeps(c, s, a);
    case LoadTail => BeginKeeps(c, s, a);
    case Count => CountKeeps(c, s);
    case WriteCell => WriteCellKeeps(c, s);
    case Publish => PublishKeeps(c, s);
    case EvictLoadTail => LoadsKeep(c, s, a);
    case EvictLoadHead => LoadsKeep(c, s, a);
    case Choose(_) => LoadsKeep(c, s, a);
    case CopyCell => CopyCellKeeps(c, s);
    case StoreTail => StoreTailKeeps(c, s);
    case _ => ReaderKeeps(c, s, a);
  }

  // ---- What holds in every reachable state ----

  lemma {:induction false} InvReached(c: Config, run: seq<Action>, s: State)
    requires Reached(c, run, s)
    ensures Inv(c, s)
  {
    if run == [] {
      InitialInv(c, s);
    } else {
      var a := run[|run| - 1];
      var p: State :| Reached(c, run[..|run| - 1], p) && Shaped(c, p) && Enabled(c, p, a) && s == Next(c, p, a);
      InvReached(c, run[..|run| - 1], p);
      StepKeeps(c, p, a);
    }
  }

  /** Every appended entry is still in the window with its row intact in its slot, was copied faithfully by an eviction, or was overwritten by an append that was counted. */
  lemma NoSilentLoss(c: Config, run: seq<Action>, s: State, i: nat)
    requires Reached(c, run, s) && i < s.head
    ensures Live(c, s, i) || Faithful(s, i) || Counted(c, s, i)
  {
    InvReached(c, run, s);
    if i < s.tail {
      assert Faithful(s, i) || Counted(c, s, i);
    } else if Disturbed(c, s, i) {
      DisturbedIsCounted(c, s, i);
    }
  }

  /** A copy handed to the cold tier that differs from what was appended was spoiled by a counted append. */
  lemma SpoiledCopyIsCounted(c: Config, run: seq<Action>, s: State, i: nat)
    requires Reached(c, run, s) && i in s.copied
    ensures i < s.tail <= s.head == |s.hist| && (s.copied[i] == s.hist[i] || Counted(c, s, i))
  {
    InvReached(c, run, s);
    assert Faithful(s, i) || Counted(c, s, i);
  }

  lemma {:induction false} ShiftedSubset(a: set<nat>, b: set<nat>, d: nat)
    requires forall i :: i in a ==> i + d in b
    ensures |a| <= |b|
  {
    if a == {} {
    } else {
      var x :| x in a;
      ShiftedSubset(a - {x}, b - {x + d}, d);
    }
  }

  function Lost(c: Config, s: State): set<nat> {
    set i: nat | i < s.head && !Live(c, s, i) && !Faithful(s, i)
  }

  lemma LostIsCounted(c: Config, s: State)
    requires MemoryInv(c, s) && ProducerInv(c, s) && CountInv(c, s) && TailInv(c, s)
    ensures |Lost(c, s)| <= s.overwritten == s.events
  {
    forall i | i in Lost(c, s) ensures i + c.capacity in s.counted {
      if i < s.tail {
        assert Faithful(s, i) || Counted(c, s, i);
      } else if Disturbed(c, s, i) {
        DisturbedIsCounted(c, s, i);
      }
    }
    ShiftedSubset(Lost(c, s), s.counted, c.capacity);
  }

  /** overwritten_entries is never less than the number of entries that are gone, those whose slot is only half overwritten included. */
  lemma LossIsBounded(c: Config, run: seq<Action>, s: State)
    requires Reached(c, run, s)
    ensures |Lost(c, s)| <= s.overwritten == s.events == |s.counted|
  {
    InvReached(c, run, s);
    LostIsCounted(c, s);
  }

  /** Only an append that reuses a slot is ever counted: no false alarm before the ring has filled. */
  lemma {:induction false} CountedReusedSlot(c: Config, run: seq<Action>, s: State, k: nat)
    requires Reached(c, run, s) && k in s.counted
    ensures c.capacity <= k <= s.head
  {
    InvReached(c, run, s);
  }

  /** A complete read of entry idx that ends while head < idx + capacity is exactly that entry, whatever an append has half written. */
  lemma GuardedRead(c: Config, run: seq<Action>, s: State, r: nat)
    requires Reached(c, run, s)
    requires r in s.readers && s.readers[r].Reading? && |s.readers[r].part| == c.width
    ensures s.readers[r].idx < s.readers[r].end <= s.head == |s.hist|
    ensures s.head < s.readers[r].idx + c.capacity ==> s.readers[r].part == s.hist[s.readers[r].idx]
  {
    InvReached(c, run, s);
  }

  lemma SnapshotWindow(c: Config, run: seq<Action>, s: State, r: nat)
    requires Reached(c, run, s) && r in s.readers && s.readers[r].Window?
    ensures s.readers[r].begin <= s.readers[r].end <= s.head && s.readers[r].end - s.readers[r].begin <= c.capacity
  {
    InvReached(c, run, s);
  }

  /** The tail never falls and never passes the head; history is only ever extended. */
  lemma TailIsMonotone(c: Config, run: seq<Action>, s: State, a: Action)
    requires Reached(c, run, s)
    requires Shaped(c, s) && Enabled(c, s, a)
    ensures s.tail <= Next(c, s, a).tail <= Next(c, s, a).head
    ensures s.hist <= Next(c, s, a).hist && s.counted <= Next(c, s, a).counted
  {
    InvReached(c, run, s);
    StepGrows(c, s, a);
    StepKeeps(c, s, a);
  }
}
