/** The hot window of one sensor: slot arrays written in place, a head, a tail and the overwrite counters. */
module SensorRing {
  import opened Bytes
  import opened Wrappers
  import opened Modular
  import opened BlockCodec

  /** One appended entry as the cold tier keeps it; the norm is recomputed on the way back. */
  datatype Record = Record(ts: i64, vec: bytes, scale: u32, payload: bytes)

  datatype Entry = Entry(rec: Record, norm: u32)

  /** The widths a ring, and every block cut from it, has. */
  datatype Schema = Schema(dim: u32, payloadSize: u32, dtype: Dtype) {
    function RowBytes(): nat {
      dim * DtypeSize(dtype)
    }

    predicate Conforms(r: Record) {
      && |r.vec| == RowBytes()
      && |r.payload| == payloadSize
      && (dtype != Int8 ==> r.scale == 0)
    }
  }

  /** The last |slots| entries of the history are in the slots their indices are masked to. */
  ghost predicate HoldsNewest(slots: seq<Entry>, history: seq<Entry>) {
    |slots| > 0 && forall i :: 0 <= i < |history| <= i + |slots| ==> slots[i % |slots|] == history[i]
  }

  lemma AppendHolds(slots: seq<Entry>, history: seq<Entry>, e: Entry)
    requires HoldsNewest(slots, history)
    ensures HoldsNewest(slots[|history| % |slots| := e], history + [e])
  {
    forall i | 0 <= i < |history| < i + |slots| ensures i % |slots| != |history| % |slots| {
      ModApart(i, |history|, |slots|);
    }
  }

  class SensorRing {
    const capacity: nat
    const schema: Schema
    const timestamps: array<i64>
    const vectors: array<bytes>
    const norms: array<u32>
    const scales: array?<u32>
    const payloads: array?<bytes>
    var head: nat
    var tail: nat
    var overwriteEvents: nat
    var overwrittenEntries: nat
    /** Every entry ever appended. */
    ghost var history: seq<Entry>

    ghost const Arrays: set<object>

    /** idx & mask */
    function Slot(idx: nat): (s: nat)
      requires HasSingleBit(capacity)
      ensures s == idx % capacity
      ensures s < capacity
    {
      MaskIsRemainder(idx, capacity);
      And(idx, capacity - 1)
    }

    ghost predicate Allocated()
    {
      && HasSingleBit(capacity)
      && timestamps.Length == vectors.Length == norms.Length == capacity
      && (scales != null <==> schema.dtype == Int8)
      && (scales != null ==> scales.Length == capacity && scales != norms)
      && (payloads != null <==> schema.payloadSize > 0)
      && (payloads != null ==> payloads.Length == capacity && payloads != vectors)
      && Arrays == {timestamps as object, vectors, norms}
                   + (if scales == null then {} else {scales as object}) + (if payloads == null then {} else {payloads as object})
      && this !in Arrays
    }

    /** What a slot holds. */
    function EntryIn(s: nat): Entry
      requires Allocated() && s < capacity
      reads Arrays
    {
      Entry(Record(timestamps[s], vectors[s],
                   if scales == null then 0 else scales[s],
                   if payloads == null then [] else payloads[s]),
            norms[s])
    }

    ghost function Slots(): (slots: seq<Entry>)
      requires Allocated()
      reads Arrays
      ensures |slots| == capacity
    {
      seq(capacity, s requires 0 <= s < capacity reads Arrays => EntryIn(s))
    }

    ghost predicate Valid()
      reads this, Arrays
    {
      && Allocated()
      && |history| == head && tail <= head
      && (forall s :: 0 <= s < capacity ==> schema.Conforms(Slots()[s].rec))
      && HoldsNewest(Slots(), history)
    }

    /** The indices a snapshot starts and ends at. */
    ghost function Begin(): (b: nat)
      requires tail <= head
      reads this
    {
      if head - tail > capacity then head - capacity else tail
    }

    ghost function Window(): seq<Entry>
      requires tail <= head == |history|
      reads this
    {
      history[Begin()..]
    }

    /** A fresh ring. Slots start with whatever the allocator returned. */
    constructor (capacity: nat, schema: Schema, memory: seq<Record>)
      requires HasSingleBit(capacity) && |memory| == capacity
      requires forall i :: 0 <= i < capacity ==> schema.Conforms(memory[i])
      ensures Valid() && this.capacity == capacity && this.schema == schema
      ensures head == tail == overwriteEvents == overwrittenEntries == 0 && history == []
      ensures fresh(Arrays)
    {
      this.capacity, this.schema := capacity, schema;
      var ts := new i64[capacity](i requires 0 <= i < capacity => memory[i].ts);
      var vs := new bytes[capacity](i requires 0 <= i < capacity => memory[i].vec);
      var ns := new u32[capacity];
      timestamps, vectors, norms := ts, vs, ns;
      ghost var all: set<object> := {ts as object, vs, ns};
      if schema.dtype == Int8 {
        var sc := new u32[capacity](i requires 0 <= i < capacity => memory[i].scale);
        scales := sc;
        all := all + {sc as object};
      } else {
        scales := null;
      }
      if schema.payloadSize > 0 {
        var pl := new bytes[capacity](i requires 0 <= i < capacity => memory[i].payload);
        payloads := pl;
        all := all + {pl as object};
      } else {
        payloads := null;
      }
      head, tail, overwriteEvents, overwrittenEntries := 0, 0, 0, 0;
      history := [];
      Arrays := all;
      new;
      SlotsConform(memory);
    }

    lemma SlotsConform(memory: seq<Record>)
      requires Allocated() && |memory| == capacity && history == [] && head == tail == 0
      requires forall s :: 0 <= s < capacity ==>
                 && schema.Conforms(memory[s]) && vectors[s] == memory[s].vec
                 && (payloads != null ==> payloads[s] == memory[s].payload)
      ensures Valid()
    {
      forall s | 0 <= s < capacity ensures schema.Conforms(Slots()[s].rec) {
        assert Slots()[s] == EntryIn(s);
      }
    }

    /** What an append leaves in its slot. Without a payload the slot keeps the bytes it held; a scale is kept for INT8 only. */
    ghost function Stored(ts: i64, vec: bytes, norm: u32, payload: Option<bytes>, scale: u32): Entry
      requires Allocated()
      reads this, Arrays
    {
      var before := EntryIn(Slot(head)).rec;
      Entry(Record(ts, vec,
                   if schema.dtype == Int8 then scale else 0,
                   if schema.payloadSize > 0 && payload.Some? then payload.value else before.payload),
            norm)
    }

    /** The stores of one append, all into one slot. */
    method WriteSlot(idx: nat, ts: i64, vec: bytes, norm: u32, payload: Option<bytes>, scale: u32)
      requires Allocated() && idx < capacity
      modifies Arrays
      ensures var e := Entry(Record(ts, vec,
                                    if schema.dtype == Int8 then scale else 0,
                                    if schema.payloadSize > 0 && payload.Some? then payload.value else old(EntryIn(idx).rec.payload)),
                             norm);
        Slots() == old(Slots())[idx := e]
    {
      timestamps[idx] := ts;
      vectors[idx] := vec;
      norms[idx] := norm;
      if schema.dtype == Int8 && scales != null {
        scales[idx] := scale;
      }
      if schema.payloadSize > 0 && payload.Some? {
        payloads[idx] := payload.value;
      }
    }

    method Append(ts: i64, vec: bytes, norm: u32, payload: Option<bytes>, scale: u32)
      requires Valid()
      requires |vec| == schema.RowBytes() && (payload.Some? && schema.payloadSize > 0 ==> |payload.value| == schema.payloadSize)
      modifies this, Arrays
      ensures Valid() && tail == old(tail)
      ensures history == old(history) + [old(Stored(ts, vec, norm, payload, scale))]
      ensures overwriteEvents == old(overwriteEvents) + (if old(head - tail) >= capacity then 1 else 0)
      ensures overwrittenEntries == old(overwrittenEntries) + (if old(head - tail) >= capacity then 1 else 0)
    {
      var h, t := head, tail;
      if h - t >= capacity {
        overwriteEvents := overwriteEvents + 1;
        overwrittenEntries := overwrittenEntries + 1;
      }
      var idx := Slot(h);
      ghost var stored := Stored(ts, vec, norm, payload, scale);
      assert schema.Conforms(Slots()[idx].rec);
      AppendHolds(Slots(), history, stored);
      WriteSlot(idx, ts, vec, norm, payload, scale);
      head := h + 1;
      history := history + [stored];
    }

    /** A payload that is not given is the payload of the entry being overwritten, once the ring has filled. */
    lemma StalePayload(ts: i64, vec: bytes, norm: u32, scale: u32)
      requires Valid() && head >= capacity
      ensures Stored(ts, vec, norm, None, scale).rec.payload == history[head - capacity].rec.payload
    {
      ModAdd(head - capacity, capacity);
      assert Slots()[Slot(head - capacity)] == history[head - capacity];
    }

    method Snapshot() returns (begin: nat, end: nat)
      requires Valid()
      ensures begin == Begin() && end == head
      ensures begin <= end && end - begin <= capacity
      ensures end - begin == if head - tail <= capacity then head - tail else capacity
      ensures Window() == history[begin..end]
    {
      var t, h := tail, head;
      begin, end := if h - t > capacity then h - capacity else t, h;
    }

    method AdvanceTail(newTail: nat)
      requires Valid() && tail <= newTail <= head
      modifies this`tail
      ensures Valid() && tail == newTail
    {
      tail := newTail;
    }

    // ---- Slot readers ----

    method TimestampAt(idx: nat) returns (ts: i64)
      requires Valid() && idx < head <= idx + capacity
      ensures ts == history[idx].rec.ts
    {
      assert Slots()[Slot(idx)] == history[idx];
      ts := timestamps[Slot(idx)];
    }

    method VectorAt(idx: nat) returns (vec: bytes)
      requires Valid() && idx < head <= idx + capacity
      ensures vec == history[idx].rec.vec && |vec| == schema.RowBytes()
    {
      assert Slots()[Slot(idx)] == history[idx];
      vec := vectors[Slot(idx)];
    }

    method NormAt(idx: nat) returns (norm: u32)
      requires Valid() && idx < head <= idx + capacity
      ensures norm == history[idx].norm
    {
      assert Slots()[Slot(idx)] == history[idx];
      norm := norms[Slot(idx)];
    }

    method PayloadAt(idx: nat) returns (payload: Option<bytes>)
      requires Valid() && idx < head <= idx + capacity
      ensures payload == if schema.payloadSize == 0 then None else Some(history[idx].rec.payload)
    {
      assert Slots()[Slot(idx)] == history[idx];
      payload := if schema.payloadSize == 0 then None else Some(payloads[Slot(idx)]);
    }

    method ScaleAt(idx: nat) returns (scale: Option<u32>)
      requires Valid() && idx < head <= idx + capacity
      ensures scale == if schema.dtype == Int8 then Some(history[idx].rec.scale) else None
    {
      assert Slots()[Slot(idx)] == history[idx];
      scale := if scales == null then None else Some(scales[Slot(idx)]);
    }
  }
}
