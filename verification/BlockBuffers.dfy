/** serialize_block and decode_block over caller-owned buffers, proved against the block format. */
module BlockBuffers {
  import opened Bytes
  import opened Crc
  import opened Rows
  import opened Wrappers
  import opened Errors
  import opened BlockCodec

  /** The guards of serialize_block: a usable shape, and no null section that has rows. */
  predicate Serializable(blk: Block) {
    && blk.shape.dim != 0
    && blk.shape.dtype != Other
    && (blk.shape.count > 0 ==>
          && blk.timestamps.Some? && blk.vectors.Some?
          && (blk.shape.dtype == Int8 ==> blk.scales.Some?)
          && (blk.shape.payloadSize > 0 ==> blk.payloads.Some?))
  }

  /** What the caller owes: a section that is present holds at least the block's rows. */
  predicate Backed(blk: Block) {
    && (blk.timestamps.Some? ==> |blk.timestamps.value| >= blk.shape.count)
    && (blk.vectors.Some? ==> |blk.vectors.value| >= blk.shape.VectorBytes())
    && (blk.scales.Some? ==> |blk.scales.value| >= blk.shape.ScaleCount())
    && (blk.payloads.Some? ==> |blk.payloads.value| >= blk.shape.PayloadBytes())
  }

  function Prefix<T>(section: Option<seq<T>>, n: nat): (s: seq<T>)
    requires n > 0 ==> section.Some? && n <= |section.value|
    ensures |s| == n
  {
    if n == 0 then [] else section.value[..n]
  }

  lemma EmptyProduct(s: Shape)
    ensures s.count == 0 ==> s.VectorBytes() == 0 && s.PayloadBytes() == 0
    ensures s.payloadSize == 0 ==> s.PayloadBytes() == 0
  {
  }

  /** The rows a block stands for; whatever its buffers hold beyond them is not part of it. */
  function ContentsOf(blk: Block): (c: Contents)
    requires Serializable(blk) && Backed(blk)
    ensures WellFormed(c) && c.shape == blk.shape
  {
    EmptyProduct(blk.shape);
    Contents(blk.shape, blk.tStart, blk.tEnd,
             Prefix(blk.timestamps, blk.shape.count), Prefix(blk.vectors, blk.shape.VectorBytes()),
             Prefix(blk.scales, blk.shape.ScaleCount()), Prefix(blk.payloads, blk.shape.PayloadBytes()))
  }

  /** Two states of a buffer agree from position p on. */
  predicate SameFrom(before: bytes, after: bytes, p: nat) {
    |before| == |after| && forall i :: p <= i < |after| ==> after[i] == before[i]
  }

  /** memcpy of src to position p. */
  method Copy(out: array<byte>, p: nat, src: bytes) returns (q: nat)
    requires p + |src| <= out.Length
    modifies out
    ensures q == p + |src|
    ensures out[..q] == old(out[..p]) + src
    ensures SameFrom(old(out[..]), out[..], q)
  {
    q := p + |src|;
    forall i | 0 <= i < |src| {
      out[p + i] := src[i];
    }
    assert out[..p] == old(out[..p]) && out[p..q] == src;
    assert out[..q] == out[..p] + out[p..q];
  }

  method PutHeader(c: Contents, out: array<byte>) returns (p: nat)
    requires out.Length >= HEADER_SIZE
    modifies out
    ensures p == HEADER_SIZE
    ensures out[..p] == Header(c)
    ensures SameFrom(old(out[..]), out[..], p)
  {
    p := Copy(out, 0, Put32(MAGIC));
    p := Copy(out, p, Put16(VERSION));
    p := Copy(out, p, Put16(Flags(c.shape)));
    p := Copy(out, p, Put32(c.shape.dim));
    p := Copy(out, p, Put32(c.shape.count));
    assert out[..p] == Put32(MAGIC) + Put16(VERSION) + Put16(Flags(c.shape)) + Put32(c.shape.dim) + Put32(c.shape.count);
    assert SameFrom(old(out[..]), out[..], p);
    p := Copy(out, p, Put64(c.tStart));
    p := Copy(out, p, Put64(c.tEnd));
    p := Copy(out, p, Put32(c.shape.payloadSize));
    p := Copy(out, p, Put32(0));
  }

  /** The memcpy of the timestamp array: eight bytes a row. */
  method PutStamps(ts: seq<i64>, out: array<byte>, from: nat) returns (p: nat)
    requires from + 8 * |ts| <= out.Length
    modifies out
    ensures p == from + 8 * |ts|
    ensures out[..p] == old(out[..from]) + Flatten(StampRows(ts))
    ensures SameFrom(old(out[..]), out[..], p)
  {
    p := from;
    for i := 0 to |ts|
      invariant p == from + 8 * i
      invariant out[..p] == old(out[..from]) + Flatten(StampRows(ts[..i]))
      invariant SameFrom(old(out[..]), out[..], p)
    {
      p := Copy(out, p, Put64(ts[i]));
      assert ts[..i + 1][..i] == ts[..i];
      assert StampRows(ts[..i + 1])[..i] == StampRows(ts[..i]);
    }
    assert ts[..|ts|] == ts;
  }

  method PutScales(ws: seq<u32>, out: array<byte>, from: nat) returns (p: nat)
    requires from + 4 * |ws| <= out.Length
    modifies out
    ensures p == from + 4 * |ws|
    ensures out[..p] == old(out[..from]) + Flatten(ScaleRows(ws))
    ensures SameFrom(old(out[..]), out[..], p)
  {
    p := from;
    for i := 0 to |ws|
      invariant p == from + 4 * i
      invariant out[..p] == old(out[..from]) + Flatten(ScaleRows(ws[..i]))
      invariant SameFrom(old(out[..]), out[..], p)
    {
      p := Copy(out, p, Put32(ws[i]));
      assert ws[..i + 1][..i] == ws[..i];
      assert ScaleRows(ws[..i + 1])[..i] == ScaleRows(ws[..i]);
    }
    assert ws[..|ws|] == ws;
  }

  method PutSections(blk: Block, out: array<byte>, from: nat) returns (p: nat)
    requires Serializable(blk) && Backed(blk) && from == HEADER_SIZE
    requires out.Length >= blk.shape.BodyEnd()
    modifies out
    ensures p == blk.shape.BodyEnd()
    ensures out[..p] == old(out[..from]) + Sections(ContentsOf(blk))
    ensures SameFrom(old(out[..]), out[..], p)
  {
    EmptyProduct(blk.shape);
    ghost var h, c := out[..from], ContentsOf(blk);
    p := PutStamps(Prefix(blk.timestamps, blk.shape.count), out, from);
    p := Copy(out, p, Prefix(blk.vectors, blk.shape.VectorBytes()));
    p := PutScales(Prefix(blk.scales, blk.shape.ScaleCount()), out, p);
    p := Copy(out, p, Prefix(blk.payloads, blk.shape.PayloadBytes()));
    Reassociate(h, Flatten(StampRows(c.timestamps)), c.vectors, Flatten(ScaleRows(c.scales)), c.payloads);
  }

  lemma Reassociate(h: bytes, a: bytes, b: bytes, c: bytes, d: bytes)
    ensures h + a + b + c + d == h + (a + b + c + d)
  {
  }

  /** serialize_block. The block's image goes to the front of the buffer and nothing else is touched. */
  method SerializeBlock(table: Crc32Table, blk: Block, out: array?<byte>) returns (written: nat)
    requires table.Valid() && Backed(blk)
    requires out != null && Serializable(blk) ==> out.Length >= blk.shape.SerializedSize()
    modifies if out == null then {} else {out}
    ensures out == null || !Serializable(blk) ==> written == 0 && (out != null ==> out[..] == old(out[..]))
    ensures out != null && Serializable(blk) ==>
              && written == blk.shape.SerializedSize()
              && out[..written] == Image(ContentsOf(blk))
              && SameFrom(old(out[..]), out[..], written)
    ensures written > 0 <==>
              && out != null && blk.shape.dim > 0 && (blk.shape.dtype == Float32 || blk.shape.dtype == Int8)
              && (blk.shape.count == 0
                  || (&& blk.timestamps.Some? && blk.vectors.Some?
                      && (blk.shape.dtype == Int8 ==> blk.scales.Some?) && (blk.shape.payloadSize > 0 ==> blk.payloads.Some?)))
  {
    if out == null || !Serializable(blk) {
      return 0;
    }
    var p := PutHeader(ContentsOf(blk), out);
    p := PutSections(blk, out, p);
    var crc := Crc32Ieee(table, out[..p]);
    p := Copy(out, p, WordBytes(crc));
    return p;
  }

  // ---- Reading into caller-owned buffers ----

  /** The decoded header. */
  datatype DecodedHeader = DecodedHeader(shape: Shape, tStart: i64, tEnd: i64)

  /** A buffer that is absent, or long enough for a section. */
  predicate Fits<T>(out: array?<T>, n: nat) {
    out == null || n <= out.Length
  }

  /** The section buffers of a caller; any of them may be absent. */
  datatype Buffers = Buffers(ts: array?<i64>, vec: array?<byte>, scales: array?<u32>, pl: array?<byte>) {
    function Objects(): set<object> {
      (if ts == null then {} else {ts as object}) + (if vec == null then {} else {vec as object})
      + (if scales == null then {} else {scales as object}) + (if pl == null then {} else {pl as object})
    }

    predicate Apart() {
      vec != null && pl != null ==> vec != pl
    }

    predicate Room(c: Contents) {
      Fits(ts, |c.timestamps|) && Fits(vec, |c.vectors|) && Fits(scales, |c.scales|) && Fits(pl, |c.payloads|)
    }
  }

  const NO_BUFFERS := Buffers(null, null, null, null)

  /** Each buffer starts with its section and is otherwise as before. */
  twostate predicate Holds(out: Buffers, c: Contents)
    reads out.Objects()
  {
    && out.Room(c)
    && (out.ts != null ==> out.ts[..] == c.timestamps + old(out.ts[|c.timestamps|..]))
    && (out.vec != null ==> out.vec[..] == c.vectors + old(out.vec[|c.vectors|..]))
    && (out.scales != null ==> out.scales[..] == c.scales + old(out.scales[|c.scales|..]))
    && (out.pl != null ==> out.pl[..] == c.payloads + old(out.pl[|c.payloads|..]))
  }

  twostate predicate Untouched(out: Buffers)
    reads out.Objects()
  {
    && (out.ts != null ==> out.ts[..] == old(out.ts[..]))
    && (out.vec != null ==> out.vec[..] == old(out.vec[..]))
    && (out.scales != null ==> out.scales[..] == old(out.scales[..]))
    && (out.pl != null ==> out.pl[..] == old(out.pl[..]))
  }

  method FillSection<T>(out: array?<T>, section: seq<T>)
    requires Fits(out, |section|)
    modifies if out == null then {} else {out}
    ensures out != null ==> out[..] == section + old(out[|section|..])
  {
    if out != null {
      forall i | 0 <= i < |section| {
        out[i] := section[i];
      }
    }
  }

  method FillSections(c: Contents, out: Buffers)
    requires out.Room(c) && out.Apart()
    modifies out.Objects()
    ensures Holds(out, c)
  {
    FillSection(out.ts, c.timestamps);
    FillSection(out.vec, c.vectors);
    FillSection(out.scales, c.scales);
    FillSection(out.pl, c.payloads);
  }

  function StatusOf(r: DecodeResult): Error {
    match r
    case Ok(_) => OK
    case Corrupt => Error.Corruption
    case Oversize => Oversized
  }

  method CheckBlock(table: Crc32Table, b: bytes, h: HeaderFields) returns (rc: Error)
    requires table.Valid()
    ensures rc == StatusOf(DecodeUnder(b, h))
  {
    if !h.Accepted() {
      return Error.Corruption;
    }
    var expected := h.ShapeOf().SerializedSize();
    if expected >= SIZE_LIMIT {
      return Oversized;
    }
    if |b| < expected {
      return Error.Corruption;
    }
    var matches := CheckChecksum(table, b, h.ShapeOf().BodyEnd());
    return if matches then OK else Error.Corruption;
  }

  method CheckChecksum(table: Crc32Table, b: bytes, end: nat) returns (matches: bool)
    requires table.Valid() && end + CRC_SIZE <= |b|
    ensures matches <==> ChecksumAt(b, end)
  {
    var computed := Crc32Ieee(table, b[..end]);
    matches := Word(b[end..end + CRC_SIZE]) == computed;
  }

  /** decode_block. A section is written only where a buffer was passed for it, and nothing is written unless the bytes are accepted. */
  method DecodeBlock(table: Crc32Table, data: Option<bytes>, out: Buffers) returns (rc: Error, hdr: Option<DecodedHeader>)
    requires table.Valid() && out.Apart()
    requires data.Some? && Decode(data.value).Ok? ==> out.Room(Decode(data.value).contents)
    modifies out.Objects()
    ensures rc == if data.None? then InvalidArg else StatusOf(Decode(data.value))
    ensures rc == OK ==>
              var c := Decode(data.value).contents;
              hdr == Some(DecodedHeader(c.shape, c.tStart, c.tEnd)) && Holds(out, c)
    ensures rc != OK ==> hdr == None && Untouched(out)
  {
    if data.None? {
      return InvalidArg, None;
    }
    if |data.value| < HEADER_SIZE + CRC_SIZE {
      return Error.Corruption, None;
    }
    var h := ParseHeader(data.value);
    rc := CheckBlock(table, data.value, h);
    if rc != OK {
      return rc, None;
    }
    FillSections(Extract(data.value, h.ShapeOf(), h.tStart, h.tEnd), out);
    hdr := Some(DecodedHeader(h.ShapeOf(), h.tStart, h.tEnd));
  }
}
