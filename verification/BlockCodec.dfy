/** The persisted block format: writing, reading back, and rejecting damaged bytes. */
module BlockCodec {
  import opened Bytes
  import opened Crc
  import opened Rows
  import opened Wrappers

  const MAGIC: u32 := 0x3042_5643
  const VERSION: nat := 1
  const HEADER_SIZE: nat := 40
  const CRC_SIZE: nat := 4
  const SIZE_LIMIT: nat := 0x1_0000_0000_0000_0000

  /** An element type; any other code has no size. */
  datatype Dtype = Float32 | Int8 | Other

  function DtypeSize(t: Dtype): nat {
    match t
    case Float32 => 4
    case Int8 => 1
    case Other => 0
  }

  /** The fields that fix how long each section is. */
  datatype Shape = Shape(count: u32, dim: u32, payloadSize: u32, dtype: Dtype) {
    function VectorBytes(): nat {
      count * (dim * DtypeSize(dtype))
    }

    function ScaleCount(): nat {
      if dtype == Int8 then count else 0
    }

    function PayloadBytes(): nat {
      count * payloadSize
    }

    // Where each section ends.

    function StampsEnd(): (e: nat)
      ensures e >= HEADER_SIZE
    {
      HEADER_SIZE + count * 8
    }

    function VectorsEnd(): (e: nat)
      ensures e >= StampsEnd()
    {
      StampsEnd() + VectorBytes()
    }

    function ScalesEnd(): (e: nat)
      ensures e >= VectorsEnd()
    {
      VectorsEnd() + ScaleCount() * 4
    }

    function BodyEnd(): (e: nat)
      ensures e >= ScalesEnd()
    {
      ScalesEnd() + PayloadBytes()
    }

    /** block_serialized_size, in unbounded arithmetic; 0 for an unknown element type. */
    function SerializedSize(): nat {
      if dtype == Other then 0 else BodyEnd() + CRC_SIZE
    }
  }

  /** What the evictor hands to the codec. A section pointer may be null, and may point at more than the block's rows. */
  datatype Block = Block(
    shape: Shape, tStart: i64, tEnd: i64,
    timestamps: Option<seq<i64>>, vectors: Option<bytes>, scales: Option<seq<u32>>, payloads: Option<bytes>)

  /** Every field a block carries once it is read back. */
  datatype Contents = Contents(
    shape: Shape, tStart: i64, tEnd: i64,
    timestamps: seq<i64>, vectors: bytes, scales: seq<u32>, payloads: bytes)

  /** Sections have the lengths the header promises. */
  predicate WellFormed(c: Contents) {
    && c.shape.dim > 0
    && c.shape.dtype != Other
    && |c.timestamps| == c.shape.count
    && |c.vectors| == c.shape.VectorBytes()
    && |c.scales| == c.shape.ScaleCount()
    && |c.payloads| == c.shape.PayloadBytes()
  }

  // ---- The image of a block ----

  function Flags(s: Shape): (f: nat)
    ensures f < 4
  {
    (if s.payloadSize > 0 then 1 else 0) + (if s.dtype == Int8 then 2 else 0)
  }

  function Header(c: Contents): (h: bytes)
    ensures |h| == HEADER_SIZE
  {
    Put32(MAGIC) + Put16(VERSION) + Put16(Flags(c.shape)) + Put32(c.shape.dim) + Put32(c.shape.count)
    + Put64(c.tStart) + Put64(c.tEnd) + Put32(c.shape.payloadSize) + Put32(0)
  }

  function StampRows(ts: seq<i64>): (rows: seq<bytes>)
    ensures |rows| == |ts| && Uniform(rows, 8)
  {
    seq(|ts|, i requires 0 <= i < |ts| => Put64(ts[i]))
  }

  function ScaleRows(ws: seq<u32>): (rows: seq<bytes>)
    ensures |rows| == |ws| && Uniform(rows, 4)
  {
    seq(|ws|, i requires 0 <= i < |ws| => Put32(ws[i]))
  }

  function StampsOf(rows: seq<bytes>): (ts: seq<i64>)
    requires Uniform(rows, 8)
    ensures |ts| == |rows|
  {
    seq(|rows|, i requires 0 <= i < |rows| => Get64(rows[i]))
  }

  function ScalesOf(rows: seq<bytes>): (ws: seq<u32>)
    requires Uniform(rows, 4)
    ensures |ws| == |rows|
  {
    seq(|rows|, i requires 0 <= i < |rows| => Get32(rows[i]))
  }

  function Sections(c: Contents): bytes {
    Flatten(StampRows(c.timestamps)) + c.vectors + Flatten(ScaleRows(c.scales)) + c.payloads
  }

  function Body(c: Contents): bytes {
    Header(c) + Sections(c)
  }

  /** The bytes a block is stored as. */
  function Image(c: Contents): bytes {
    Body(c) + WordBytes(Crc32(Body(c)))
  }

  lemma StampRowsRoundTrip(ts: seq<i64>)
    ensures StampsOf(StampRows(ts)) == ts
  {
    forall i | 0 <= i < |ts| ensures StampsOf(StampRows(ts))[i] == ts[i] {
      FixedWidthRoundTrip(0, 0, ts[i]);
    }
  }

  lemma ScaleRowsRoundTrip(ws: seq<u32>)
    ensures ScalesOf(ScaleRows(ws)) == ws
  {
    forall i | 0 <= i < |ws| ensures ScalesOf(ScaleRows(ws))[i] == ws[i] {
      FixedWidthRoundTrip(0, ws[i], 0);
    }
  }

  lemma StampsOfRoundTrip(rows: seq<bytes>)
    requires Uniform(rows, 8)
    ensures StampRows(StampsOf(rows)) == rows
  {
    forall i | 0 <= i < |rows| ensures StampRows(StampsOf(rows))[i] == rows[i] {
      GetPut64(rows[i]);
    }
  }

  lemma ScalesOfRoundTrip(rows: seq<bytes>)
    requires Uniform(rows, 4)
    ensures ScaleRows(ScalesOf(rows)) == rows
  {
    forall i | 0 <= i < |rows| ensures ScaleRows(ScalesOf(rows))[i] == rows[i] {
      GetPut32(rows[i]);
    }
  }

  lemma SectionLengths(c: Contents)
    requires WellFormed(c)
    ensures |Flatten(StampRows(c.timestamps))| == c.shape.StampsEnd() - HEADER_SIZE
    ensures |Flatten(ScaleRows(c.scales))| == c.shape.ScalesEnd() - c.shape.VectorsEnd()
    ensures |Sections(c)| == c.shape.BodyEnd() - HEADER_SIZE
  {
    FlattenLength(StampRows(c.timestamps), 8);
    FlattenLength(ScaleRows(c.scales), 4);
  }

  lemma ImageLength(c: Contents)
    requires WellFormed(c)
    ensures |Body(c)| == c.shape.BodyEnd()
    ensures |Image(c)| == c.shape.SerializedSize()
  {
    SectionLengths(c);
  }

  // ---- Reading ----

  datatype HeaderFields = HeaderFields(magic: u32, version: nat, flags: nat, dim: u32, count: u32, tStart: i64, tEnd: i64, payloadSize: u32) {
    function ShapeOf(): Shape {
      Shape(count, dim, payloadSize, if flags / 2 % 2 == 1 then Int8 else Float32)
    }

    predicate Accepted() {
      && magic == MAGIC
      && version == VERSION
      && flags < 4
      && (flags % 2 == 1 <==> payloadSize > 0)
      && dim > 0
    }
  }

  function ParseHeader(h: bytes): HeaderFields
    requires |h| >= HEADER_SIZE
  {
    HeaderFields(Get32(h[0..4]), Get16(h[4..6]), Get16(h[6..8]), Get32(h[8..12]), Get32(h[12..16]),
                 Get64(h[16..24]), Get64(h[24..32]), Get32(h[32..36]))
  }

  datatype DecodeResult = Ok(contents: Contents) | Corrupt | Oversize

  /** Cutting the sections out of a block of known shape. */
  function Extract(b: bytes, s: Shape, tStart: i64, tEnd: i64): (c: Contents)
    requires |b| >= s.BodyEnd() && s.dim > 0 && s.dtype != Other
    ensures c.shape == s && c.tStart == tStart && c.tEnd == tEnd
    ensures WellFormed(c)
  {
    Contents(s, tStart, tEnd,
             StampsOf(Chunks(b[HEADER_SIZE..s.StampsEnd()], 8, s.count)),
             b[s.StampsEnd()..s.VectorsEnd()],
             ScalesOf(Chunks(b[s.VectorsEnd()..s.ScalesEnd()], 4, s.ScaleCount())),
             b[s.ScalesEnd()..s.BodyEnd()])
  }

  predicate ChecksumAt(b: bytes, end: nat)
    requires end + CRC_SIZE <= |b|
  {
    Same(Word(b[end..end + CRC_SIZE]), Crc32(b[..end]))
  }

  function DecodeUnder(b: bytes, h: HeaderFields): DecodeResult {
    var s := h.ShapeOf();
    if !h.Accepted() then Corrupt
    else if s.SerializedSize() >= SIZE_LIMIT then Oversize
    else if |b| < s.SerializedSize() then Corrupt
    else if !ChecksumAt(b, s.BodyEnd()) then Corrupt
    else Ok(Extract(b, s, h.tStart, h.tEnd))
  }

  /** decode_block. A header whose size would not fit in 64 bits is set apart as Oversize. */
  function Decode(b: bytes): DecodeResult {
    if |b| < HEADER_SIZE + CRC_SIZE then Corrupt else DecodeUnder(b, ParseHeader(b))
  }

  // ---- Decoding undoes serializing ----

  function FieldsOf(c: Contents): HeaderFields {
    HeaderFields(MAGIC, VERSION, Flags(c.shape), c.shape.dim, c.shape.count, c.tStart, c.tEnd, c.shape.payloadSize)
  }

  lemma HeaderSlices(c: Contents, b: bytes)
    requires |b| >= HEADER_SIZE && b[..HEADER_SIZE] == Header(c)
    ensures b[0..4] == Put32(MAGIC) && b[4..6] == Put16(VERSION) && b[6..8] == Put16(Flags(c.shape))
    ensures b[8..12] == Put32(c.shape.dim) && b[12..16] == Put32(c.shape.count)
    ensures b[16..24] == Put64(c.tStart) && b[24..32] == Put64(c.tEnd)
    ensures b[32..36] == Put32(c.shape.payloadSize) && b[36..40] == Put32(0)
  {
    var h := b[..HEADER_SIZE];
    assert h[0..4] == b[0..4] && h[4..6] == b[4..6] && h[6..8] == b[6..8];
    assert h[8..12] == b[8..12] && h[12..16] == b[12..16];
    assert h[16..24] == b[16..24] && h[24..32] == b[24..32];
    assert h[32..36] == b[32..36] && h[36..40] == b[36..40];
  }

  lemma HeaderRoundTrip(c: Contents, b: bytes)
    requires |b| >= HEADER_SIZE && b[..HEADER_SIZE] == Header(c)
    ensures ParseHeader(b) == FieldsOf(c)
  {
    HeaderSlices(c, b);
    FixedWidthRoundTrip(VERSION, MAGIC, c.tStart);
    FixedWidthRoundTrip(Flags(c.shape), c.shape.dim, c.tEnd);
    FixedWidthRoundTrip(0, c.shape.count, 0);
    FixedWidthRoundTrip(0, c.shape.payloadSize, 0);
  }

  lemma CutSections(h: bytes, ts: bytes, vec: bytes, sc: bytes, pl: bytes, rest: bytes)
    ensures var b := h + (ts + vec + sc + pl) + rest;
      var e0 := |h|; var e1 := e0 + |ts|; var e2 := e1 + |vec|; var e3 := e2 + |sc|; var e4 := e3 + |pl|;
      && b[e0..e1] == ts && b[e1..e2] == vec && b[e2..e3] == sc && b[e3..e4] == pl
  {
  }

  lemma SectionsDecoded(c: Contents)
    requires WellFormed(c)
    ensures |Flatten(StampRows(c.timestamps))| == c.shape.count * 8
    ensures |Flatten(ScaleRows(c.scales))| == c.shape.ScaleCount() * 4
    ensures StampsOf(Chunks(Flatten(StampRows(c.timestamps)), 8, c.shape.count)) == c.timestamps
    ensures ScalesOf(Chunks(Flatten(ScaleRows(c.scales)), 4, c.shape.ScaleCount())) == c.scales
  {
    ChunksOfAll(StampRows(c.timestamps), 8);
    ChunksOfAll(ScaleRows(c.scales), 4);
    StampRowsRoundTrip(c.timestamps);
    ScaleRowsRoundTrip(c.scales);
  }

  lemma ExtractCut(b: bytes, c: Contents)
    requires WellFormed(c) && |b| >= c.shape.BodyEnd()
    requires b[HEADER_SIZE..c.shape.StampsEnd()] == Flatten(StampRows(c.timestamps))
    requires b[c.shape.StampsEnd()..c.shape.VectorsEnd()] == c.vectors
    requires b[c.shape.VectorsEnd()..c.shape.ScalesEnd()] == Flatten(ScaleRows(c.scales))
    requires b[c.shape.ScalesEnd()..c.shape.BodyEnd()] == c.payloads
    ensures Same(Extract(b, c.shape, c.tStart, c.tEnd), c)
  {
    SectionsDecoded(c);
  }

  lemma ExtractAfter(h: bytes, c: Contents, rest: bytes)
    requires WellFormed(c) && |h| == HEADER_SIZE
    ensures |h + Sections(c) + rest| >= c.shape.BodyEnd()
    ensures Same(Extract(h + Sections(c) + rest, c.shape, c.tStart, c.tEnd), c)
  {
    var stamps, scales := Flatten(StampRows(c.timestamps)), Flatten(ScaleRows(c.scales));
    SectionLengths(c);
    CutSections(h, stamps, c.vectors, scales, c.payloads, rest);
    ExtractCut(h + (stamps + c.vectors + scales + c.payloads) + rest, c);
  }

  lemma DecodeAccepts(c: Contents, b: bytes)
    requires WellFormed(c) && c.shape.SerializedSize() < SIZE_LIMIT
    requires |b| >= c.shape.SerializedSize() && ChecksumAt(b, c.shape.BodyEnd())
    ensures Same(DecodeUnder(b, FieldsOf(c)), Ok(Extract(b, c.shape, c.tStart, c.tEnd)))
  {
    hide Extract, ChecksumAt;
    assert FieldsOf(c).ShapeOf() == c.shape;
  }

  lemma CutStored(h: bytes, sections: bytes, stored: bytes, junk: bytes)
    ensures var b := h + sections + stored + junk; var end := |h| + |sections|;
      && b[..|h|] == h && b[..end] == h + sections && b[end..end + |stored|] == stored
      && b == h + sections + (stored + junk)
  {
  }

  /** Reading a serialized block returns every field and section, whatever follows it in the buffer. */
  lemma DecodeImage(c: Contents, junk: bytes)
    requires WellFormed(c) && c.shape.SerializedSize() < SIZE_LIMIT
    ensures Decode(Image(c) + junk) == Ok(c)
  {
    var h, sections, stored := Header(c), Sections(c), WordBytes(Crc32(Body(c)));
    SectionLengths(c);
    CutStored(h, sections, stored, junk);
    HeaderRoundTrip(c, Image(c) + junk);
    WordBytesInverse(Crc32(Body(c)));
    ExtractAfter(h, c, stored + junk);
    DecodeAccepts(c, Image(c) + junk);
  }

  // ---- Serializing undoes decoding ----

  lemma FlagsRecovered(h: HeaderFields)
    requires h.Accepted()
    ensures Flags(h.ShapeOf()) == h.flags
  {
  }

  lemma HeaderBytes(b: bytes)
    requires |b| >= HEADER_SIZE && ParseHeader(b).Accepted()
    ensures b[0..4] == Put32(MAGIC) && b[4..6] == Put16(VERSION)
    ensures b[6..8] == Put16(Flags(ParseHeader(b).ShapeOf()))
    ensures b[8..12] == Put32(ParseHeader(b).dim) && b[12..16] == Put32(ParseHeader(b).count)
  {
    FlagsRecovered(ParseHeader(b));
    GetPut32(b[0..4]);
    GetPut16(b[4..6]);
    GetPut16(b[6..8]);
    GetPut32(b[8..12]);
    GetPut32(b[12..16]);
  }

  lemma HeaderTailBytes(b: bytes)
    requires |b| >= HEADER_SIZE
    ensures b[16..24] == Put64(ParseHeader(b).tStart) && b[24..32] == Put64(ParseHeader(b).tEnd)
    ensures b[32..36] == Put32(ParseHeader(b).payloadSize)
  {
    GetPut64(b[16..24]);
    GetPut64(b[24..32]);
    GetPut32(b[32..36]);
  }

  lemma JoinSlices(b: bytes)
    requires |b| >= HEADER_SIZE
    ensures b[..36] == b[0..4] + b[4..6] + b[6..8] + b[8..12] + b[12..16] + b[16..24] + b[24..32] + b[32..36]
  {
  }

  lemma HeaderReserialized(b: bytes, c: Contents)
    requires |b| >= HEADER_SIZE && ParseHeader(b).Accepted()
    requires c.shape == ParseHeader(b).ShapeOf() && c.tStart == ParseHeader(b).tStart && c.tEnd == ParseHeader(b).tEnd
    ensures Header(c) == b[..36] + Put32(0)
  {
    HeaderBytes(b);
    HeaderTailBytes(b);
    JoinSlices(b);
  }

  lemma FlattenAllChunks(b: bytes, width: nat, n: nat)
    requires n * width == |b|
    ensures Flatten(Chunks(b, width, n)) == b
  {
    FlattenOfChunks(b, width, n);
    assert b[..n * width] == b;
  }

  lemma JoinSections(b: bytes, e0: nat, e1: nat, e2: nat, e3: nat, e4: nat)
    requires e0 <= e1 <= e2 <= e3 <= e4 <= |b|
    ensures b[e0..e1] + b[e1..e2] + b[e2..e3] + b[e3..e4] == b[e0..e4]
  {
  }

  lemma SectionsReserialized(b: bytes, s: Shape, tStart: i64, tEnd: i64)
    requires |b| >= s.BodyEnd() && s.dim > 0 && s.dtype != Other
    ensures Sections(Extract(b, s, tStart, tEnd)) == b[HEADER_SIZE..s.BodyEnd()]
  {
    var stamps, scales := b[HEADER_SIZE..s.StampsEnd()], b[s.VectorsEnd()..s.ScalesEnd()];
    StampsOfRoundTrip(Chunks(stamps, 8, s.count));
    ScalesOfRoundTrip(Chunks(scales, 4, s.ScaleCount()));
    FlattenAllChunks(stamps, 8, s.count);
    FlattenAllChunks(scales, 4, s.ScaleCount());
    JoinSections(b, HEADER_SIZE, s.StampsEnd(), s.VectorsEnd(), s.ScalesEnd(), s.BodyEnd());
  }

  /** What acceptance says about the input. */
  predicate Reads(b: bytes, c: Contents) {
    && |b| >= HEADER_SIZE && ParseHeader(b).Accepted() && WellFormed(c)
    && c.shape == ParseHeader(b).ShapeOf() && c.tStart == ParseHeader(b).tStart && c.tEnd == ParseHeader(b).tEnd
    && c.shape.BodyEnd() + CRC_SIZE <= |b|
    && c == Extract(b, c.shape, c.tStart, c.tEnd)
    && ChecksumAt(b, c.shape.BodyEnd())
  }

  lemma AcceptedReads(b: bytes)
    requires Decode(b).Ok?
    ensures Reads(b, Decode(b).contents)
  {
  }

  lemma SpliceDecides(h: bytes, zero: bytes, reserved: bytes, sections: bytes, again: bytes, stored: bytes)
    requires |h| == 36 && |reserved| == |zero| == 4
    requires reserved == zero ==> again == stored
    ensures h + zero + sections + again == h + reserved + sections + stored <==> reserved == zero
  {
    if h + zero + sections + again == h + reserved + sections + stored {
      assert (h + zero + sections + again)[36..40] == zero;
      assert (h + reserved + sections + stored)[36..40] == reserved;
    }
  }

  lemma SameImage(body: bytes, stored: bytes, h: bytes, sections: bytes, reserved: bytes)
    requires |h| == 36 && |reserved| == 4 && |stored| == 4
    requires body == h + reserved + sections && stored == WordBytes(Crc32(body))
    ensures var again := h + Put32(0) + sections;
      again + WordBytes(Crc32(again)) == body + stored <==> reserved == Put32(0)
  {
    SpliceDecides(h, Put32(0), reserved, sections, WordBytes(Crc32(h + Put32(0) + sections)), stored);
  }

  lemma CutReserved(b: bytes, end: nat)
    requires HEADER_SIZE <= end && end + 4 <= |b|
    ensures b[..end] == b[..36] + b[36..40] + b[HEADER_SIZE..end]
    ensures b[..end + 4] == b[..end] + b[end..end + 4]
  {
  }

  lemma BodyReserialized(b: bytes, c: Contents)
    requires Reads(b, c)
    ensures Body(c) == b[..36] + Put32(0) + b[HEADER_SIZE..c.shape.BodyEnd()]
  {
    HeaderReserialized(b, c);
    SectionsReserialized(b, c.shape, c.tStart, c.tEnd);
  }

  lemma StoredChecksum(b: bytes, c: Contents)
    requires Reads(b, c)
    ensures var end := c.shape.BodyEnd(); b[end..end + CRC_SIZE] == WordBytes(Crc32(b[..end]))
  {
    WordInverse(b[c.shape.BodyEnd()..c.shape.BodyEnd() + CRC_SIZE]);
  }

  lemma ImageOfBody(c: Contents, body: bytes)
    requires Body(c) == body
    ensures Image(c) == body + WordBytes(Crc32(body))
  {
  }

  lemma CompareImages(b: bytes, end: nat, stored: bytes)
    requires HEADER_SIZE <= end && end + 4 <= |b|
    requires stored == b[end..end + 4] == WordBytes(Crc32(b[..end]))
    ensures var again := b[..36] + Put32(0) + b[HEADER_SIZE..end];
      again + WordBytes(Crc32(again)) == b[..end + 4] <==> b[36..40] == Put32(0)
  {
    CutReserved(b, end);
    SameImage(b[..end], stored, b[..36], b[HEADER_SIZE..end], b[36..40]);
  }

  lemma ReadsReserialize(b: bytes, c: Contents, n: nat)
    requires Reads(b, c) && n == c.shape.SerializedSize()
    ensures HEADER_SIZE <= n <= |b|
    ensures Image(c) == b[..n] <==> b[36..40] == Put32(0)
  {
    var end := c.shape.BodyEnd();
    BodyReserialized(b, c);
    StoredChecksum(b, c);
    CompareImages(b, end, b[end..end + 4]);
    ImageOfBody(c, b[..36] + Put32(0) + b[HEADER_SIZE..end]);
  }

  /** An accepted input is its own re-serialization exactly when its reserved field is zero. */
  lemma ReserializeIffReservedZero(b: bytes)
    requires Decode(b).Ok?
    ensures HEADER_SIZE <= Decode(b).contents.shape.SerializedSize() <= |b|
    ensures Image(Decode(b).contents) == b[..Decode(b).contents.shape.SerializedSize()] <==> b[36..40] == Put32(0)
  {
    AcceptedReads(b);
    ReadsReserialize(b, Decode(b).contents, Decode(b).contents.shape.SerializedSize());
  }

  // ---- Damage is detected ----

  function Damaged(b: bytes, at: nat, w: bytes): (d: bytes)
    requires |w| == 4 && at + 4 <= |b|
    ensures |d| == |b|
  {
    b[..at] + w + b[at + 4..]
  }

  /** Acceptance in one equation: a good header, and a checksum that matches over the implied length. */
  lemma AcceptedIffChecked(b: bytes, n: nat)
    requires |b| >= HEADER_SIZE && n == ParseHeader(b).ShapeOf().SerializedSize()
    requires n < SIZE_LIMIT && n <= |b|
    ensures Decode(b).Ok? <==> ParseHeader(b).Accepted() && Checked(b[..n])
    ensures !Decode(b).Oversize?
  {
    hide Crc32, Word, Extract, ParseHeader;
    assert b[..n][..n - 4] == b[..n - 4] && b[..n][n - 4..] == b[n - 4..n];
  }

  lemma DamagedFront(b: bytes, at: nat, w: bytes, n: nat)
    requires |w| == 4 && at + 4 <= n <= |b|
    ensures Same(b[..n], b[..at] + b[at..at + 4] + b[at + 4..n])
    ensures Same(Damaged(b, at, w)[..n], b[..at] + w + b[at + 4..n])
  {
    assert b[..n] == b[..at] + b[at..at + 4] + b[at + 4..n];
    assert Damaged(b, at, w)[..n] == b[..at] + w + b[at + 4..n];
  }

  lemma BurstUnchecked(b: bytes, at: nat, w: bytes, n: nat)
    requires |w| == 4 && at + 4 <= n <= |b| && w != b[at..at + 4]
    requires Checked(b[..n])
    ensures !Checked(Damaged(b, at, w)[..n])
  {
    DamagedFront(b, at, w, n);
    BurstBreaksChecksum(b[..at], b[at..at + 4], w, b[at + 4..n]);
  }

  /** Any change confined to four consecutive bytes of a valid block is rejected, unless it changes the implied length. */
  lemma BurstRejected(b: bytes, at: nat, w: bytes)
    requires Decode(b).Ok? && |w| == 4
    requires at + 4 <= Decode(b).contents.shape.SerializedSize() <= |b|
    requires w != b[at..at + 4]
    requires ParseHeader(Damaged(b, at, w)).ShapeOf().SerializedSize() == ParseHeader(b).ShapeOf().SerializedSize()
    ensures Decode(Damaged(b, at, w)) == Corrupt
  {
    var n := ParseHeader(b).ShapeOf().SerializedSize();
    AcceptedReads(b);
    AcceptedIffChecked(b, n);
    BurstUnchecked(b, at, w, n);
    AcceptedIffChecked(Damaged(b, at, w), n);
  }

  lemma Subslice(b: bytes, i: nat, j: nat, k: nat, l: nat)
    requires i <= k <= l <= j <= |b|
    ensures b[i..j][k - i..l - i] == b[k..l]
  {
    assert forall x :: 0 <= x < l - k ==> b[i..j][k - i..l - i][x] == b[k..l][x];
  }

  lemma SameLayout(b: bytes, d: bytes)
    requires |b| >= HEADER_SIZE && |d| >= HEADER_SIZE
    requires d[6..16] == b[6..16] && d[32..36] == b[32..36]
    ensures ParseHeader(d).ShapeOf() == ParseHeader(b).ShapeOf()
  {
    Subslice(b, 6, 16, 6, 8);
    Subslice(b, 6, 16, 8, 12);
    Subslice(b, 6, 16, 12, 16);
    Subslice(d, 6, 16, 6, 8);
    Subslice(d, 6, 16, 8, 12);
    Subslice(d, 6, 16, 12, 16);
  }

  /** In particular when flags, dimension, count and payload size are left intact. */
  lemma BurstOutsideLayoutRejected(b: bytes, at: nat, w: bytes)
    requires Decode(b).Ok? && |w| == 4
    requires at + 4 <= Decode(b).contents.shape.SerializedSize() <= |b|
    requires w != b[at..at + 4]
    requires Damaged(b, at, w)[6..16] == b[6..16] && Damaged(b, at, w)[32..36] == b[32..36]
    ensures Decode(Damaged(b, at, w)) == Corrupt
  {
    SameLayout(b, Damaged(b, at, w));
    BurstRejected(b, at, w);
  }
}
