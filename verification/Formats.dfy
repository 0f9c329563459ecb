/** The three stored formats byte by byte: blocks, the metadata blob, and keys. */
module Formats {
  import opened Bytes
  import opened Crc
  import opened Rows
  import opened BlockCodec
  import opened StorageKeys
  import opened Metadata

  // ---- Numbers in a buffer ----

  /** The little-endian number in four bytes. */
  function Four(b: bytes, i: nat): int
    requires i + 4 <= |b|
  {
    b[i] as int + 0x100 * (b[i + 1] as int) + 0x1_0000 * (b[i + 2] as int) + 0x100_0000 * (b[i + 3] as int)
  }

  function Eight(b: bytes, i: nat): int
    requires i + 8 <= |b|
  {
    Four(b, i) + 0x1_0000_0000 * Four(b, i + 4)
  }

  lemma FourOf(b: bytes, i: nat, w: u32)
    requires i + 4 <= |b| && b[i..i + 4] == Put32(w)
    ensures Four(b, i) == w
  {
    hide Put32;
    var s := b[i..i + 4];
    FixedWidthRoundTrip(0, w, 0);
    assert s[0] == b[i] && s[1] == b[i + 1] && s[2] == b[i + 2] && s[3] == b[i + 3];
  }

  lemma EightOf(b: bytes, i: nat, t: i64)
    requires i + 8 <= |b| && b[i..i + 8] == Put64(t)
    ensures Eight(b, i) == if t < 0 then t as int + 0x1_0000_0000_0000_0000 else t
  {
    hide Put64;
    var s := b[i..i + 8];
    FixedWidthRoundTrip(0, 0, t);
    assert GetU64(s) == Four(s, 0) + 0x1_0000_0000 * Four(s, 4);
    assert Four(s, 0) == Four(b, i) && Four(s, 4) == Four(b, i + 4);
  }

  lemma SmallTwo(b: bytes, i: nat, v: nat)
    requires i + 2 <= |b| && b[i..i + 2] == Put16(v) && v < 256
    ensures b[i] == v && b[i + 1] == 0
  {
    hide Put16;
    var s := b[i..i + 2];
    FixedWidthRoundTrip(v, 0, 0);
    assert s[0] == b[i] && s[1] == b[i + 1];
  }

  // ---- Blocks ----

  /** The forty bytes of a block's header. */
  lemma HeaderBytesAre(c: Contents, b: bytes)
    requires |b| >= 40 && b[..40] == Header(c)
    ensures Four(b, 0) == 0x3042_5643
    ensures b[4] == 1 && b[5] == 0
    ensures b[6] == (if c.shape.payloadSize > 0 then 1 else 0) + (if c.shape.dtype == Int8 then 2 else 0) && b[7] == 0
    ensures Four(b, 8) == c.shape.dim && Four(b, 12) == c.shape.count
    ensures Eight(b, 16) == if c.tStart < 0 then c.tStart as int + 0x1_0000_0000_0000_0000 else c.tStart
    ensures Eight(b, 24) == if c.tEnd < 0 then c.tEnd as int + 0x1_0000_0000_0000_0000 else c.tEnd
    ensures Four(b, 32) == c.shape.payloadSize && Four(b, 36) == 0
  {
    hide Header, Four, Eight;
    HeaderSlices(c, b);
    FourOf(b, 0, MAGIC);
    SmallTwo(b, 4, VERSION);
    SmallTwo(b, 6, Flags(c.shape));
    FourOf(b, 8, c.shape.dim);
    FourOf(b, 12, c.shape.count);
    EightOf(b, 16, c.tStart);
    EightOf(b, 24, c.tEnd);
    FourOf(b, 32, c.shape.payloadSize);
    FourOf(b, 36, 0);
  }

  lemma FourIsGet(b: bytes, i: nat)
    requires i + 4 <= |b|
    ensures Get32(b[i..i + 4]) == Four(b, i)
  {
    var s := b[i..i + 4];
    assert s[0] == b[i] && s[1] == b[i + 1] && s[2] == b[i + 2] && s[3] == b[i + 3];
  }

  lemma EightIsGet(b: bytes, i: nat)
    requires i + 8 <= |b|
    ensures GetU64(b[i..i + 8]) == Eight(b, i)
  {
    var s := b[i..i + 8];
    assert GetU64(s) == Four(s, 0) + 0x1_0000_0000 * Four(s, 4);
    assert Four(s, 0) == Four(b, i) && Four(s, 4) == Four(b, i + 4);
  }

  /** The signed number whose two's complement these eight bytes are. */
  predicate IsSigned(t: int, u: int) {
    t == if u < 0x8000_0000_0000_0000 then u else u - 0x1_0000_0000_0000_0000
  }

  /** What is read from a header. */
  lemma HeaderFieldsAre(b: bytes)
    requires |b| >= 40
    ensures var h := ParseHeader(b);
      && h.magic == Four(b, 0) && h.version == b[4] as int + 0x100 * (b[5] as int) && h.flags == b[6] as int + 0x100 * (b[7] as int)
      && h.dim == Four(b, 8) && h.count == Four(b, 12) && h.payloadSize == Four(b, 32)
      && IsSigned(h.tStart, Eight(b, 16)) && IsSigned(h.tEnd, Eight(b, 24))
  {
    FourIsGet(b, 0);
    FourIsGet(b, 8);
    FourIsGet(b, 12);
    FourIsGet(b, 32);
    EightIsGet(b, 16);
    EightIsGet(b, 24);
    hide Four, Eight, Get32, GetU64;
    assert b[4..6][0] == b[4] && b[4..6][1] == b[5] && b[6..8][0] == b[6] && b[6..8][1] == b[7];
  }

  /** Which headers a block may have, and the shape they give it. */
  lemma AcceptedHeaderMeans(b: bytes)
    requires |b| >= 40
    ensures ParseHeader(b).Accepted() <==>
              && Four(b, 0) == 0x3042_5643 && b[4] == 1 && b[5] == 0 && b[6] < 4 && b[7] == 0
              && Four(b, 8) > 0 && (b[6] % 2 == 1 <==> Four(b, 32) > 0)
    ensures ParseHeader(b).Accepted() ==>
              ParseHeader(b).ShapeOf() == Shape(Four(b, 12), Four(b, 8), Four(b, 32), if b[6] >= 2 then Int8 else Float32)
  {
    hide Four, Eight, ParseHeader, IsSigned;
    HeaderFieldsAre(b);
    TwoFlags(b[6], b[7], ParseHeader(b).flags);
  }

  lemma TwoFlags(low: byte, high: byte, flags: nat)
    requires flags == low as int + 0x100 * (high as int)
    ensures flags < 4 <==> low < 4 && high == 0
    ensures flags < 4 ==> flags == low && (flags / 2 % 2 == 1 <==> low >= 2)
  {
  }

  /** An accepted header is set apart exactly when the size it implies does not fit in 64 bits. */
  lemma OversizeMeans(b: bytes)
    requires |b| >= 44
    ensures Decode(b).Oversize? <==>
              ParseHeader(b).Accepted() && ParseHeader(b).ShapeOf().SerializedSize() >= 0x1_0000_0000_0000_0000
  {
    hide ParseHeader, Extract, ChecksumAt;
  }

  /** Row i of equal rows laid end to end starts at i times the width. */
  lemma FlatRow(rows: seq<bytes>, width: nat, i: nat)
    requires Uniform(rows, width) && i < |rows|
    ensures i * width + width <= |Flatten(rows)| == |rows| * width
    ensures Flatten(rows)[i * width..i * width + width] == rows[i]
  {
    ChunksOfAll(rows, width);
    ChunkAt(Flatten(rows), width, |rows|, i);
    RowBound(i, |rows|, width);
  }

  lemma StampBytesAre(ts: seq<i64>, i: nat)
    requires i < |ts|
    ensures 8 * i + 8 <= |Flatten(StampRows(ts))| == 8 * |ts|
    ensures Eight(Flatten(StampRows(ts)), 8 * i) == if ts[i] < 0 then ts[i] as int + 0x1_0000_0000_0000_0000 else ts[i]
  {
    hide Eight, Flatten;
    FlatRow(StampRows(ts), 8, i);
    EightOf(Flatten(StampRows(ts)), 8 * i, ts[i]);
  }

  lemma ScaleBytesAre(ws: seq<u32>, i: nat)
    requires i < |ws|
    ensures 4 * i + 4 <= |Flatten(ScaleRows(ws))| == 4 * |ws|
    ensures Four(Flatten(ScaleRows(ws)), 4 * i) == ws[i]
  {
    hide Four, Flatten;
    FlatRow(ScaleRows(ws), 4, i);
    FourOf(Flatten(ScaleRows(ws)), 4 * i, ws[i]);
  }

  lemma Doubled(x: int, p: int, y: int)
    ensures 2 * (x + p * y) == 2 * x + (2 * p) * y
  {
  }

  lemma {:induction false} NumberSplit(s: seq<bool>, n: nat)
    requires n <= |s|
    ensures Number(s) == Number(s[..n]) + Pow2(n) * Number(s[n..])
  {
    if n == 0 {
      assert s[0..] == s;
    } else {
      NumberSplit(s[1..], n - 1);
      assert s[1..][..n - 1] == s[..n][1..] && s[1..][n - 1..] == s[n..];
      Doubled(Number(s[..n][1..]), Pow2(n - 1), Number(s[n..]));
    }
  }

  /** A checksum is stored least significant byte first. */
  lemma ChecksumBytesAre(crc: word)
    ensures Four(WordBytes(crc), 0) == Number(crc)
  {
    hide Number, Pow2;
    Pow2Of8();
    NumberSplit(crc, 8);
    NumberSplit(crc[8..], 8);
    NumberSplit(crc[16..], 8);
    NumberSplit(crc[24..], 8);
    assert crc[8..][8..] == crc[16..] && crc[16..][8..] == crc[24..] && crc[24..][8..] == [];
    EmptyNumber();
  }

  lemma EmptyNumber()
    ensures Number([]) == 0
  {
  }

  /** How many bytes a block takes. */
  lemma BlockSizeIs(s: Shape)
    ensures s.dtype == Other ==> s.SerializedSize() == 0
    ensures s.dtype != Other ==> s.SerializedSize() == 40 + 8 * s.count + s.count * (s.dim * (if s.dtype == Int8 then 1 else 4))
                                  + (if s.dtype == Int8 then 4 * s.count else 0) + s.count * s.payloadSize + 4
  {
  }

  lemma Shifted(b: bytes, at: nat, part: bytes, i: nat)
    requires at + |part| <= |b| && b[at..at + |part|] == part
    ensures i + 4 <= |part| ==> Four(b, at + i) == Four(part, i)
    ensures i + 8 <= |part| ==> Eight(b, at + i) == Eight(part, i)
    ensures i < |part| ==> b[at + i] == part[i]
  {
    forall k | 0 <= k < |part| ensures b[at + k] == part[k] {
      assert b[at..at + |part|][k] == part[k];
    }
  }

  lemma ImageParts(c: Contents)
    requires WellFormed(c)
    ensures var b, s := Image(c), c.shape;
      && |b| == s.SerializedSize() == s.BodyEnd() + 4
      && b[..40] == Header(c)
      && b[40..s.StampsEnd()] == Flatten(StampRows(c.timestamps))
      && b[s.StampsEnd()..s.VectorsEnd()] == c.vectors
      && b[s.VectorsEnd()..s.ScalesEnd()] == Flatten(ScaleRows(c.scales))
      && b[s.ScalesEnd()..s.BodyEnd()] == c.payloads
      && b[..s.BodyEnd()] == Body(c)
      && b[s.BodyEnd()..] == WordBytes(Crc32(b[..s.BodyEnd()]))
  {
    hide Header, Crc32, WordBytes, StampRows, ScaleRows, Flatten;
    SectionLengths(c);
    CutSections(Header(c), Flatten(StampRows(c.timestamps)), c.vectors, Flatten(ScaleRows(c.scales)), c.payloads, WordBytes(Crc32(Body(c))));
  }

  /** A block's first sections byte by byte: the header, the timestamps at 40, the vectors behind them. */
  lemma FrontBytesAre(c: Contents, b: bytes, i: nat)
    requires WellFormed(c) && b == Image(c)
    ensures |b| == c.shape.SerializedSize() && b[..40] == Header(c)
    ensures i < c.shape.count ==>
              Eight(b, 40 + 8 * i) == if c.timestamps[i] < 0 then c.timestamps[i] as int + 0x1_0000_0000_0000_0000 else c.timestamps[i]
    ensures i < |c.vectors| ==> b[40 + 8 * c.shape.count + i] == c.vectors[i]
  {
    hide Header, Crc32, WordBytes, StampRows, ScaleRows, Flatten, Four, Eight, Image, Body;
    ImageParts(c);
    SectionLengths(c);
    if i < c.shape.count {
      StampBytesAre(c.timestamps, i);
      Shifted(b, 40, Flatten(StampRows(c.timestamps)), 8 * i);
    }
    Shifted(b, c.shape.StampsEnd(), c.vectors, i);
  }

  /** Then the scales behind the vectors and the payloads behind those. */
  lemma BackBytesAre(c: Contents, b: bytes, w: nat, p: nat, i: nat)
    requires WellFormed(c) && b == Image(c)
    requires w == 40 + 8 * c.shape.count + |c.vectors| && p == w + (if c.shape.dtype == Int8 then 4 * c.shape.count else 0)
    ensures |b| == p + |c.payloads| + 4
    ensures c.shape.dtype == Int8 && i < c.shape.count ==> Four(b, w + 4 * i) == c.scales[i]
    ensures i < |c.payloads| ==> b[p + i] == c.payloads[i]
  {
    hide Header, Crc32, WordBytes, StampRows, ScaleRows, Flatten, Four, Eight, Image, Body;
    ImageParts(c);
    SectionLengths(c);
    if i < c.shape.ScaleCount() {
      ScaleBytesAre(c.scales, i);
      Shifted(b, w, Flatten(ScaleRows(c.scales)), 4 * i);
    }
    Shifted(b, p, c.payloads, i);
  }

  /** And last the checksum of everything before it. */
  lemma LastBytesAre(c: Contents, b: bytes)
    requires WellFormed(c) && b == Image(c)
    ensures |b| >= 44 && Four(b, |b| - 4) == Number(Crc32(b[..|b| - 4]))
  {
    hide Header, Crc32, WordBytes, StampRows, ScaleRows, Flatten, Four, Image, Body, Number;
    ImageParts(c);
    NumberAtEnd(b, c.shape.BodyEnd(), Crc32(b[..c.shape.BodyEnd()]));
  }

  lemma NumberAtEnd(b: bytes, end: nat, crc: word)
    requires end <= |b| && b[end..] == WordBytes(crc)
    ensures |b| == end + 4 && Four(b, end) == Number(crc)
  {
    hide Number, WordBytes, Four;
    var stored := WordBytes(crc);
    assert |b| == end + |stored|;
    ChecksumBytesAre(crc);
    Shifted(b, end, stored, 0);
  }

  // ---- Metadata ----

  /** The 59 bytes a path's configuration is kept in. */
  lemma BlobBytesAre(c: Config, uuid: Uuid, b: bytes)
    requires b == Blob(c, uuid)
    ensures |b| == 59
    ensures Four(b, 0) == 0x4D56_4543
    ensures b[4] == 1 && b[5] == 0 && b[6] == 0 && b[7] == 0
    ensures Four(b, 8) == c.dim && b[12] == c.dtype && b[13] == c.metric && Four(b, 14) == c.payloadSize
    ensures Eight(b, 18) == c.ringCapacity
    ensures Eight(b, 26) == if c.window < 0 then c.window as int + 0x1_0000_0000_0000_0000 else c.window
    ensures Eight(b, 34) == if c.interval < 0 then c.interval as int + 0x1_0000_0000_0000_0000 else c.interval
    ensures b[42..58] == uuid && b[58] == c.recover
  {
    hide Four, Eight, Put32, Put64, Put16;
    assert b[..18] == Front(c) && b[18..59] == Back(c, uuid);
    hide Front, Back, Blob;
    FrontSlices(c, b);
    BackSlices(c, uuid, b);
    FourOf(b, 0, META_MAGIC);
    SmallTwo(b, 4, META_VERSION);
    SmallTwo(b, 6, 0);
    FourOf(b, 8, c.dim);
    FourOf(b, 14, c.payloadSize);
    EightOf(b, 18, Signed(c.ringCapacity));
    EightOf(b, 26, c.window);
    EightOf(b, 34, c.interval);
  }

  /** Which bytes are read as metadata, and what is read from them; the reserved field is not looked at. */
  lemma AcceptedBlobMeans(b: bytes)
    ensures ParseBlob(b).Some? <==> |b| >= 59 && Four(b, 0) == 0x4D56_4543 && b[4] == 1 && b[5] == 0
    ensures ParseBlob(b).Some? ==>
              var c, uuid := ParseBlob(b).value.0, ParseBlob(b).value.1;
              && c.dim == Four(b, 8) && c.dtype == b[12] && c.metric == b[13] && c.payloadSize == Four(b, 14)
              && c.ringCapacity == Eight(b, 18) && IsSigned(c.window, Eight(b, 26)) && IsSigned(c.interval, Eight(b, 34))
              && c.recover == b[58] && uuid == b[42..58]
  {
    if |b| >= 59 {
      FourIsGet(b, 0);
      FourIsGet(b, 8);
      FourIsGet(b, 14);
      EightIsGet(b, 18);
      EightIsGet(b, 26);
      EightIsGet(b, 34);
      hide Four, Eight, Get32, GetU64;
      assert b[4..6][0] == b[4] && b[4..6][1] == b[5];
      assert Get16(b[4..6]) == b[4] as int + 0x100 * (b[5] as int);
    }
  }

  // ---- Keys ----

  lemma {:induction false} BigEndianAt(v: nat, n: nat, k: nat)
    requires k < n
    ensures BE(v, n)[k] == v / Pow256(n - 1 - k) % 256
  {
    if k == n - 1 {
    } else {
      BigEndianAt(v / 256, n - 1, k);
      DivideTwice(v, Pow256(n - 2 - k));
    }
  }

  lemma DivideTwice(v: nat, p: nat)
    requires p > 0
    ensures v / 256 / p == v / (256 * p)
  {
    var q, r := v / 256 / p, v / 256 % p;
    assert v / 256 == q * p + r;
    assert v == q * (256 * p) + (256 * r + v % 256) by {
      assert q * (256 * p) == 256 * (q * p);
    }
    Modular.DivModUnique(v, 256 * p, q, 256 * r + v % 256);
  }

  /** A block key is the id, the byte 1, and the block id most significant byte first; the metadata key sorts before all of them. */
  lemma KeyBytesAre(id: bytes, block: i64, k: bytes)
    requires k == Key(id, block)
    ensures var n := |id|;
      var v: int := if block < 0 then block as int + 0x1_0000_0000_0000_0000 else block;
      && |k| == n + 9 && k[..n] == id && k[n] == 1
      && k[n + 1] == v / 0x100_0000_0000_0000 && k[n + 2] == v / 0x1_0000_0000_0000 % 256
      && k[n + 3] == v / 0x100_0000_0000 % 256 && k[n + 4] == v / 0x1_0000_0000 % 256
      && k[n + 5] == v / 0x100_0000 % 256 && k[n + 6] == v / 0x1_0000 % 256
      && k[n + 7] == v / 0x100 % 256 && k[n + 8] == v % 256
    ensures RangeBegin(id) == id + [1] && RangeEnd(id) == id + [2]
    ensures META_KEY == [0, 'm' as byte, 'e' as byte, 't' as byte, 'a' as byte]
  {
    var v := Unsigned(block);
    var tail := BE(v, 8);
    assert k[|id| + 1..] == tail;
    assert forall i :: 0 <= i < 8 ==> k[|id| + 1 + i] == tail[i];
    PowerValues();
    assert Pow256(1) == 0x100 && Pow256(3) == 0x100_0000 && Pow256(5) == 0x100_0000_0000 && Pow256(7) == 0x100_0000_0000_0000;
    hide BE, Pow256;
    BigEndianAt(v, 8, 0);
    BigEndianAt(v, 8, 1);
    BigEndianAt(v, 8, 2);
    BigEndianAt(v, 8, 3);
    BigEndianAt(v, 8, 4);
    BigEndianAt(v, 8, 5);
    BigEndianAt(v, 8, 6);
    BigEndianAt(v, 8, 7);
  }

  /** The ids a sensor may have. */
  lemma ValidIdMeans(id: bytes)
    ensures ValidId(id) <==> 1 <= |id| <= 256 && forall i :: 0 <= i < |id| ==> id[i] != 0 && id[i] != 1
  {
  }
}
