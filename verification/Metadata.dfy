/** Engine configuration: its defaults and limits, and the fixed-layout blob it is persisted as. */
module Metadata {
  import opened Bytes
  import opened Wrappers
  import opened Errors
  import opened Modular
  import opened BlockBuffers
  import opened BlockCodec

  const ABI_VERSION: nat := 1
  const META_MAGIC: u32 := 0x4D56_4543
  const META_VERSION: nat := 1
  const META_SIZE: nat := 59
  const MAX_DIM: nat := 65536
  const MAX_PAYLOAD: nat := 4096
  const DTYPE_FLOAT32: byte := 0
  const DTYPE_INT8: byte := 1
  const METRIC_COSINE: byte := 0
  const METRIC_EUCLIDEAN: byte := 1

  datatype Config = Config(
    dim: u32, dtype: byte, metric: byte, payloadSize: u32, ringCapacity: u64,
    window: i64, interval: i64, recover: byte)

  type Uuid = u: bytes | |u| == 16 witness [0, 0, 0, 0, 0, 0, 0, 0, 0, 0, 0, 0, 0, 0, 0, 0]

  // ---- Validation and defaults ----

  datatype Validated = Accepted(cfg: Config) | Rejected(error: Error)

  function Defaulted(c: Config): Config {
    c.(ringCapacity := if c.ringCapacity == 0 then 65536 else c.ringCapacity,
       window := if c.window == 0 then 600000 else c.window,
       interval := if c.interval == 0 then 60000 else c.interval)
  }

  /** validate_and_default. int8Built is whether INT8 was compiled in. */
  function ValidateAndDefault(abi: nat, c: Config, int8Built: bool): Validated {
    if abi != ABI_VERSION then Rejected(InvalidArg)
    else if c.dim == 0 || c.dim > MAX_DIM then Rejected(InvalidArg)
    else if c.payloadSize > MAX_PAYLOAD then Rejected(InvalidArg)
    else if c.dtype > DTYPE_INT8 then Rejected(InvalidArg)
    else if c.metric > METRIC_EUCLIDEAN then Rejected(InvalidArg)
    else if c.dtype == DTYPE_INT8 && !int8Built then Rejected(Unsupported)
    else
      var d := Defaulted(c);
      if d.ringCapacity < 64 || !HasSingleBit(d.ringCapacity) then Rejected(InvalidArg)
      else if d.window < 0 then Rejected(InvalidArg)
      else if d.interval < 100 then Rejected(InvalidArg)
      else Accepted(d)
  }

  /** What every engine can rely on. */
  predicate Usable(c: Config, int8Built: bool) {
    && 0 < c.dim <= MAX_DIM && c.payloadSize <= MAX_PAYLOAD
    && (c.dtype == DTYPE_FLOAT32 || (c.dtype == DTYPE_INT8 && int8Built))
    && (c.metric == METRIC_COSINE || c.metric == METRIC_EUCLIDEAN)
    && c.ringCapacity >= 64 && HasSingleBit(c.ringCapacity)
    && c.window > 0 && c.interval >= 100
  }

  /** Validation accepts exactly the configurations whose defaulted form is usable, and a usable one is its own defaulted form. */
  lemma ValidationIsExact(abi: nat, c: Config, int8Built: bool)
    ensures ValidateAndDefault(abi, c, int8Built).Accepted? <==> abi == ABI_VERSION && Usable(Defaulted(c), int8Built)
    ensures ValidateAndDefault(abi, c, int8Built).Accepted? ==> ValidateAndDefault(abi, c, int8Built).cfg == Defaulted(c)
    ensures Usable(c, int8Built) ==> ValidateAndDefault(ABI_VERSION, c, int8Built) == Accepted(c)
  {
    SmallestBits();
  }

  /** In plain numbers: what is accepted, what zero stands for, and that only a missing INT8 build is unsupported. */
  lemma AcceptedMeans(abi: nat, c: Config, int8Built: bool)
    ensures var known := abi == 1 && 1 <= c.dim <= 65536 && c.payloadSize <= 4096 && c.dtype <= 1 && c.metric <= 1;
      var v := ValidateAndDefault(abi, c, int8Built);
      && (v.Accepted? <==> known && (c.dtype == 0 || int8Built)
                           && (c.ringCapacity == 0 || (c.ringCapacity >= 64 && HasSingleBit(c.ringCapacity)))
                           && c.window >= 0 && (c.interval == 0 || c.interval >= 100))
      && (v.Accepted? ==> v.cfg == Config(c.dim, c.dtype, c.metric, c.payloadSize, if c.ringCapacity == 0 then 65536 else c.ringCapacity,
                                          if c.window == 0 then 600000 else c.window, if c.interval == 0 then 60000 else c.interval, c.recover))
      && (v.Rejected? ==> v.error == if known && c.dtype == 1 && !int8Built then Unsupported else InvalidArg)
  {
    SmallestBits();
  }

  lemma SmallestBits()
    ensures HasSingleBit(65536)
  {
    assert HasSingleBit(1) && HasSingleBit(2) && HasSingleBit(4) && HasSingleBit(8) && HasSingleBit(16);
    assert HasSingleBit(32) && HasSingleBit(64) && HasSingleBit(128) && HasSingleBit(256) && HasSingleBit(512);
    assert HasSingleBit(1024) && HasSingleBit(2048) && HasSingleBit(4096) && HasSingleBit(8192) && HasSingleBit(16384);
    assert HasSingleBit(32768);
  }

  // ---- The metadata blob ----

  function Front(c: Config): (b: bytes)
    ensures |b| == 18
  {
    Put32(META_MAGIC) + Put16(META_VERSION) + Put16(0) + Put32(c.dim) + [c.dtype] + [c.metric] + Put32(c.payloadSize)
  }

  function Back(c: Config, uuid: Uuid): (b: bytes)
    ensures |b| == 41
  {
    Put64(Signed(c.ringCapacity)) + Put64(c.window) + Put64(c.interval) + uuid + [c.recover]
  }

  /** serialize_engine_metadata */
  function Blob(c: Config, uuid: Uuid): (b: bytes)
    ensures |b| == META_SIZE
  {
    Front(c) + Back(c, uuid)
  }

  /** deserialize_engine_metadata; None is the corruption error. */
  function ParseBlob(b: bytes): Option<(Config, Uuid)> {
    if |b| < META_SIZE then None
    else if Get32(b[0..4]) != META_MAGIC || Get16(b[4..6]) != META_VERSION then None
    else Some((Config(Get32(b[8..12]), b[12], b[13], Get32(b[14..18]), GetU64(b[18..26]),
                      Get64(b[26..34]), Get64(b[34..42]), b[58]), b[42..58]))
  }

  lemma FrontSlices(c: Config, b: bytes)
    requires |b| >= 18 && b[..18] == Front(c)
    ensures b[0..4] == Put32(META_MAGIC) && b[4..6] == Put16(META_VERSION) && b[6..8] == Put16(0) && b[8..12] == Put32(c.dim)
    ensures b[12] == c.dtype && b[13] == c.metric && b[14..18] == Put32(c.payloadSize)
  {
    var h := b[..18];
    assert h[0..4] == b[0..4] && h[4..6] == b[4..6] && h[6..8] == b[6..8] && h[8..12] == b[8..12];
    assert h[12] == b[12] && h[13] == b[13] && h[14..18] == b[14..18];
  }

  lemma BackSlices(c: Config, uuid: Uuid, b: bytes)
    requires |b| >= META_SIZE && b[18..59] == Back(c, uuid)
    ensures b[18..26] == Put64(Signed(c.ringCapacity)) && b[26..34] == Put64(c.window) && b[34..42] == Put64(c.interval)
    ensures b[42..58] == uuid && b[58] == c.recover
  {
    Subslice(b, 18, 59, 18, 26);
    Subslice(b, 18, 59, 26, 34);
    Subslice(b, 18, 59, 34, 42);
    Subslice(b, 18, 59, 42, 58);
    assert b[18..59][40] == b[58];
  }

  lemma Unwrapped(v: u64)
    ensures GetU64(Put64(Signed(v))) == v
  {
    FixedWidthRoundTrip(0, 0, Signed(v));
  }

  /** What was persisted is read back, field by field, whatever follows it. */
  lemma BlobRoundTrip(c: Config, uuid: Uuid, rest: bytes)
    ensures ParseBlob(Blob(c, uuid) + rest) == Some((c, uuid))
  {
    var b := Blob(c, uuid) + rest;
    assert b[..18] == Front(c) && b[18..59] == Back(c, uuid);
    FrontSlices(c, b);
    BackSlices(c, uuid, b);
    FixedWidthRoundTrip(META_VERSION, META_MAGIC, c.window);
    FixedWidthRoundTrip(0, c.dim, c.interval);
    FixedWidthRoundTrip(0, c.payloadSize, 0);
    Unwrapped(c.ringCapacity);
  }

  lemma JoinFront(b: bytes)
    requires |b| >= META_SIZE
    ensures b[..18] == b[0..4] + b[4..6] + b[6..8] + b[8..12] + [b[12]] + [b[13]] + b[14..18]
    ensures b[18..59] == b[18..26] + b[26..34] + b[34..42] + b[42..58] + [b[58]]
    ensures b[..59] == b[..18] + b[18..59]
  {
  }

  /** Re-serializing an accepted blob gives its first 59 bytes back if and only if the reserved field, which is not read, was zero. */
  lemma ReblobIffReservedZero(b: bytes)
    requires ParseBlob(b).Some?
    ensures Blob(ParseBlob(b).value.0, ParseBlob(b).value.1) == b[..META_SIZE] <==> b[6..8] == Put16(0)
  {
    var c, uuid := ParseBlob(b).value.0, ParseBlob(b).value.1;
    GetPut32(b[0..4]);
    GetPut16(b[4..6]);
    GetPut32(b[8..12]);
    GetPut32(b[14..18]);
    GetPut64(b[18..26]);
    GetPut64(b[26..34]);
    GetPut64(b[34..42]);
    JoinFront(b);
    assert Signed(GetU64(b[18..26])) == Get64(b[18..26]);
    assert Back(c, uuid) == b[18..59];
    if Blob(c, uuid) == b[..META_SIZE] {
      assert b[..META_SIZE][..18] == b[..18] == Front(c);
      FrontSlices(c, b);
    }
  }

  method PutBack(c: Config, uuid: Uuid, out: array<byte>, from: nat) returns (p: nat)
    requires from + 41 == out.Length
    modifies out
    ensures p == out.Length && out[..p] == old(out[..from]) + Back(c, uuid)
  {
    p := Copy(out, from, Put64(Signed(c.ringCapacity)));
    p := Copy(out, p, Put64(c.window));
    p := Copy(out, p, Put64(c.interval));
    p := Copy(out, p, uuid);
    p := Copy(out, p, [c.recover]);
  }

  /** The blob written into a caller's 59-byte buffer. */
  method SerializeMetadata(c: Config, uuid: Uuid, out: array<byte>)
    requires out.Length == META_SIZE
    modifies out
    ensures out[..] == Blob(c, uuid)
  {
    hide Front, Back;
    var p := Copy(out, 0, Front(c));
    p := PutBack(c, uuid, out, p);
    assert out[..p] == out[..];
  }
}
