/** Keys of the cold tier: sensor id, a separator byte, and the block id in big-endian order. */
module StorageKeys {
  import opened Bytes
  import opened Wrappers

  const SEP: byte := 0x01
  const META_KEY: bytes := [0x00, 0x6D, 0x65, 0x74, 0x61]
  const MAX_ID_LENGTH: nat := 256

  /** What validate_sensor_id accepts: a non-empty C string of bounded length without the separator. */
  predicate ValidId(id: bytes) {
    0 < |id| <= MAX_ID_LENGTH && forall i :: 0 <= i < |id| ==> id[i] > SEP
  }

  /** encode_key. */
  function Key(id: bytes, block: i64): (k: bytes)
    ensures |k| == |id| + 9
  {
    id + ([SEP] + BE(Unsigned(block), 8))
  }

  function RangeBegin(id: bytes): bytes {
    id + [SEP]
  }

  function RangeEnd(id: bytes): bytes {
    id + [SEP + 1]
  }

  /** Whether a key lies in [begin, end). */
  predicate Within(k: bytes, begin: bytes, end: bytes) {
    !Less(k, begin) && Less(k, end)
  }

  // ---- Taking a key apart ----

  /** memchr: the position of the first separator, or the length. */
  function FirstSep(k: bytes): (n: nat)
    ensures n <= |k| && (n < |k| ==> k[n] == SEP)
    ensures forall i :: 0 <= i < n ==> k[i] != SEP
  {
    if k == [] || k[0] == SEP then 0 else 1 + FirstSep(k[1..])
  }

  function SensorOf(k: bytes): Option<bytes> {
    if FirstSep(k) < |k| then Some(k[..FirstSep(k)]) else None
  }

  function BlockOf(k: bytes): i64
    requires |k| >= 8
  {
    PowerValues();
    Signed(FromBE(k[|k| - 8..]))
  }

  predicate IsBlockKey(k: bytes) {
    SensorOf(k).Some? && ValidId(SensorOf(k).value) && |k| == |SensorOf(k).value| + 9
  }

  /** A key determines its sensor and its block, so no two blocks share one. */
  lemma KeyParts(id: bytes, block: i64)
    requires ValidId(id)
    ensures SensorOf(Key(id, block)) == Some(id) && BlockOf(Key(id, block)) == block
    ensures IsBlockKey(Key(id, block)) && Key(id, block) != META_KEY
  {
    var k := Key(id, block);
    assert k[|id|] == SEP;
    assert forall i :: 0 <= i < |id| ==> k[i] == id[i];
    assert k[..|id|] == id;
    assert k[|k| - 8..] == BE(Unsigned(block), 8);
    PowerValues();
    BERoundTrip(Unsigned(block), 8);
  }

  lemma KeyOfParts(k: bytes)
    requires IsBlockKey(k)
    ensures k == Key(SensorOf(k).value, BlockOf(k))
  {
    var n := FirstSep(k);
    PowerValues();
    FromBERoundTrip(k[|k| - 8..]);
    assert k == k[..n] + ([k[n]] + k[n + 1..]);
  }

  // ---- Order ----

  /** Blocks of one sensor sort by id; a negative id would sort after every non-negative one. */
  lemma SameSensorOrder(id: bytes, a: i64, b: i64)
    ensures Less(Key(id, a), Key(id, b)) <==> Unsigned(a) < Unsigned(b)
  {
    PowerValues();
    LessCommonPrefix(id, [SEP] + BE(Unsigned(a), 8), [SEP] + BE(Unsigned(b), 8));
    LessCommonPrefix([SEP], BE(Unsigned(a), 8), BE(Unsigned(b), 8));
    BEOrder(Unsigned(a), Unsigned(b), 8);
  }

  lemma {:induction false} SeparatedOrder(p: bytes, q: bytes, x: bytes, y: bytes)
    requires forall i :: 0 <= i < |p| ==> p[i] > SEP
    requires forall i :: 0 <= i < |q| ==> q[i] > SEP
    requires p != q
    ensures Less(p + ([SEP] + x), q + ([SEP] + y)) <==> Less(p, q)
  {
    var a, b := p + ([SEP] + x), q + ([SEP] + y);
    if p != [] && q != [] && p[0] == q[0] {
      assert p == [p[0]] + p[1..] && q == [q[0]] + q[1..];
      SeparatedOrder(p[1..], q[1..], x, y);
      assert a[1..] == p[1..] + ([SEP] + x) && b[1..] == q[1..] + ([SEP] + y);
    }
  }

  /** Keys of different sensors sort as the sensors do, even when one id is a prefix of the other. */
  lemma AcrossSensorsOrder(id: bytes, a: i64, id': bytes, b: i64)
    requires ValidId(id) && ValidId(id') && id != id'
    ensures Less(Key(id, a), Key(id', b)) <==> Less(id, id')
  {
    SeparatedOrder(id, id', BE(Unsigned(a), 8), BE(Unsigned(b), 8));
  }

  // ---- The range of one sensor ----

  /** [p+01, p+02) holds exactly the strings that start with p+01. */
  lemma {:induction false} PrefixRange(p: bytes, k: bytes)
    ensures Within(k, RangeBegin(p), RangeEnd(p)) <==> RangeBegin(p) <= k
  {
    if p == [] {
      assert k != [] ==> k[..1] == [k[0]];
      assert !Less(k, [SEP]) && Less(k, [SEP + 1]) <==> k != [] && k[0] == SEP;
    } else if k != [] && k[0] == p[0] {
      PrefixRange(p[1..], k[1..]);
      assert RangeBegin(p)[1..] == RangeBegin(p[1..]) && RangeEnd(p)[1..] == RangeEnd(p[1..]);
      assert RangeBegin(p) == [p[0]] + RangeBegin(p[1..]) && k == [k[0]] + k[1..];
    }
  }

  /** So the deletion range of a sensor meets no other sensor's keys, whatever bytes the block ids hold. */
  lemma RangeIsOneSensor(id: bytes, k: bytes)
    requires ValidId(id) && (IsBlockKey(k) || k == META_KEY)
    ensures Within(k, RangeBegin(id), RangeEnd(id)) <==> IsBlockKey(k) && SensorOf(k) == Some(id)
  {
    PrefixRange(id, k);
    var n := FirstSep(k);
    if IsBlockKey(k) && k[..n] == id {
      assert k[..n + 1] == RangeBegin(id);
    }
    if RangeBegin(id) <= k {
      assert k[|id|] == SEP;
      assert forall i :: 0 <= i < |id| ==> k[i] == id[i];
      assert n == |id| && k[..n] == id;
    }
  }
}
