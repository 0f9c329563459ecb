/** Bytes, fixed-width integer encodings, and the bytewise order of keys. */
module Bytes {
  type byte = x: int | 0 <= x < 256
  type bytes = seq<byte>
  type u32 = x: int | 0 <= x < 0x1_0000_0000
  type u64 = x: int | 0 <= x < 0x1_0000_0000_0000_0000
  type i64 = x: int | -0x8000_0000_0000_0000 <= x < 0x8000_0000_0000_0000

  function Pow256(n: nat): (p: nat)
    ensures p > 0
  {
    if n == 0 then 1 else 256 * Pow256(n - 1)
  }

  lemma PowerValues()
    ensures Pow256(2) == 0x1_0000 && Pow256(4) == 0x1_0000_0000 && Pow256(8) == 0x1_0000_0000_0000_0000
  {
    assert Pow256(2) == 0x1_0000;
    assert Pow256(4) == 0x1_0000_0000;
    assert Pow256(6) == 0x1_0000_0000_0000;
  }

  /** The n low-order bytes of v, least significant first. */
  function LE(v: nat, n: nat): (b: bytes)
    ensures |b| == n
  {
    if n == 0 then [] else [v % 256] + LE(v / 256, n - 1)
  }

  function FromLE(b: bytes): (v: nat)
    ensures v < Pow256(|b|)
  {
    if b == [] then 0 else b[0] + 256 * FromLE(b[1..])
  }

  lemma {:induction false} LERoundTrip(v: nat, n: nat)
    requires v < Pow256(n)
    ensures FromLE(LE(v, n)) == v
  {
    if n == 0 {
    } else {
      LERoundTrip(v / 256, n - 1);
      assert LE(v, n)[1..] == LE(v / 256, n - 1);
    }
  }

  lemma {:induction false} FromLERoundTrip(b: bytes)
    ensures LE(FromLE(b), |b|) == b
  {
    if b == [] {
    } else {
      FromLERoundTrip(b[1..]);
      assert FromLE(b) / 256 == FromLE(b[1..]);
    }
  }

  /** The n low-order bytes of v, most significant first. */
  function BE(v: nat, n: nat): (b: bytes)
    ensures |b| == n
  {
    if n == 0 then [] else BE(v / 256, n - 1) + [v % 256]
  }

  function FromBE(b: bytes): (v: nat)
    ensures v < Pow256(|b|)
  {
    if b == [] then 0 else 256 * FromBE(b[..|b| - 1]) + b[|b| - 1]
  }

  lemma {:induction false} BERoundTrip(v: nat, n: nat)
    requires v < Pow256(n)
    ensures FromBE(BE(v, n)) == v
  {
    if n == 0 {
    } else {
      BERoundTrip(v / 256, n - 1);
      assert BE(v, n)[..n - 1] == BE(v / 256, n - 1);
    }
  }

  lemma {:induction false} FromBERoundTrip(b: bytes)
    ensures BE(FromBE(b), |b|) == b
  {
    if b == [] {
    } else {
      var n := |b| - 1;
      FromBERoundTrip(b[..n]);
      assert FromBE(b) / 256 == FromBE(b[..n]);
      assert b == b[..n] + [b[n]];
    }
  }

  /** Two's complement. */
  function Unsigned(v: i64): u64 {
    if v < 0 then v + 0x1_0000_0000_0000_0000 else v
  }

  function Signed(v: u64): i64 {
    if v < 0x8000_0000_0000_0000 then v else v - 0x1_0000_0000_0000_0000
  }

  function Put16(v: nat): (b: bytes)
    ensures |b| == 2
  {
    LE(v, 2)
  }

  function Put32(v: u32): (b: bytes)
    ensures |b| == 4
  {
    LE(v, 4)
  }

  function Put64(v: i64): (b: bytes)
    ensures |b| == 8
  {
    LE(Unsigned(v), 8)
  }

  /** Byte k of a buffer as a digit in base 256. */
  function Digit(b: bytes, k: nat, scale: nat): int
    requires k < |b|
  {
    scale * (b[k] as int)
  }

  function Get16(b: bytes): (v: nat)
    requires |b| == 2
    ensures v < 0x1_0000
  {
    Digit(b, 0, 1) + Digit(b, 1, 0x100)
  }

  function Get32(b: bytes): u32
    requires |b| == 4
  {
    Digit(b, 0, 1) + Digit(b, 1, 0x100) + Digit(b, 2, 0x1_0000) + Digit(b, 3, 0x100_0000)
  }

  function GetU64(b: bytes): u64
    requires |b| == 8
  {
    Digit(b, 0, 1) + Digit(b, 1, 0x100) + Digit(b, 2, 0x1_0000) + Digit(b, 3, 0x100_0000)
    + Digit(b, 4, 0x1_0000_0000) + Digit(b, 5, 0x100_0000_0000)
    + Digit(b, 6, 0x1_0000_0000_0000) + Digit(b, 7, 0x100_0000_0000_0000)
  }

  function Get64(b: bytes): i64
    requires |b| == 8
  {
    Signed(GetU64(b))
  }

  lemma FromLEStep(b: bytes, k: nat)
    requires k < |b|
    ensures FromLE(b[k..]) == b[k] as int + 256 * FromLE(b[k + 1..])
  {
    assert b[k..][1..] == b[k + 1..];
  }

  lemma FromLETwo(b: bytes)
    requires |b| == 2
    ensures FromLE(b) == Get16(b)
  {
    FromLEStep(b, 0);
    FromLEStep(b, 1);
    assert b[0..] == b && b[2..] == [];
  }

  lemma FromLEFour(b: bytes)
    requires |b| == 4
    ensures FromLE(b) == Get32(b)
  {
    FromLEStep(b, 0);
    FromLEStep(b, 1);
    FromLEStep(b, 2);
    FromLEStep(b, 3);
    assert b[0..] == b && b[4..] == [];
  }

  lemma FromLEEight(b: bytes)
    requires |b| == 8
    ensures FromLE(b) == GetU64(b)
  {
    FromLEFour(b[4..]);
    FromLEStep(b, 0);
    FromLEStep(b, 1);
    FromLEStep(b, 2);
    FromLEStep(b, 3);
    assert b[0..] == b;
  }

  lemma FixedWidthRoundTrip(h: nat, w: u32, t: i64)
    requires h < 0x1_0000
    ensures Get16(Put16(h)) == h && Get32(Put32(w)) == w && Get64(Put64(t)) == t
  {
    PowerValues();
    LERoundTrip(h, 2);
    LERoundTrip(w, 4);
    LERoundTrip(Unsigned(t), 8);
    FromLETwo(Put16(h));
    FromLEFour(Put32(w));
    FromLEEight(Put64(t));
  }

  lemma GetPut16(b: bytes)
    requires |b| == 2
    ensures Put16(Get16(b)) == b
  {
    FromLERoundTrip(b);
    FromLETwo(b);
  }

  lemma GetPut32(b: bytes)
    requires |b| == 4
    ensures Put32(Get32(b)) == b
  {
    FromLERoundTrip(b);
    FromLEFour(b);
  }

  lemma GetPut64(b: bytes)
    requires |b| == 8
    ensures Put64(Get64(b)) == b
  {
    FromLERoundTrip(b);
    FromLEEight(b);
  }

  /** memcmp order with a proper prefix first: the order of keys in the store. */
  predicate Less(a: bytes, b: bytes) {
    b != [] && (a == [] || a[0] < b[0] || (a[0] == b[0] && Less(a[1..], b[1..])))
  }

  lemma {:induction false} LessIrreflexive(a: bytes)
    ensures !Less(a, a)
  {
    if a == [] {
    } else {
      LessIrreflexive(a[1..]);
    }
  }

  lemma {:induction false} LessTransitive(a: bytes, b: bytes, c: bytes)
    requires Less(a, b) && Less(b, c)
    ensures Less(a, c)
  {
    if a != [] && a[0] == b[0] == c[0] {
      LessTransitive(a[1..], b[1..], c[1..]);
    }
  }

  lemma {:induction false} LessTotal(a: bytes, b: bytes)
    ensures Less(a, b) || a == b || Less(b, a)
  {
    if a != [] && b != [] && a[0] == b[0] {
      LessTotal(a[1..], b[1..]);
      if a[1..] == b[1..] {
        assert a == [a[0]] + a[1..] && b == [b[0]] + b[1..];
      }
    }
  }

  lemma {:induction false} LessCommonPrefix(p: bytes, a: bytes, b: bytes)
    ensures Less(p + a, p + b) <==> Less(a, b)
  {
    if p == [] {
      assert p + a == a && p + b == b;
    } else {
      LessCommonPrefix(p[1..], a, b);
      assert (p + a)[1..] == p[1..] + a && (p + b)[1..] == p[1..] + b;
    }
  }

  lemma {:induction false} LessSameLength(a: bytes, b: bytes, x: byte, y: byte)
    requires |a| == |b|
    ensures Less(a + [x], b + [y]) <==> Less(a, b) || (a == b && x < y)
  {
    if a == [] {
      assert a + [x] == [x] && b + [y] == [y];
    } else {
      LessSameLength(a[1..], b[1..], x, y);
      assert (a + [x])[1..] == a[1..] + [x] && (b + [y])[1..] == b[1..] + [y];
      if a[0] == b[0] {
        assert a == b <==> a[1..] == b[1..] by {
          assert a == [a[0]] + a[1..] && b == [b[0]] + b[1..];
        }
      }
    }
  }

  /** Big-endian bytes compare the way the numbers do. */
  lemma {:induction false} BEOrder(v: nat, w: nat, n: nat)
    requires v < Pow256(n) && w < Pow256(n)
    ensures Less(BE(v, n), BE(w, n)) <==> v < w
    ensures BE(v, n) == BE(w, n) <==> v == w
  {
    if n == 0 {
    } else {
      BEOrder(v / 256, w / 256, n - 1);
      LessSameLength(BE(v / 256, n - 1), BE(w / 256, n - 1), v % 256, w % 256);
      BERoundTrip(v, n);
      BERoundTrip(w, n);
    }
  }
}
