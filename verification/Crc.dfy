/** CRC-32 (section 8 of RFC 1952): the bit-serial register, the table that replaces it, and what it detects. */
module Crc {
  import opened Bytes

  /** Equality as a whole. Stated through a type parameter, so that words are not compared bit by bit. */
  predicate Same<T(==)>(a: T, b: T) {
    a == b
  }

  // ---- 32-bit words as bits, least significant first ----

  type word = w: seq<bool> | |w| == 32 witness seq(32, i => false)

  function Pow2(n: nat): (p: nat)
    ensures p > 0
  {
    if n == 0 then 1 else 2 * Pow2(n - 1)
  }

  lemma Pow2Of8()
    ensures Pow2(8) == 256
  {
    assert Pow2(4) == 16;
  }

  /** The n low-order bits of v. */
  function Bits(v: nat, n: nat): (s: seq<bool>)
    ensures |s| == n
    decreases n, v
  {
    if n == 0 then [] else [v % 2 == 1] + Bits(v / 2, n - 1)
  }

  function Number(s: seq<bool>): (v: nat)
    ensures v < Pow2(|s|)
  {
    if s == [] then 0 else (if s[0] then 1 else 0) + 2 * Number(s[1..])
  }

  lemma {:induction false} BitsNumber(s: seq<bool>)
    ensures Bits(Number(s), |s|) == s
  {
    if s == [] {
    } else {
      BitsNumber(s[1..]);
      assert Number(s) / 2 == Number(s[1..]);
    }
  }

  lemma {:induction false} NumberBits(v: nat, n: nat)
    requires v < Pow2(n)
    ensures Number(Bits(v, n)) == v
    decreases n
  {
    if n == 0 {
    } else {
      NumberBits(v / 2, n - 1);
      assert Bits(v, n)[1..] == Bits(v / 2, n - 1);
    }
  }

  /** Zero extension of a byte. */
  function Widen(b: byte): (w: word)
    ensures w[..8] == Bits(b, 8)
  {
    Bits(b, 8) + Zeros(24)
  }

  /** w & 0xFF as a byte. */
  function LowByte(w: seq<bool>): byte
    requires |w| >= 8
  {
    Pow2Of8();
    Number(w[..8])
  }

  lemma WidenLow(w: seq<bool>)
    requires |w| >= 8
    ensures Widen(LowByte(w))[..8] == w[..8]
  {
    BitsNumber(w[..8]);
  }

  function Zip(a: seq<bool>, b: seq<bool>): (c: seq<bool>)
    requires |a| == |b|
    ensures |c| == |a|
  {
    if a == [] then [] else [a[0] != b[0]] + Zip(a[1..], b[1..])
  }

  function Zeros(n: nat): (z: seq<bool>)
    ensures |z| == n
  {
    if n == 0 then [] else [false] + Zeros(n - 1)
  }

  function Xor(a: word, b: word): word {
    Zip(a, b)
  }

  function Shr(a: word, n: nat): word
    requires n <= 32
  {
    a[n..] + Zeros(n)
  }

  function Shl(a: word, n: nat): word
    requires n <= 32
  {
    Zeros(n) + a[..32 - n]
  }

  /** 0 and 0xFFFFFFFF. */
  function Zero(): word {
    Zeros(32)
  }

  function Ones(): word {
    seq(32, i => true)
  }

  // Bit by bit.

  lemma {:induction false} ZipAt(a: seq<bool>, b: seq<bool>, i: nat)
    requires |a| == |b| && i < |a|
    ensures Zip(a, b)[i] == (a[i] != b[i])
  {
    if i == 0 {
    } else {
      ZipAt(a[1..], b[1..], i - 1);
    }
  }

  lemma {:induction false} ZerosAt(n: nat, i: nat)
    requires i < n
    ensures !Zeros(n)[i]
  {
    if i == 0 {
    } else {
      ZerosAt(n - 1, i - 1);
    }
  }

  lemma XorBits(a: word, b: word)
    ensures forall i :: 0 <= i < 32 ==> Xor(a, b)[i] == (a[i] != b[i])
  {
    forall i | 0 <= i < 32 ensures Xor(a, b)[i] == (a[i] != b[i]) {
      ZipAt(a, b, i);
    }
  }

  lemma ShiftBits(a: word, n: nat)
    requires n <= 32
    ensures forall i :: 0 <= i < 32 ==> Shr(a, n)[i] == (i + n < 32 && a[i + n])
    ensures forall i :: 0 <= i < 32 ==> Shl(a, n)[i] == (i >= n && a[i - n])
  {
    forall i | 0 <= i < n ensures !Zeros(n)[i] {
      ZerosAt(n, i);
    }
  }

  lemma ZeroBits()
    ensures forall i :: 0 <= i < 32 ==> !Zero()[i]
  {
    forall i | 0 <= i < 32 ensures !Zero()[i] {
      ZerosAt(32, i);
    }
  }

  lemma XorCancel(r: word, x: word, y: word)
    ensures Xor(r, x) == Xor(r, y) <==> x == y
    ensures Xor(r, x) == y <==> x == Xor(r, y)
    ensures Xor(x, r) == Xor(r, x)
  {
    XorBits(r, x);
    XorBits(r, y);
    XorBits(x, r);
    assert Xor(x, r) == Xor(r, x);
    if Xor(r, x) == Xor(r, y) {
      forall i | 0 <= i < 32 ensures x[i] == y[i] {
        assert Xor(r, x)[i] == Xor(r, y)[i];
      }
    }
    if Xor(r, x) == y {
      assert x == Xor(r, y);
    }
    if x == Xor(r, y) {
      assert Xor(r, x) == y;
    }
  }

  lemma XorAssociative(a: word, b: word, c: word)
    ensures Xor(Xor(a, b), c) == Xor(a, Xor(b, c))
  {
    XorBits(a, b);
    XorBits(Xor(a, b), c);
    XorBits(b, c);
    XorBits(a, Xor(b, c));
  }

  // ---- The register ----

  /** Whether x^e is a term of the generator, for e < 32. */
  predicate Term(e: int) {
    e == 0 || e == 1 || e == 2 || e == 4 || e == 5 || e == 7 || e == 8 || e == 10
    || e == 11 || e == 12 || e == 16 || e == 22 || e == 23 || e == 26
  }

  /** The generator in reflected form: bit i is the term of exponent 31 - i. */
  function Polynomial(): (p: word)
    ensures p[31]
  {
    seq(32, i => Term(31 - i))
  }

  lemma Nibble(s: seq<bool>, d: nat)
    requires |s| >= 4 && d == (if s[0] then 1 else 0) + (if s[1] then 2 else 0) + (if s[2] then 4 else 0) + (if s[3] then 8 else 0)
    ensures Number(s) == d + 16 * Number(s[4..])
  {
    assert s[1..][1..] == s[2..] && s[2..][1..] == s[3..] && s[3..][1..] == s[4..];
    assert Number(s[1..]) == (if s[1] then 1 else 0) + 2 * Number(s[2..]);
    assert Number(s[2..]) == (if s[2] then 1 else 0) + 2 * Number(s[3..]);
  }

  lemma TwoNibbles(s: seq<bool>, d: nat, e: nat)
    requires |s| >= 8
    requires d == (if s[0] then 1 else 0) + (if s[1] then 2 else 0) + (if s[2] then 4 else 0) + (if s[3] then 8 else 0)
    requires e == (if s[4] then 1 else 0) + (if s[5] then 2 else 0) + (if s[6] then 4 else 0) + (if s[7] then 8 else 0)
    ensures Number(s) == d + 16 * e + 256 * Number(s[8..])
  {
    assert s[4..][4..] == s[8..];
    Nibble(s, d);
    Nibble(s[4..], e);
  }

  lemma PolynomialHigh(g: word)
    requires g == Polynomial()
    ensures Number(g[16..]) == 0xEDB8
  {
    var p := g[16..];
    assert p[8..][8..] == [];
    TwoNibbles(p[8..], 0xD, 0xE);
    TwoNibbles(p, 0x8, 0xB);
  }

  lemma PolynomialMiddle(g: word)
    requires g == Polynomial()
    ensures Number(g[8..]) == 0xED_B883
  {
    assert g[8..][8..] == g[16..];
    PolynomialHigh(g);
    TwoNibbles(g[8..], 0x3, 0x8);
  }

  /** The generator is the constant in the code. */
  lemma PolynomialConstant(g: word)
    requires g == Polynomial()
    ensures Number(g) == 0xEDB8_8320
  {
    PolynomialMiddle(g);
    TwoNibbles(g, 0x0, 0x2);
  }

  /** One bit: shift right, and subtract the polynomial when a one falls out. */
  function Step(c: word): word {
    if c[0] then Xor(Polynomial(), Shr(c, 1)) else Shr(c, 1)
  }

  function Steps(c: word, n: nat): word
    decreases n, c
  {
    if n == 0 then c else Steps(Step(c), n - 1)
  }

  /** The register after one message byte, one bit at a time. */
  function ByteStep(c: word, b: byte): word {
    Steps(Xor(c, Widen(b)), 8)
  }

  function Register(c: word, data: bytes): word {
    if data == [] then c else ByteStep(Register(c, data[..|data| - 1]), data[|data| - 1])
  }

  function Crc32(data: bytes): word {
    Xor(Register(Ones(), data), Ones())
  }

  // ---- Injectivity ----

  /** The polynomial's top bit records which branch a step took, so a step loses nothing. */
  lemma StepBits(c: word)
    ensures forall i :: 0 <= i < 32 ==> Step(c)[i] == ((i < 31 && c[i + 1]) != (c[0] && Polynomial()[i]))
  {
    ShiftBits(c, 1);
    XorBits(Polynomial(), Shr(c, 1));
  }

  lemma StepInjective(a: word, b: word)
    requires Step(a) == Step(b)
    ensures Same(a, b)
  {
    StepBits(a);
    StepBits(b);
    assert Step(a)[31] == a[0] && Step(b)[31] == b[0];
    forall i | 0 < i < 32 ensures a[i] == b[i] {
      assert Step(a)[i - 1] == Step(b)[i - 1];
    }
    assert a == b;
  }

  lemma {:induction false} StepsInjective(a: word, b: word, n: nat)
    requires Steps(a, n) == Steps(b, n)
    ensures Same(a, b)
    decreases n
  {
    if n == 0 {
    } else {
      StepsInjective(Step(a), Step(b), n - 1);
      StepInjective(a, b);
    }
  }

  lemma {:induction false} StepsAdd(c: word, m: nat, n: nat)
    ensures Same(Steps(Steps(c, m), n), Steps(c, m + n))
    decreases m
  {
    if m == 0 {
    } else {
      StepsAdd(Step(c), m - 1, n);
    }
  }

  lemma {:induction false} RegisterInjective(a: word, b: word, data: bytes)
    requires Register(a, data) == Register(b, data)
    ensures Same(a, b)
  {
    if data == [] {
    } else {
      var init, last := data[..|data| - 1], Widen(data[|data| - 1]);
      StepsInjective(Xor(Register(a, init), last), Xor(Register(b, init), last), 8);
      XorCancel(last, Register(a, init), Register(b, init));
      XorCancel(last, Register(b, init), last);
      RegisterInjective(a, b, init);
    }
  }

  lemma {:induction false} RegisterConcat(c: word, p: bytes, s: bytes)
    ensures Same(Register(c, p + s), Register(Register(c, p), s))
  {
    if s == [] {
      assert p + s == p;
    } else {
      RegisterConcat(c, p, s[..|s| - 1]);
      assert (p + s)[..|p + s| - 1] == p + s[..|s| - 1];
    }
  }

  // ---- Slicing: bits not yet reached pass through the steps unchanged ----

  lemma StepCarries(u: word, v: word)
    requires !v[31]
    ensures Step(Xor(u, Shl(v, 1))) == Xor(Step(u), v)
  {
    var x := Xor(u, Shl(v, 1));
    ShiftBits(v, 1);
    XorBits(u, Shl(v, 1));
    StepBits(x);
    StepBits(u);
    XorBits(Step(u), v);
    assert x[0] == u[0];
    forall i | 0 <= i < 32 ensures Step(x)[i] == Xor(Step(u), v)[i] {
      assert i < 31 ==> x[i + 1] == (u[i + 1] != v[i]);
    }
  }

  lemma ShlOneMore(v: word, n: nat)
    requires n < 32
    ensures Shl(v, n + 1) == Shl(Shl(v, n), 1) && Shl(v, n)[31] == v[31 - n]
  {
    ShiftBits(v, n);
    ShiftBits(v, n + 1);
    ShiftBits(Shl(v, n), 1);
  }

  lemma {:induction false} StepsCarry(u: word, v: word, n: nat)
    requires n <= 32 && forall i :: 32 - n <= i < 32 ==> !v[i]
    ensures Same(Steps(Xor(u, Shl(v, n)), n), Xor(Steps(u, n), v))
    decreases n
  {
    if n == 0 {
      assert Shl(v, 0) == v;
    } else {
      ShlOneMore(v, n - 1);
      StepCarries(u, Shl(v, n - 1));
      StepsCarry(Step(u), v, n - 1);
    }
  }

  lemma SplitLowByte(x: word, c: word, b: byte)
    requires x == Xor(c, Widen(b))
    ensures x == Xor(Widen(LowByte(x)), Shl(Shr(c, 8), 8))
    ensures forall i :: 24 <= i < 32 ==> !Shr(c, 8)[i]
  {
    var low, high := Widen(LowByte(x)), Shl(Shr(c, 8), 8);
    WidenLow(x);
    XorBits(c, Widen(b));
    XorBits(low, high);
    ShiftBits(c, 8);
    ShiftBits(Shr(c, 8), 8);
    forall i | 0 <= i < 32 ensures x[i] == Xor(low, high)[i] {
      if i < 8 {
        assert low[i] == low[..8][i] == x[..8][i];
      } else {
        ZerosAt(24, i - 8);
      }
    }
  }

  /** Replacing eight shift steps by one table lookup is exact. */
  lemma TableStep(c: word, b: byte)
    ensures Same(ByteStep(c, b), Xor(Steps(Widen(LowByte(Xor(c, Widen(b)))), 8), Shr(c, 8)))
  {
    var x := Xor(c, Widen(b));
    SplitLowByte(x, c, b);
    StepsCarry(Widen(LowByte(x)), Shr(c, 8), 8);
  }

  /** Up to four bytes as a little-endian word. */
  function Word(w: bytes): word
    requires |w| <= 4
  {
    if w == [] then Zero() else Xor(Word(w[..|w| - 1]), Shl(Widen(w[|w| - 1]), 8 * (|w| - 1)))
  }

  lemma ByteAbove(c: word, a: word, b: byte, n: nat)
    requires n <= 24
    ensures Same(ByteStep(Steps(Xor(c, a), n), b), Steps(Xor(c, Xor(a, Shl(Widen(b), n))), n + 8))
  {
    var last := Widen(b);
    forall i | 8 <= i < 32 ensures !last[i] {
      ZerosAt(24, i - 8);
    }
    StepsCarry(Xor(c, a), last, n);
    XorAssociative(c, a, Shl(last, n));
    StepsAdd(Xor(c, Xor(a, Shl(last, n))), n, 8);
  }

  /** Feeding up to four bytes is adding their word and then shifting it through. */
  lemma {:induction false} RegisterOfWord(c: word, w: bytes)
    requires |w| <= 4
    ensures Same(Register(c, w), Steps(Xor(c, Word(w)), 8 * |w|))
  {
    if w == [] {
      ZeroBits();
      XorBits(c, Zero());
      assert Xor(c, Zero()) == c;
    } else {
      var init, last := w[..|w| - 1], w[|w| - 1];
      RegisterOfWord(c, init);
      ByteAbove(c, Word(init), last, 8 * |init|);
      assert Same(Register(c, w), ByteStep(Register(c, init), last));
      assert Same(Word(w), Xor(Word(init), Shl(Widen(last), 8 * |init|)));
    }
  }

  function BitString(w: bytes): (s: seq<bool>)
    ensures |s| == 8 * |w|
  {
    if w == [] then [] else BitString(w[..|w| - 1]) + Bits(w[|w| - 1], 8)
  }

  lemma {:induction false} WordBits(w: bytes)
    requires |w| <= 4
    ensures Word(w)[..8 * |w|] == BitString(w)
    ensures forall i :: 8 * |w| <= i < 32 ==> !Word(w)[i]
  {
    ZeroBits();
    if w == [] {
    } else {
      var init, last := w[..|w| - 1], w[|w| - 1];
      var n := 8 * |init|;
      WordBits(init);
      ShiftBits(Widen(last), n);
      XorBits(Word(init), Shl(Widen(last), n));
      forall i | 8 <= i < 32 ensures !Widen(last)[i] {
        ZerosAt(24, i - 8);
      }
      forall i | 0 <= i < n + 8 ensures Word(w)[i] == (BitString(init) + Bits(last, 8))[i] {
        if i < n {
          assert Word(init)[i] == Word(init)[..n][i];
        } else {
          assert Widen(last)[i - n] == Widen(last)[..8][i - n];
        }
      }
    }
  }

  lemma BitStringFour(w: bytes)
    requires |w| == 4
    ensures BitString(w) == Bits(w[0], 8) + Bits(w[1], 8) + Bits(w[2], 8) + Bits(w[3], 8)
  {
    assert w[..3][..2] == w[..2] && w[..2][..1] == w[..1] && w[..1][..0] == [];
    assert BitString(w[..1]) == Bits(w[0], 8);
    assert BitString(w[..2]) == BitString(w[..1]) + Bits(w[1], 8);
    assert BitString(w[..3]) == BitString(w[..2]) + Bits(w[2], 8);
  }

  function WordBytes(c: word): (w: bytes)
    ensures |w| == 4
  {
    [LowByte(c), LowByte(c[8..]), LowByte(c[16..]), LowByte(c[24..])]
  }

  lemma LowByteOf(s: seq<bool>, b: byte)
    requires |s| >= 8 && s[..8] == Bits(b, 8)
    ensures LowByte(s) == b
  {
    Pow2Of8();
    NumberBits(b, 8);
  }

  lemma WordFields(w: bytes)
    requires |w| == 4
    ensures Word(w)[..8] == Bits(w[0], 8) && Word(w)[8..][..8] == Bits(w[1], 8)
    ensures Word(w)[16..][..8] == Bits(w[2], 8) && Word(w)[24..][..8] == Bits(w[3], 8)
  {
    WordBits(w);
    BitStringFour(w);
    assert Word(w) == Word(w)[..32];
  }

  lemma WordInverse(w: bytes)
    requires |w| == 4
    ensures WordBytes(Word(w)) == w
  {
    var c := Word(w);
    WordFields(w);
    LowByteOf(c, w[0]);
    LowByteOf(c[8..], w[1]);
    LowByteOf(c[16..], w[2]);
    LowByteOf(c[24..], w[3]);
  }

  lemma WordBytesInverse(c: word)
    ensures Word(WordBytes(c)) == c
  {
    var w := WordBytes(c);
    WordBits(w);
    BitStringFour(w);
    BitsNumber(c[..8]);
    BitsNumber(c[8..][..8]);
    BitsNumber(c[16..][..8]);
    BitsNumber(c[24..][..8]);
    assert Word(w)[..32] == Word(w);
    assert c == c[..8] + c[8..][..8] + c[16..][..8] + c[24..][..8];
  }

  // ---- What the checksum detects ----

  /** A message followed by its right checksum leaves one register value, whatever the message. */
  lemma ChecksumIffResidue(init: word, mask: word, body: bytes, stored: bytes)
    requires |stored| == 4
    ensures Same(Register(init, body + stored), Steps(mask, 32)) <==> Same(Word(stored), Xor(Register(init, body), mask))
  {
    var c := Register(init, body);
    RegisterConcat(init, body, stored);
    RegisterOfWord(c, stored);
    XorCancel(c, Word(stored), mask);
    if Same(Steps(Xor(c, Word(stored)), 32), Steps(mask, 32)) {
      StepsInjective(Xor(c, Word(stored)), mask, 32);
    }
  }

  /** Two messages that differ in one window of four bytes never leave the same register. */
  lemma BurstDetected(c: word, p: bytes, w: bytes, w': bytes, s: bytes)
    requires |w| == |w'| == 4 && w != w'
    ensures Register(c, p + w + s) != Register(c, p + w' + s)
  {
    if Register(c, p + w + s) == Register(c, p + w' + s) {
      var r := Register(c, p);
      RegisterConcat(c, p, w);
      RegisterConcat(c, p, w');
      RegisterConcat(c, p + w, s);
      RegisterConcat(c, p + w', s);
      RegisterInjective(Register(r, w), Register(r, w'), s);
      RegisterOfWord(r, w);
      RegisterOfWord(r, w');
      StepsInjective(Xor(r, Word(w)), Xor(r, Word(w')), 32);
      XorCancel(r, Word(w), Word(w'));
      WordInverse(w);
      WordInverse(w');
    }
  }

  /** The last four bytes are the checksum of the others. */
  predicate Checked(b: bytes)
    requires |b| >= 4
  {
    Same(Word(b[|b| - 4..]), Crc32(b[..|b| - 4]))
  }

  lemma CheckedIffResidue(init: word, mask: word, b: bytes)
    requires |b| >= 4
    ensures Same(Word(b[|b| - 4..]), Xor(Register(init, b[..|b| - 4]), mask)) <==> Same(Register(init, b), Steps(mask, 32))
  {
    var body, stored := b[..|b| - 4], b[|b| - 4..];
    ChecksumIffResidue(init, mask, body, stored);
    JoinAt(b, |b| - 4);
    assert Same(Register(init, b), Register(init, body + stored));
  }

  lemma JoinAt(b: bytes, k: nat)
    requires k <= |b|
    ensures Same(b, b[..k] + b[k..])
  {
    assert b == b[..k] + b[k..];
  }

  lemma BurstBreaksResidue(init: word, mask: word, p: bytes, w: bytes, w': bytes, s: bytes)
    requires |w| == |w'| == 4 && w != w'
    requires var b := p + w + s; Same(Word(b[|b| - 4..]), Xor(Register(init, b[..|b| - 4]), mask))
    ensures var d := p + w' + s; !Same(Word(d[|d| - 4..]), Xor(Register(init, d[..|d| - 4]), mask))
  {
    CheckedIffResidue(init, mask, p + w + s);
    CheckedIffResidue(init, mask, p + w' + s);
    BurstDetected(init, p, w, w', s);
  }

  /** No change confined to four consecutive bytes, checksum bytes included, leaves a message checked. */
  lemma BurstBreaksChecksum(p: bytes, w: bytes, w': bytes, s: bytes)
    requires |w| == |w'| == 4 && w != w'
    requires Checked(p + w + s)
    ensures !Checked(p + w' + s)
  {
    BurstBreaksResidue(Ones(), Ones(), p, w, w', s);
  }

  // ---- The code: a table filled once, one lookup per byte ----

  class Crc32Table {
    const t: array<word>

    ghost predicate Valid()
      reads t
    {
      t.Length == 256 && forall i: byte :: Same(t[i], Steps(Widen(i), 8))
    }

    constructor ()
      ensures Valid() && fresh(t)
    {
      t := new word[256](i => Zero());
      new;
      for i := 0 to 256
        invariant forall j: byte :: j < i ==> Same(t[j], Steps(Widen(j), 8))
      {
        var entry := Entry(i);
        t[i] := entry;
      }
    }
  }

  method Entry(i: byte) returns (c: word)
    ensures Same(c, Steps(Widen(i), 8))
  {
    c := Widen(i);
    ghost var target := Steps(c, 8);
    var k := 8;
    while k > 0
      invariant k >= 0 && Same(Steps(c, k), target)
    {
      StepsNext(c, k);
      c, k := Step(c), k - 1;
    }
  }

  lemma StepsNext(c: word, n: nat)
    requires n > 0
    ensures Same(Steps(c, n), Steps(Step(c), n - 1))
  {
  }

  lemma RegisterNext(c: word, data: bytes, i: nat)
    requires i < |data|
    ensures Same(Register(c, data[..i + 1]), ByteStep(Register(c, data[..i]), data[i]))
  {
    assert data[..i + 1][..i] == data[..i];
  }

  method Crc32Ieee(table: Crc32Table, data: bytes) returns (crc: word)
    requires table.Valid()
    ensures Same(crc, Crc32(data))
  {
    var c := Ones();
    for i := 0 to |data|
      invariant Same(c, Register(Ones(), data[..i]))
    {
      TableStep(c, data[i]);
      RegisterNext(Ones(), data, i);
      c := Xor(table.t[LowByte(Xor(c, Widen(data[i])))], Shr(c, 8));
    }
    assert data[..|data|] == data;
    crc := Xor(c, Ones());
  }
}
