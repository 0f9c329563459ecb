/** The checksum against bursts at any bit offset: the register taken one message bit at a time. */
module CrcBursts {
  import opened Bytes
  import opened Crc
  import opened BlockCodec

  /** Up to 32 message bits as a word, first bit lowest. */
  function Pad(bits: seq<bool>): (w: word)
    requires |bits| <= 32
  {
    bits + Zeros(32 - |bits|)
  }

  /** The register after message bits, one at a time; within a byte the low bit comes first. */
  function BitRegister(c: word, bits: seq<bool>): word {
    if bits == [] then c
    else
      var n := |bits| - 1;
      Step(Xor(BitRegister(c, bits[..n]), Pad([bits[n]])))
  }

  lemma PadBits(bits: seq<bool>)
    requires |bits| <= 32
    ensures forall i :: 0 <= i < 32 ==> Pad(bits)[i] == (i < |bits| && bits[i])
  {
    forall i | |bits| <= i < 32 ensures !Pad(bits)[i] {
      ZerosAt(32 - |bits|, i - |bits|);
    }
  }

  lemma PadNext(bits: seq<bool>)
    requires 0 < |bits| <= 32
    ensures Same(Pad(bits), Xor(Pad(bits[..|bits| - 1]), Shl(Pad([bits[|bits| - 1]]), |bits| - 1)))
  {
    var n := |bits| - 1;
    var last := Pad([bits[n]]);
    PadBits(bits);
    PadBits(bits[..n]);
    PadBits([bits[n]]);
    ShiftBits(last, n);
    XorBits(Pad(bits[..n]), Shl(last, n));
    assert Pad(bits) == Xor(Pad(bits[..n]), Shl(last, n));
  }

  lemma OneMoreStep(x: word, n: nat)
    ensures Same(Step(Steps(x, n)), Steps(x, n + 1))
  {
    StepsAdd(x, n, 1);
    assert Steps(Steps(x, n), 1) == Steps(Step(Steps(x, n)), 0);
  }

  lemma ShiftInOne(c: word, a: word, bit: bool, n: nat)
    requires n < 32
    ensures Same(Step(Xor(Steps(Xor(c, a), n), Pad([bit]))), Steps(Xor(c, Xor(a, Shl(Pad([bit]), n))), n + 1))
  {
    var last := Pad([bit]);
    PadBits([bit]);
    StepsCarry(Xor(c, a), last, n);
    XorAssociative(c, a, Shl(last, n));
    OneMoreStep(Xor(c, Xor(a, Shl(last, n))), n);
  }

  /** Feeding up to 32 bits is adding them as a word and then shifting it through. */
  lemma {:induction false} BitsAreWord(c: word, bits: seq<bool>)
    requires |bits| <= 32
    ensures Same(BitRegister(c, bits), Steps(Xor(c, Pad(bits)), |bits|))
    decreases |bits|
  {
    if bits == [] {
      PadBits([]);
      XorBits(c, Pad([]));
      assert Xor(c, Pad([])) == c;
    } else {
      var n := |bits| - 1;
      BitsAreWord(c, bits[..n]);
      PadNext(bits);
      ShiftInOne(c, Pad(bits[..n]), bits[n], n);
    }
  }

  lemma {:induction false} BitConcat(c: word, p: seq<bool>, s: seq<bool>)
    ensures Same(BitRegister(c, p + s), BitRegister(BitRegister(c, p), s))
    decreases |s|
  {
    if s == [] {
      assert p + s == p;
    } else {
      var n := |s| - 1;
      BitConcat(c, p, s[..n]);
      assert (p + s)[..|p + s| - 1] == p + s[..n];
    }
  }

  /** Bit by bit or byte by byte, the register is the same. */
  lemma {:induction false} RegisterIsBitwise(c: word, data: bytes)
    ensures Same(Register(c, data), BitRegister(c, BitString(data)))
  {
    if data == [] {
      assert BitString(data) == [];
    } else {
      var init, last := data[..|data| - 1], data[|data| - 1];
      RegisterIsBitwise(c, init);
      BitConcat(c, BitString(init), Bits(last, 8));
      BitsAreWord(Register(c, init), Bits(last, 8));
      assert Same(Pad(Bits(last, 8)), Widen(last));
    }
  }

  lemma {:induction false} BitsInjective(a: word, b: word, bits: seq<bool>)
    requires BitRegister(a, bits) == BitRegister(b, bits)
    ensures Same(a, b)
    decreases |bits|
  {
    if bits == [] {
      assert Same(a, b);
    } else {
      var n := |bits| - 1;
      var x, y, last := BitRegister(a, bits[..n]), BitRegister(b, bits[..n]), Pad([bits[n]]);
      StepInjective(Xor(x, last), Xor(y, last));
      XorCancel(last, x, y);
      XorCancel(last, y, last);
      BitsInjective(a, b, bits[..n]);
    }
  }

  lemma WindowInjective(r: word, w: seq<bool>, w': seq<bool>)
    requires |w| == |w'| <= 32 && BitRegister(r, w) == BitRegister(r, w')
    ensures Same(w, w')
  {
    BitsAreWord(r, w);
    BitsAreWord(r, w');
    StepsInjective(Xor(r, Pad(w)), Xor(r, Pad(w')), |w|);
    XorCancel(r, Pad(w), Pad(w'));
    assert Pad(w)[..|w|] == w && Pad(w')[..|w|] == w';
  }

  /** Bits that differ in one window of at most 32 never leave the same register. */
  lemma BitBurstDetected(c: word, p: seq<bool>, w: seq<bool>, w': seq<bool>, s: seq<bool>)
    requires |w| == |w'| <= 32 && w != w'
    ensures BitRegister(c, p + w + s) != BitRegister(c, p + w' + s)
  {
    if BitRegister(c, p + w + s) == BitRegister(c, p + w' + s) {
      var r := BitRegister(c, p);
      BitConcat(c, p, w);
      BitConcat(c, p, w');
      BitConcat(c, p + w, s);
      BitConcat(c, p + w', s);
      BitsInjective(BitRegister(r, w), BitRegister(r, w'), s);
      WindowInjective(r, w, w');
    }
  }

  // ---- Messages ----

  lemma {:induction false} BitStringInjective(b: bytes, d: bytes)
    requires |b| == |d| && BitString(b) == BitString(d)
    ensures Same(b, d)
  {
    hide Bits, Number;
    if b == [] {
      assert b == d;
    } else {
      var n := |b| - 1;
      var x, y := BitString(b[..n]), BitString(d[..n]);
      assert BitString(b)[..8 * n] == x && BitString(d)[..8 * n] == y;
      assert BitString(b)[8 * n..] == Bits(b[n], 8) && BitString(d)[8 * n..] == Bits(d[n], 8);
      BitStringInjective(b[..n], d[..n]);
      Pow2Of8();
      NumberBits(b[n], 8);
      NumberBits(d[n], 8);
      assert b == b[..n] + [b[n]] && d == d[..n] + [d[n]];
    }
  }

  /** Two messages that differ, and only within 32 consecutive bits from bit at on. */
  ghost predicate Burst(b: bytes, d: bytes, at: nat) {
    && |b| == |d| && b != d
    && forall i :: 0 <= i < 8 * |b| && !(at <= i < at + 32) ==> BitString(d)[i] == BitString(b)[i]
  }

  lemma CutBurst(x: seq<bool>, y: seq<bool>, at: nat) returns (p: seq<bool>, w: seq<bool>, w': seq<bool>, s: seq<bool>)
    requires |x| == |y| && x != y && forall i :: 0 <= i < |x| && !(at <= i < at + 32) ==> y[i] == x[i]
    ensures |w| == |w'| <= 32 && w != w' && Same(x, p + w + s) && Same(y, p + w' + s)
  {
    var from := if at < |x| then at else |x|;
    var to := if at + 32 < |x| then at + 32 else |x|;
    p, w, w', s := x[..from], x[from..to], y[from..to], x[to..];
    assert x == p + w + s;
    assert y[..from] == p && y[to..] == s;
    assert y == p + w' + s;
  }

  /** No burst of at most 32 bits, at any bit offset, leaves the register of a message the same. */
  lemma BurstChangesRegister(c: word, b: bytes, d: bytes, at: nat)
    requires Burst(b, d, at)
    ensures Register(c, b) != Register(c, d)
  {
    if BitString(b) == BitString(d) {
      BitStringInjective(b, d);
    }
    var p, w, w', s := CutBurst(BitString(b), BitString(d), at);
    BitBurstDetected(c, p, w, w', s);
    RegisterIsBitwise(c, b);
    RegisterIsBitwise(c, d);
  }

  lemma BitBurstBreaksResidue(init: word, mask: word, b: bytes, d: bytes, at: nat)
    requires |b| >= 4 && Burst(b, d, at)
    requires Same(Word(b[|b| - 4..]), Xor(Register(init, b[..|b| - 4]), mask))
    ensures !Same(Word(d[|d| - 4..]), Xor(Register(init, d[..|d| - 4]), mask))
  {
    CheckedIffResidue(init, mask, b);
    CheckedIffResidue(init, mask, d);
    BurstChangesRegister(init, b, d, at);
  }

  /** So none leaves a message checked, whether it touches the checksum or not. */
  lemma BitBurstBreaksChecksum(b: bytes, d: bytes, at: nat)
    requires |b| >= 4 && Burst(b, d, at) && Checked(b)
    ensures !Checked(d)
  {
    BitBurstBreaksResidue(Ones(), Ones(), b, d, at);
  }

  /** And a damaged block is rejected unless the burst changes the length its header implies. */
  lemma BitBurstRejected(b: bytes, d: bytes, at: nat, n: nat)
    requires Decode(b).Ok? && n == Decode(b).contents.shape.SerializedSize() <= |b| && n <= |d| && |d| >= HEADER_SIZE
    requires Burst(b[..n], d[..n], at) && ParseHeader(d).ShapeOf().SerializedSize() == n
    ensures Decode(d) == Corrupt
  {
    hide Burst, Checked, Decode;
    AcceptedReads(b);
    AcceptedShape(b);
    AcceptedIffChecked(b, n);
    BitBurstBreaksChecksum(b[..n], d[..n], at);
    AcceptedIffChecked(d, n);
  }

  lemma AcceptedShape(b: bytes)
    requires Decode(b).Ok?
    ensures |b| >= HEADER_SIZE && Decode(b).contents.shape == ParseHeader(b).ShapeOf()
    ensures 44 <= Decode(b).contents.shape.SerializedSize() < SIZE_LIMIT
  {
  }
}
