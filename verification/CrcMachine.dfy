/** CRC-32 as the code's 32-bit arithmetic, and the values that fix its initial register and its final complement. */
module CrcMachine {
  import opened Bytes
  import opened Crc

  /** w holds the bits of the machine word v, least significant first. */
  predicate Is(w: word, v: bv32) {
    && w[0] == (v & 0x1 != 0) && w[1] == (v & 0x2 != 0) && w[2] == (v & 0x4 != 0) && w[3] == (v & 0x8 != 0)
    && w[4] == (v & 0x10 != 0) && w[5] == (v & 0x20 != 0) && w[6] == (v & 0x40 != 0) && w[7] == (v & 0x80 != 0)
    && w[8] == (v & 0x100 != 0) && w[9] == (v & 0x200 != 0) && w[10] == (v & 0x400 != 0) && w[11] == (v & 0x800 != 0)
    && w[12] == (v & 0x1000 != 0) && w[13] == (v & 0x2000 != 0) && w[14] == (v & 0x4000 != 0) && w[15] == (v & 0x8000 != 0)
    && w[16] == (v & 0x10000 != 0) && w[17] == (v & 0x20000 != 0) && w[18] == (v & 0x40000 != 0) && w[19] == (v & 0x80000 != 0)
    && w[20] == (v & 0x100000 != 0) && w[21] == (v & 0x200000 != 0) && w[22] == (v & 0x400000 != 0) && w[23] == (v & 0x800000 != 0)
    && w[24] == (v & 0x1000000 != 0) && w[25] == (v & 0x2000000 != 0) && w[26] == (v & 0x4000000 != 0) && w[27] == (v & 0x8000000 != 0)
    && w[28] == (v & 0x10000000 != 0) && w[29] == (v & 0x20000000 != 0) && w[30] == (v & 0x40000000 != 0) && w[31] == (v & 0x80000000 != 0)
  }

  /** c & 1 ? 0xEDB88320 ^ (c >> 1) : c >> 1 */
  function StepWord(c: bv32): bv32 {
    if c & 1 != 0 then 0xEDB8_8320 ^ (c >> 1) else c >> 1
  }

  /** for (int k = 0; k < n; ++k) */
  function StepWords(c: bv32, n: nat): bv32
    decreases n
  {
    if n == 0 then c else StepWords(StepWord(c), n - 1)
  }

  lemma IsUnique(w: word, v: bv32, u: bv32)
    requires Is(w, v) && Is(w, u)
    ensures v == u
  {
  }

  lemma IsXor(a: word, x: bv32, b: word, y: bv32)
    requires Is(a, x) && Is(b, y)
    ensures Is(Xor(a, b), x ^ y)
  {
    hide Xor;
    XorBits(a, b);
  }

  lemma IsShift(c: word, v: bv32)
    requires Is(c, v)
    ensures Is(Shr(c, 1), v >> 1)
  {
    ShiftBits(c, 1);
  }

  lemma IsPolynomial(p: word)
    requires p == Polynomial()
    ensures Is(p, 0xEDB8_8320)
  {
  }

  lemma IsOnes(ones: word)
    requires ones == Ones()
    ensures Is(ones, 0xFFFF_FFFF)
  {
  }

  lemma IsStep(c: word, v: bv32)
    requires Is(c, v)
    ensures Is(Step(c), StepWord(v))
  {
    hide Is;
    IsShift(c, v);
    IsPolynomial(Polynomial());
    IsXor(Polynomial(), 0xEDB8_8320, Shr(c, 1), v >> 1);
    LowBit(c, v);
  }

  lemma LowBit(c: word, v: bv32)
    requires Is(c, v)
    ensures c[0] <==> v & 1 != 0
  {
  }

  lemma {:induction false} IsSteps(c: word, v: bv32, n: nat)
    requires Is(c, v)
    ensures Is(Steps(c, n), StepWords(v, n))
    decreases n
  {
    hide Is, Step, StepWord;
    if n == 0 {
    } else {
      IsStep(c, v);
      IsSteps(Step(c), StepWord(v), n - 1);
    }
  }

  /** One message byte: c ^= b, then eight steps. */
  lemma IsByteStep(c: word, v: bv32, b: byte, x: bv32)
    requires Is(c, v) && Is(Widen(b), x)
    ensures Is(ByteStep(c, b), StepWords(v ^ x, 8))
  {
    hide Is, StepWords;
    IsXor(c, v, Widen(b), x);
    IsSteps(Xor(c, Widen(b)), v ^ x, 8);
  }

  // ---- Values ----

  /** The byte with low nibble d and high nibble e, whose bits are those of x. */
  lemma IsByte(s: seq<bool>, d: nat, e: nat, x: bv32)
    requires |s| == 8 && x & 0xFFFF_FF00 == 0
    requires d == (if s[0] then 1 else 0) + (if s[1] then 2 else 0) + (if s[2] then 4 else 0) + (if s[3] then 8 else 0)
    requires e == (if s[4] then 1 else 0) + (if s[5] then 2 else 0) + (if s[6] then 4 else 0) + (if s[7] then 8 else 0)
    requires s[0] == (x & 1 != 0) && s[1] == (x & 2 != 0) && s[2] == (x & 4 != 0) && s[3] == (x & 8 != 0)
    requires s[4] == (x & 0x10 != 0) && s[5] == (x & 0x20 != 0) && s[6] == (x & 0x40 != 0) && s[7] == (x & 0x80 != 0)
    ensures d + 16 * e < 256 && Is(Widen(d + 16 * e), x)
  {
    hide Bits, Number, Zeros;
    NumberOfEight(s, d, e);
    var w := Widen(d + 16 * e);
    assert w == s + Zeros(24);
    forall i | 0 <= i < 24 ensures !Zeros(24)[i] {
      ZerosAt(24, i);
    }
    hide Widen;
    IsPadded(s + Zeros(24), x);
  }

  lemma IsPadded(w: word, x: bv32)
    requires x & 0xFFFF_FF00 == 0 && forall i :: 8 <= i < 32 ==> !w[i]
    requires w[0] == (x & 1 != 0) && w[1] == (x & 2 != 0) && w[2] == (x & 4 != 0) && w[3] == (x & 8 != 0)
    requires w[4] == (x & 0x10 != 0) && w[5] == (x & 0x20 != 0) && w[6] == (x & 0x40 != 0) && w[7] == (x & 0x80 != 0)
    ensures Is(w, x)
  {
  }

  lemma NumberOfEight(s: seq<bool>, d: nat, e: nat)
    requires |s| == 8
    requires d == (if s[0] then 1 else 0) + (if s[1] then 2 else 0) + (if s[2] then 4 else 0) + (if s[3] then 8 else 0)
    requires e == (if s[4] then 1 else 0) + (if s[5] then 2 else 0) + (if s[6] then 4 else 0) + (if s[7] then 8 else 0)
    ensures Bits(d + 16 * e, 8) == s
  {
    TwoNibbles(s, d, e);
    BitsNumber(s);
  }

  lemma FourRounds()
    ensures StepWords(0xFFFF_FFFF, 8) == 0x2DFD_1072
    ensures StepWords(0x2DFD_1072, 8) == 0xBE26_ED00
    ensures StepWords(0xBE26_ED00, 8) == 0x00BE_26ED
    ensures StepWords(0x00BE_26ED, 8) == 0xDEBB_20E3
  {
  }

  /** No message at all has checksum 0: what is complemented at the end is what the register starts with. */
  lemma EmptyChecksum(none: bytes)
    requires none == []
    ensures Is(Crc32(none), 0)
  {
    hide Is;
    IsOnes(Ones());
    IsXor(Ones(), 0xFFFF_FFFF, Ones(), 0xFFFF_FFFF);
  }

  lemma ResidueWord(ones: word)
    requires ones == Ones()
    ensures Is(Xor(Steps(ones, 32), ones), 0x2144_DF1C)
  {
    hide Is, StepWords;
    IsOnes(ones);
    FourRounds();
    IsSteps(ones, 0xFFFF_FFFF, 8);
    IsSteps(Steps(ones, 8), 0x2DFD_1072, 8);
    IsSteps(Steps(Steps(ones, 8), 8), 0xBE26_ED00, 8);
    IsSteps(Steps(Steps(Steps(ones, 8), 8), 8), 0x00BE_26ED, 8);
    StepsAdd(ones, 8, 8);
    StepsAdd(ones, 16, 8);
    StepsAdd(ones, 24, 8);
    IsXor(Steps(ones, 32), 0xDEBB_20E3, ones, 0xFFFF_FFFF);
  }

  /** A message with its checksum behind it has checksum 0x2144DF1C, whatever the message. */
  lemma Residue(data: bytes)
    ensures Is(Crc32(data + WordBytes(Crc32(data))), 0x2144_DF1C)
  {
    hide Is;
    var ones, stored := Ones(), WordBytes(Crc32(data));
    WordBytesInverse(Crc32(data));
    ChecksumIffResidue(ones, ones, data, stored);
    ResidueWord(ones);
  }

  // ---- The code's checksum in machine words ----

  /** xs are the bytes of data as machine words. */
  predicate BytesAre(data: bytes, xs: seq<bv32>) {
    |data| == |xs| && forall i :: 0 <= i < |xs| ==> Is(Widen(data[i]), xs[i])
  }

  function RegisterWord(c: bv32, xs: seq<bv32>): bv32 {
    if xs == [] then c else StepWords(RegisterWord(c, xs[..|xs| - 1]) ^ xs[|xs| - 1], 8)
  }

  lemma {:induction false} IsRegister(c: word, v: bv32, data: bytes, xs: seq<bv32>)
    requires Is(c, v) && BytesAre(data, xs)
    ensures Is(Register(c, data), RegisterWord(v, xs))
  {
    hide Is, StepWords;
    if data == [] {
    } else {
      var n := |data| - 1;
      IsRegister(c, v, data[..n], xs[..n]);
      IsByteStep(Register(c, data[..n]), RegisterWord(v, xs[..n]), data[n], xs[n]);
    }
  }

  /** crc32_ieee on machine words: start at 0xFFFFFFFF, eight steps a byte, complement. */
  lemma IsCrc32(data: bytes, xs: seq<bv32>)
    requires BytesAre(data, xs)
    ensures Is(Crc32(data), RegisterWord(0xFFFF_FFFF, xs) ^ 0xFFFF_FFFF)
  {
    hide Is, BytesAre;
    IsOnes(Ones());
    IsRegister(Ones(), 0xFFFF_FFFF, data, xs);
    IsXor(Register(Ones(), data), RegisterWord(0xFFFF_FFFF, xs), Ones(), 0xFFFF_FFFF);
  }

  lemma DigitRounds()
    ensures StepWords(0xFFFF_FFFF ^ 0x31, 8) == 0x7C23_1048
    ensures StepWords(0x7C23_1048 ^ 0x32, 8) == 0xB0AC_BB32
    ensures StepWords(0xB0AC_BB32 ^ 0x33, 8) == 0x77B7_9C2D
    ensures StepWords(0x77B7_9C2D ^ 0x34, 8) == 0x641C_1F5C
    ensures StepWords(0x641C_1F5C ^ 0x35, 8) == 0x340A_C5E3
    ensures StepWords(0x340A_C5E3 ^ 0x36, 8) == 0xF68D_2C9E
    ensures StepWords(0xF68D_2C9E ^ 0x37, 8) == 0xAFFC_9660
    ensures StepWords(0xAFFC_9660 ^ 0x38, 8) == 0x651F_2550
    ensures StepWords(0x651F_2550 ^ 0x39, 8) == 0x340B_C6D9
  {
  }

  lemma Digits()
    ensures Is(Widen(0x31), 0x31) && Is(Widen(0x32), 0x32) && Is(Widen(0x33), 0x33)
    ensures Is(Widen(0x34), 0x34) && Is(Widen(0x35), 0x35) && Is(Widen(0x36), 0x36)
    ensures Is(Widen(0x37), 0x37) && Is(Widen(0x38), 0x38) && Is(Widen(0x39), 0x39)
  {
    hide Is;
    IsByte([true, false, false, false, true, true, false, false], 1, 3, 0x31);
    IsByte([false, true, false, false, true, true, false, false], 2, 3, 0x32);
    IsByte([true, true, false, false, true, true, false, false], 3, 3, 0x33);
    IsByte([false, false, true, false, true, true, false, false], 4, 3, 0x34);
    IsByte([true, false, true, false, true, true, false, false], 5, 3, 0x35);
    IsByte([false, true, true, false, true, true, false, false], 6, 3, 0x36);
    IsByte([true, true, true, false, true, true, false, false], 7, 3, 0x37);
    IsByte([false, false, false, true, true, true, false, false], 8, 3, 0x38);
    IsByte([true, false, false, true, true, true, false, false], 9, 3, 0x39);
  }

  lemma RegisterWordNext(c: bv32, xs: seq<bv32>, k: nat, v: bv32)
    requires k < |xs| && RegisterWord(c, xs[..k]) == v
    ensures RegisterWord(c, xs[..k + 1]) == StepWords(v ^ xs[k], 8)
  {
    hide StepWords;
    assert xs[..k + 1][..k] == xs[..k];
  }

  lemma FirstThree(c: bv32, xs: seq<bv32>)
    requires |xs| == 9 && RegisterWord(c, xs[..0]) == 0xFFFF_FFFF
    requires xs[0] == 0x31 && xs[1] == 0x32 && xs[2] == 0x33
    ensures RegisterWord(c, xs[..3]) == 0x77B7_9C2D
  {
    hide StepWords, RegisterWord;
    DigitRounds();
    RegisterWordNext(c, xs, 0, 0xFFFF_FFFF);
    RegisterWordNext(c, xs, 1, 0x7C23_1048);
    RegisterWordNext(c, xs, 2, 0xB0AC_BB32);
  }

  lemma NextThree(c: bv32, xs: seq<bv32>)
    requires |xs| == 9 && RegisterWord(c, xs[..3]) == 0x77B7_9C2D
    requires xs[3] == 0x34 && xs[4] == 0x35 && xs[5] == 0x36
    ensures RegisterWord(c, xs[..6]) == 0xF68D_2C9E
  {
    hide StepWords, RegisterWord;
    DigitRounds();
    RegisterWordNext(c, xs, 3, 0x77B7_9C2D);
    RegisterWordNext(c, xs, 4, 0x641C_1F5C);
    RegisterWordNext(c, xs, 5, 0x340A_C5E3);
  }

  lemma LastThree(c: bv32, xs: seq<bv32>)
    requires |xs| == 9 && RegisterWord(c, xs[..6]) == 0xF68D_2C9E
    requires xs[6] == 0x37 && xs[7] == 0x38 && xs[8] == 0x39
    ensures RegisterWord(c, xs[..9]) == 0x340B_C6D9
  {
    hide StepWords, RegisterWord;
    DigitRounds();
    RegisterWordNext(c, xs, 6, 0xF68D_2C9E);
    RegisterWordNext(c, xs, 7, 0xAFFC_9660);
    RegisterWordNext(c, xs, 8, 0x651F_2550);
  }

  lemma DigitsWord(c: bv32, xs: seq<bv32>)
    requires c == 0xFFFF_FFFF && |xs| == 9
    requires xs[0] == 0x31 && xs[1] == 0x32 && xs[2] == 0x33 && xs[3] == 0x34 && xs[4] == 0x35
    requires xs[5] == 0x36 && xs[6] == 0x37 && xs[7] == 0x38 && xs[8] == 0x39
    ensures RegisterWord(c, xs) == 0x340B_C6D9
  {
    NoneAndAll(c, xs);
    hide StepWords, RegisterWord;
    FirstThree(c, xs);
    NextThree(c, xs);
    LastThree(c, xs);
  }

  lemma NoneAndAll(c: bv32, xs: seq<bv32>)
    ensures RegisterWord(c, xs[..0]) == c && xs[..|xs|] == xs
  {
  }

  lemma DigitsAre(data: bytes, xs: seq<bv32>)
    requires |data| == |xs| == 9
    requires data[0] == 0x31 && data[1] == 0x32 && data[2] == 0x33 && data[3] == 0x34 && data[4] == 0x35
    requires data[5] == 0x36 && data[6] == 0x37 && data[7] == 0x38 && data[8] == 0x39
    requires xs[0] == 0x31 && xs[1] == 0x32 && xs[2] == 0x33 && xs[3] == 0x34 && xs[4] == 0x35
    requires xs[5] == 0x36 && xs[6] == 0x37 && xs[7] == 0x38 && xs[8] == 0x39
    ensures BytesAre(data, xs)
  {
    hide Is, Widen;
    Digits();
  }

  lemma NineDigits(data: bytes, xs: seq<bv32>)
    requires |data| == |xs| == 9
    requires data[0] == 0x31 && data[1] == 0x32 && data[2] == 0x33 && data[3] == 0x34 && data[4] == 0x35
    requires data[5] == 0x36 && data[6] == 0x37 && data[7] == 0x38 && data[8] == 0x39
    requires xs[0] == 0x31 && xs[1] == 0x32 && xs[2] == 0x33 && xs[3] == 0x34 && xs[4] == 0x35
    requires xs[5] == 0x36 && xs[6] == 0x37 && xs[7] == 0x38 && xs[8] == 0x39
    ensures Is(Crc32(data), 0xCBF4_3926)
  {
    DigitsAre(data, xs);
    hide Is, BytesAre, Crc32, RegisterWord;
    IsCrc32(data, xs);
    DigitsWord(0xFFFF_FFFF, xs);
  }

  /** The standard check value: the nine characters '1' to '9' have checksum 0xCBF43926. */
  lemma CheckValue(data: bytes)
    requires data == [0x31, 0x32, 0x33, 0x34, 0x35, 0x36, 0x37, 0x38, 0x39]
    ensures Is(Crc32(data), 0xCBF4_3926)
  {
    hide Is, Crc32;
    NineDigits(data, [0x31, 0x32, 0x33, 0x34, 0x35, 0x36, 0x37, 0x38, 0x39]);
  }
}
