/** Where the CRC-16 starts: known answers, and why zeros in front of a message change it. */
module Crc16Answers {
  import opened Bytes
  import opened Crc16
  import opened Crc16Order
  import opened Crc16Parity

  // ---------- known answers

  /** The check string of CRC catalogues: the digits one to nine. */
  const DIGITS: seq<byte> := [0x31, 0x32, 0x33, 0x34, 0x35, 0x36, 0x37, 0x38, 0x39]

  function Eight(c: bv16): bv16 {
    Shift(Shift(Shift(Shift(Shift(Shift(Shift(Shift(c))))))))
  }

  lemma TurnIsEight(c: bv16)
    ensures Turn(c) == Eight(c)
  {
    hide Shift;
    ShiftNStep(c, 0);
    ShiftNStep(c, 1);
    ShiftNStep(c, 2);
    ShiftNStep(c, 3);
    ShiftNStep(c, 4);
    ShiftNStep(c, 5);
    ShiftNStep(c, 6);
    ShiftNStep(c, 7);
  }

  /** One more byte: b with its bits x takes the register from c to r. */
  lemma AnswerStep(data: seq<byte>, b: byte, x: bv8, c: bv16, r: bv16)
    requires Run(0xFFFF, data) == c && Bits(b) == x && Eight(Xor(c, AtTop(x))) == r
    ensures Run(0xFFFF, data + [b]) == r
  {
    TurnIsEight(Xor(c, AtTop(x)));
    assert (data + [b])[..|data|] == data;
    hide Xor, AtTop, ShiftN, Eight;
  }

  lemma DigitBits()
    ensures Bits(0x31) == 0x31 && Bits(0x32) == 0x32 && Bits(0x33) == 0x33 && Bits(0x34) == 0x34 && Bits(0x35) == 0x35
    ensures Bits(0x36) == 0x36 && Bits(0x37) == 0x37 && Bits(0x38) == 0x38 && Bits(0x39) == 0x39
  {
    assert Bits(3) == 3;
    assert Bits(6) == 6;
    assert Bits(12) == 12 && Bits(13) == 13 && Bits(14) == 14;
    assert Bits(24) == 24 && Bits(25) == 25 && Bits(26) == 26 && Bits(27) == 27 && Bits(28) == 28;
  }

  /** The register of a buffer starts at all ones, and the digits one to nine leave 29B1. */
  lemma KnownAnswer()
    ensures Run(INIT, []) == 0xFFFF
    ensures Run(INIT, DIGITS) == 0x29B1
  {
    DigitBits();
    Prefixes(DIGITS);
    hide Run, Bits;
    assert Run(0xFFFF, []) == 0xFFFF by { EmptyRun(); }
    AnswerStep([], 0x31, 0x31, 0xFFFF, 0xC782);
    AnswerStep(DIGITS[..1], 0x32, 0x32, 0xC782, 0x3DBA);
    AnswerStep(DIGITS[..2], 0x33, 0x33, 0x3DBA, 0x5BCE);
    AnswerStep(DIGITS[..3], 0x34, 0x34, 0x5BCE, 0x5349);
    AnswerStep(DIGITS[..4], 0x35, 0x35, 0x5349, 0x4560);
    AnswerStep(DIGITS[..5], 0x36, 0x36, 0x4560, 0x2EF4);
    AnswerStep(DIGITS[..6], 0x37, 0x37, 0x2EF4, 0x7718);
    AnswerStep(DIGITS[..7], 0x38, 0x38, 0x7718, 0xA12B);
    AnswerStep(DIGITS[..8], 0x39, 0x39, 0xA12B, 0x29B1);
  }

  lemma EmptyRun()
    ensures Run(0xFFFF, []) == 0xFFFF
  {
  }

  lemma Prefixes(d: seq<byte>)
    requires |d| >= 9
    ensures [] + [d[0]] == d[..1] && d[..1] + [d[1]] == d[..2] && d[..2] + [d[2]] == d[..3] && d[..3] + [d[3]] == d[..4]
    ensures d[..4] + [d[4]] == d[..5] && d[..5] + [d[5]] == d[..6] && d[..6] + [d[6]] == d[..7]
    ensures d[..7] + [d[7]] == d[..8] && d[..8] + [d[8]] == d[..9]
  {
  }

  // ---------- zeros in front

  function Zeros(n: nat): (z: seq<byte>)
    ensures |z| == n
  {
    seq(n, _ => 0)
  }

  lemma {:induction false} RunZeros(c: bv16, n: nat)
    ensures Run(c, Zeros(n)) == ShiftN(c, 8 * n)
  {
    if n > 0 {
      RunZeros(c, n - 1);
      assert Zeros(n)[..n - 1] == Zeros(n - 1);
      assert AtTop(Bits(0)) == 0;
      XorSelf(Run(c, Zeros(n - 1)), 0);
      hide Xor, Shift, AtTop;
      ShiftNAdd(c, 8 * (n - 1), 8);
    }
  }

  /** The register as a polynomial, times x + 1. */
  function Next(c: bv16): bv16 {
    Xor(Shift(c), c)
  }

  function NextN(c: bv16, n: nat): bv16 {
    if n == 0 then c else Next(NextN(c, n - 1))
  }

  lemma NextZero(c: bv16)
    requires Next(c) == 0
    ensures c == 0 || c == 0xF01F
  {
    assert (c << 1) ^ (0x1021 & (0 - (c >> 15))) ^ c == 0;
  }

  /** Even parity, so never the one register other than zero that a shift leaves alone. */
  lemma NextEven(c: bv16)
    ensures Next(c) != 0xF01F
  {
    FixedIsOdd();
    ShiftParity(c);
    hide Shift, OddOnes, Xor;
    OddOnesXor(Shift(c), c, 16);
  }

  lemma FixedIsOdd()
    ensures OddOnes(0xF01F, 16)
  {
    assert OddOnes(1, 1) && !OddOnes(3, 2) && OddOnes(7, 3) && !OddOnes(0xF, 4);
    assert !OddOnes(0x1E, 5) && !OddOnes(0x3C, 6) && !OddOnes(0x78, 7) && !OddOnes(0xF0, 8);
    assert !OddOnes(0x1E0, 9) && !OddOnes(0x3C0, 10) && !OddOnes(0x780, 11);
    assert OddOnes(0xF01, 12) && !OddOnes(0x1E03, 13) && OddOnes(0x3C07, 14) && !OddOnes(0x780F, 15);
  }

  lemma {:induction false} NextNZero(c: bv16, n: nat)
    requires n > 0 && NextN(c, n) == 0
    ensures Next(c) == 0
  {
    if n > 1 {
      var d := NextN(c, n - 1);
      NextZero(d);
      NextEven(NextN(c, n - 2));
      hide Next;
      assert d == Next(NextN(c, n - 2));
      NextNZero(c, n - 1);
    }
  }

  lemma NextXor(a: bv16, b: bv16)
    ensures Next(Xor(a, b)) == Xor(Next(a), Next(b))
  {
    hide Shift, Xor;
    ShiftLinear(a, b);
    XorMedial(Shift(a), Shift(b), a, b);
  }

  lemma {:induction false} NextNXor(a: bv16, b: bv16, n: nat)
    ensures NextN(Xor(a, b), n) == Xor(NextN(a, n), NextN(b, n))
  {
    hide Next, Xor;
    if n > 0 {
      NextNXor(a, b, n - 1);
      NextXor(NextN(a, n - 1), NextN(b, n - 1));
    }
  }

  lemma {:induction false} NextNShiftN(c: bv16, n: nat, k: nat)
    ensures NextN(ShiftN(c, k), n) == ShiftN(NextN(c, n), k)
  {
    hide Shift, Xor;
    if n > 0 {
      NextNShiftN(c, n - 1, k);
      var d := NextN(c, n - 1);
      ShiftNLinear(Shift(d), d, k);
      ShiftNAdd(d, 1, k);
      ShiftNAdd(d, k, 1);
      ShiftNStep(d, 0);
      ShiftNStep(ShiftN(d, k), 0);
    }
  }

  /** The start register is x + 1 to the fifteenth. */
  lemma InitIsPower()
    ensures NextN(1, 15) == 0xFFFF
  {
    assert Next(1) == 3 && Next(3) == 5 && Next(5) == 0xF && Next(0xF) == 0x11 && Next(0x11) == 0x33;
    assert Next(0x33) == 0x55 && Next(0x55) == 0xFF && Next(0xFF) == 0x101 && Next(0x101) == 0x303;
    assert Next(0x303) == 0x505 && Next(0x505) == 0xF0F && Next(0xF0F) == 0x1111 && Next(0x1111) == 0x3333;
    assert Next(0x3333) == 0x5555 && Next(0x5555) == 0xFFFF;
    hide Next;
    NextNStep(1, 0);
    NextNStep(1, 1);
    NextNStep(1, 2);
    NextNStep(1, 3);
    NextNStep(1, 4);
    NextNStep(1, 5);
    NextNStep(1, 6);
    NextNStep(1, 7);
    NextNStep(1, 8);
    NextNStep(1, 9);
    NextNStep(1, 10);
    NextNStep(1, 11);
    NextNStep(1, 12);
    NextNStep(1, 13);
    NextNStep(1, 14);
    hide NextN;
  }

  lemma NextNStep(c: bv16, n: nat)
    ensures NextN(c, 0) == c && NextN(c, n + 1) == Next(NextN(c, n))
  {
    hide Next;
  }

  /** The start register does not come back in fewer than 32767 shifts either. */
  lemma InitMoves(k: nat)
    requires 0 < k < ORDER
    ensures ShiftN(0xFFFF, k) != 0xFFFF
  {
    if ShiftN(0xFFFF, k) == 0xFFFF {
      var v := Xor(ShiftN(1, k), 1);
      InitIsPower();
      hide Next, Xor, Shift;
      NextNShiftN(1, 15, k);
      NextNXor(ShiftN(1, k), 1, 15);
      XorSelf(0xFFFF, 0);
      NextNZero(v, 15);
      NextZero(v);
      PowerIsNoFixed(k);
      XorZero(ShiftN(1, k), 1);
      NoShorterPeriod(k);
    }
  }

  lemma PowerIsNoFixed(k: nat)
    ensures Xor(ShiftN(1, k), 1) != 0xF01F
  {
    FixedIsOdd();
    ShiftNParity(1, k);
    hide Shift, OddOnes, Xor;
    OddOnesXor(ShiftN(1, k), 1, 16);
  }

  /** Zeros that a receiver takes to stand in front of a message never go unnoticed. */
  lemma LeadingZerosDetected(n: nat, d: seq<byte>)
    requires 0 < n <= 4095
    ensures Run(INIT, Zeros(n) + d) != Run(INIT, d)
  {
    hide Run, ShiftN;
    RunConcat(INIT, Zeros(n), d);
    RunZeros(INIT, n);
    InitMoves(8 * n);
    if Run(INIT, Zeros(n) + d) == Run(INIT, d) {
      RunInjective(Run(INIT, Zeros(n)), INIT, d);
    }
  }
}
