/** The order of the frame CRC's register: shifting a single bit, it takes 32767 steps to come back.
    That is why two flipped bits of a frame can never cancel. */
module Crc16Order {
  import opened Crc16
  import opened Crc16Parity

  // ---------- squaring

  /** Bit i of c. */
  predicate BitAt(c: bv16, i: nat)
    decreases i
  {
    if i == 0 then OddBit(c) else BitAt(Half(c), i - 1)
  }

  function Term(c: bv16, i: nat): bv16 {
    if BitAt(c, i) then ShiftN(1, 2 * i) else 0
  }

  /** c read as a polynomial, with x squared put for x, of its low n bits. */
  function Squares(c: bv16, n: nat): bv16 {
    if n == 0 then 0 else Xor(Squares(c, n - 1), Term(c, n - 1))
  }

  function Square(c: bv16): bv16 {
    Squares(c, 16)
  }

  function Twice(c: bv16): bv16 {
    Shift(Shift(c))
  }

  lemma {:induction false} BitAtXor(a: bv16, b: bv16, i: nat)
    ensures BitAt(Xor(a, b), i) == (BitAt(a, i) != BitAt(b, i))
    decreases i
  {
    hide Xor, OddBit, Half;
    OddBitXor(a, b);
    HalfXor(a, b);
    if i > 0 {
      BitAtXor(Half(a), Half(b), i - 1);
    }
  }

  lemma {:induction false} SquaresXor(a: bv16, b: bv16, n: nat)
    ensures Squares(Xor(a, b), n) == Xor(Squares(a, n), Squares(b, n))
  {
    hide Xor, BitAt, ShiftN;
    XorSelf(0, 0);
    if n > 0 {
      SquaresXor(a, b, n - 1);
      BitAtXor(a, b, n - 1);
      TermXor(a, b, n - 1);
      XorMedial(Squares(a, n - 1), Term(a, n - 1), Squares(b, n - 1), Term(b, n - 1));
    }
  }

  lemma TermXor(a: bv16, b: bv16, i: nat)
    requires BitAt(Xor(a, b), i) == (BitAt(a, i) != BitAt(b, i))
    ensures Term(Xor(a, b), i) == Xor(Term(a, i), Term(b, i))
  {
    hide Xor, BitAt, ShiftN;
    var x := ShiftN(1, 2 * i);
    XorSelf(x, x);
    XorSelf(0, 0);
    XorComm(x, 0);
    XorSelf(x, 0);
  }

  lemma TwiceLinear(a: bv16, b: bv16)
    ensures Twice(Xor(a, b)) == Xor(Twice(a), Twice(b))
  {
    hide Xor, Shift;
    ShiftLinear(a, b);
    ShiftLinear(Shift(a), Shift(b));
  }

  lemma TwiceZero()
    ensures Twice(0) == 0
  {
  }

  lemma UpOnce(d: bv16)
    requires d & 0x8000 == 0
    ensures Half(d << 1) == d && !OddBit(d << 1)
  {
  }

  /** While no bit falls out, moving up by one multiplies the square by x squared. */
  lemma {:induction false} SquaresUp(d: bv16, n: nat)
    requires d & 0x8000 == 0
    ensures Squares(d << 1, n + 1) == Twice(Squares(d, n))
  {
    UpOnce(d);
    hide Xor, Half, OddBit, Shift;
    TwiceZero();
    XorSelf(0, 0);
    if n == 0 {
      assert Squares(d << 1, 1) == Xor(Squares(d << 1, 0), Term(d << 1, 0));
    } else {
      SquaresUp(d, n - 1);
      TwiceLinear(Squares(d, n - 1), Term(d, n - 1));
      ShiftNStep(1, 2 * n - 2);
      ShiftNStep(1, 2 * n - 1);
      assert BitAt(d << 1, n) == BitAt(d, n - 1);
      hide BitAt;
    }
  }

  // ---------- the square of a constant

  function Mask(i: nat): bv16 {
    if i == 0 then 1 else Mask(i - 1) << 1
  }

  lemma HalfMask(c: bv16, m: bv16)
    requires m & 0x8000 == 0
    ensures Half(c) & m != 0 <==> c & (m << 1) != 0
  {
    assert (c >> 1) & m == 0 <==> c & (m << 1) == 0;
  }

  lemma Masks()
    ensures Mask(0) == 0x1 && Mask(1) == 0x2 && Mask(2) == 0x4 && Mask(3) == 0x8
    ensures Mask(4) == 0x10 && Mask(5) == 0x20 && Mask(6) == 0x40 && Mask(7) == 0x80
    ensures Mask(8) == 0x100 && Mask(9) == 0x200 && Mask(10) == 0x400 && Mask(11) == 0x800
    ensures Mask(12) == 0x1000 && Mask(13) == 0x2000 && Mask(14) == 0x4000 && Mask(15) == 0x8000
  {
    assert Mask(1) == 0x2;
    assert Mask(2) == 0x4;
    assert Mask(3) == 0x8;
    assert Mask(4) == 0x10;
    assert Mask(5) == 0x20;
    assert Mask(6) == 0x40;
    assert Mask(7) == 0x80;
    assert Mask(8) == 0x100;
    assert Mask(9) == 0x200;
    assert Mask(10) == 0x400;
    assert Mask(11) == 0x800;
    assert Mask(12) == 0x1000;
    assert Mask(13) == 0x2000;
    assert Mask(14) == 0x4000;
    assert Mask(15) == 0x8000;
  }

  lemma MaskTop(i: nat)
    requires i < 15
    ensures Mask(i) & 0x8000 == 0
  {
    Masks();
    hide Mask;
    assert i == 0 || i == 1 || i == 2 || i == 3 || i == 4 || i == 5 || i == 6 || i == 7
           || i == 8 || i == 9 || i == 10 || i == 11 || i == 12 || i == 13 || i == 14;
  }

  lemma {:induction false} BitAtMask(c: bv16, i: nat)
    requires i < 16
    ensures BitAt(c, i) <==> c & Mask(i) != 0
    decreases i
  {
    hide Half;
    if i > 0 {
      BitAtMask(Half(c), i - 1);
      MaskTop(i - 1);
      HalfMask(c, Mask(i - 1));
      hide Mask;
      MaskNext(i);
    }
  }

  lemma MaskNext(i: nat)
    requires i > 0
    ensures Mask(i) == Mask(i - 1) << 1
  {
  }

  /** The even powers of x below the 32nd. */
  lemma EvenPowers()
    ensures ShiftN(1, 0) == 0x1 && ShiftN(1, 2) == 0x4 && ShiftN(1, 4) == 0x10 && ShiftN(1, 6) == 0x40
    ensures ShiftN(1, 8) == 0x100 && ShiftN(1, 10) == 0x400 && ShiftN(1, 12) == 0x1000 && ShiftN(1, 14) == 0x4000
    ensures ShiftN(1, 16) == 0x1021 && ShiftN(1, 18) == 0x4084 && ShiftN(1, 20) == 0x1231 && ShiftN(1, 22) == 0x48C4
    ensures ShiftN(1, 24) == 0x3331 && ShiftN(1, 26) == 0xCCC4 && ShiftN(1, 28) == 0x373 && ShiftN(1, 30) == 0xDCC
  {
    hide ShiftN;
    ShiftNStep(1, 0);
    TwoMore(0, 0x1, 0x4);
    TwoMore(2, 0x4, 0x10);
    TwoMore(4, 0x10, 0x40);
    TwoMore(6, 0x40, 0x100);
    TwoMore(8, 0x100, 0x400);
    TwoMore(10, 0x400, 0x1000);
    TwoMore(12, 0x1000, 0x4000);
    TwoMore(14, 0x4000, 0x1021);
    TwoMore(16, 0x1021, 0x4084);
    TwoMore(18, 0x4084, 0x1231);
    TwoMore(20, 0x1231, 0x48C4);
    TwoMore(22, 0x48C4, 0x3331);
    TwoMore(24, 0x3331, 0xCCC4);
    TwoMore(26, 0xCCC4, 0x373);
    TwoMore(28, 0x373, 0xDCC);
  }

  lemma TwoMore(n: nat, v: bv16, w: bv16)
    requires ShiftN(1, n) == v && w == Twice(v)
    ensures ShiftN(1, n + 2) == w
  {
    hide Shift;
    ShiftNStep(1, n);
    ShiftNStep(1, n + 1);
  }

  function On(c: bv16, mask: bv16, s: bv16): bv16 {
    if c & mask != 0 then s else 0
  }

  function LowSquare(c: bv16): bv16 {
    Xor(Xor(Xor(Xor(Xor(Xor(Xor(Xor(0, On(c, 0x1, 0x1)), On(c, 0x2, 0x4)), On(c, 0x4, 0x10)),
      On(c, 0x8, 0x40)), On(c, 0x10, 0x100)), On(c, 0x20, 0x400)),
      On(c, 0x40, 0x1000)), On(c, 0x80, 0x4000))
  }

  /** The square, spelled out. */
  function Spelled(c: bv16): bv16 {
    Xor(Xor(Xor(Xor(Xor(Xor(Xor(Xor(LowSquare(c), On(c, 0x100, 0x1021)), On(c, 0x200, 0x4084)), On(c, 0x400, 0x1231)),
      On(c, 0x800, 0x48C4)), On(c, 0x1000, 0x3331)), On(c, 0x2000, 0xCCC4)),
      On(c, 0x4000, 0x373)), On(c, 0x8000, 0xDCC))
  }

  lemma TermIs(c: bv16, i: nat, mask: bv16, s: bv16)
    requires i < 16 && Mask(i) == mask && ShiftN(1, 2 * i) == s
    ensures Squares(c, i + 1) == Xor(Squares(c, i), On(c, mask, s))
  {
    hide Xor, BitAt, ShiftN, Mask;
    BitAtMask(c, i);
  }

  lemma NoTerms(c: bv16)
    ensures Squares(c, 0) == 0
  {
  }

  lemma LowTerms(c: bv16)
    ensures Squares(c, 8) == LowSquare(c)
  {
    hide Xor, On, ShiftN, Mask, Squares;
    EvenPowers();
    Masks();
    NoTerms(c);
    TermIs(c, 0, 0x1, 0x1);
    TermIs(c, 1, 0x2, 0x4);
    TermIs(c, 2, 0x4, 0x10);
    TermIs(c, 3, 0x8, 0x40);
    TermIs(c, 4, 0x10, 0x100);
    TermIs(c, 5, 0x20, 0x400);
    TermIs(c, 6, 0x40, 0x1000);
    TermIs(c, 7, 0x80, 0x4000);
  }

  lemma HighTerms(c: bv16)
    requires Squares(c, 8) == LowSquare(c)
    ensures Squares(c, 16) == Spelled(c)
  {
    hide Xor, On, ShiftN, Mask, Squares, LowSquare;
    EvenPowers();
    Masks();
    TermIs(c, 8, 0x100, 0x1021);
    TermIs(c, 9, 0x200, 0x4084);
    TermIs(c, 10, 0x400, 0x1231);
    TermIs(c, 11, 0x800, 0x48C4);
    TermIs(c, 12, 0x1000, 0x3331);
    TermIs(c, 13, 0x2000, 0xCCC4);
    TermIs(c, 14, 0x4000, 0x373);
    TermIs(c, 15, 0x8000, 0xDCC);
  }

  lemma SquareSpelled(c: bv16)
    ensures Square(c) == Spelled(c)
  {
    hide Squares, Spelled, LowSquare;
    LowTerms(c);
    HighTerms(c);
  }

  lemma SquareShift(c: bv16)
    ensures Square(Shift(c)) == Twice(Square(c))
  {
    var d, t := SplitTop(c);
    SquareUp(d);
    SquaresXor(d, t, 16);
    TwiceLinear(Square(d), Square(t));
    TopSquares();
    hide Xor, Shift, Squares, Twice;
    if t == 0 {
      SquaresXor(d << 1, 0, 16);
    } else {
      SquaresXor(d << 1, 0x1021, 16);
    }
  }

  lemma SquareUp(d: bv16)
    requires d & 0x8000 == 0
    ensures Square(d << 1) == Twice(Square(d))
  {
    SquaresUp(d, 15);
    TopTermZero(d);
    assert Squares(d, 16) == Xor(Squares(d, 15), Term(d, 15));
    hide Xor, Squares, Term, Twice;
    XorSelf(Squares(d, 15), 0);
  }

  lemma TopTermZero(d: bv16)
    requires d & 0x8000 == 0
    ensures Term(d, 15) == 0
  {
    Masks();
    hide BitAt, Mask, ShiftN;
    BitAtMask(d, 15);
  }

  /** Where a bit falls out, the square keeps step. */
  lemma TopSquares()
    ensures Square(0) == Twice(Square(0)) && Square(0x1021) == Twice(Square(0x8000))
  {
    SquareSpelled(0);
    SquareSpelled(0x1021);
    SquareSpelled(0x8000);
    hide Square, Spelled, Shift;
    SpelledZero();
    SpelledPolynomial();
    SpelledTop();
    TwiceTop();
  }

  lemma SpelledZero()
    ensures Spelled(0) == 0 && Twice(0) == 0
  {
  }

  lemma SpelledPolynomial()
    ensures Spelled(0x1021) == 0x3730
  {
    LowPolynomial(0x1021);
    hide LowSquare;
  }

  lemma LowPolynomial(c: bv16)
    requires c == 0x1021
    ensures LowSquare(c) == 0x401
  {
    assert On(c, 0x1, 0x1) == 0x1 && On(c, 0x2, 0x4) == 0 && On(c, 0x4, 0x10) == 0 && On(c, 0x8, 0x40) == 0;
    assert On(c, 0x10, 0x100) == 0 && On(c, 0x20, 0x400) == 0x400 && On(c, 0x40, 0x1000) == 0;
    assert On(c, 0x80, 0x4000) == 0;
    hide On;
  }

  lemma SpelledTop()
    ensures Spelled(0x8000) == 0xDCC
  {
  }

  lemma TwiceTop()
    ensures Twice(0xDCC) == 0x3730
  {
  }

  // ---------- powers of x

  lemma {:induction false} SquareOfPower(n: nat)
    ensures Square(ShiftN(1, n)) == ShiftN(1, 2 * n)
  {
    hide Shift, Square;
    if n == 0 {
      OneSquared();
    } else {
      SquareOfPower(n - 1);
      SquareShift(ShiftN(1, n - 1));
      hide Twice;
      TwoMore(2 * n - 2, ShiftN(1, 2 * n - 2), Twice(ShiftN(1, 2 * n - 2)));
    }
  }

  lemma OneSquared()
    ensures Square(1) == 1
  {
    SquareSpelled(1);
    hide Square;
    assert Spelled(1) == 1;
  }

  /** One step of repeated squaring, over the bits of the exponent. */
  lemma PowerStep(n: nat, v: bv16, odd: bool, w: bv16)
    requires ShiftN(1, n) == v
    requires w == if odd then Shift(Spelled(v)) else Spelled(v)
    ensures ShiftN(1, if odd then 2 * n + 1 else 2 * n) == w
  {
    hide Shift, Spelled, Square;
    SquareOfPower(n);
    SquareSpelled(v);
    ShiftNStep(1, 2 * n);
  }

  lemma PowerOne()
    ensures ShiftN(1, 1) == 2
  {
    ShiftNStep(1, 0);
  }

  lemma Power217()
    ensures ShiftN(1, 217) != 1
  {
    PowerOne();
    hide ShiftN;
    PowerStep(1, 0x2, true, 0x8);
    PowerStep(3, 0x8, false, 0x40);
    PowerStep(6, 0x40, true, 0x2000);
    PowerStep(13, 0x2000, true, 0x89A9);
    PowerStep(27, 0x89A9, false, 0x1168);
    PowerStep(54, 0x1168, false, 0x3750);
    PowerStep(108, 0x3750, true, 0x48E3);
  }

  lemma Power1057()
    ensures ShiftN(1, 1057) != 1
  {
    PowerOne();
    hide ShiftN;
    PowerStep(1, 0x2, false, 0x4);
    PowerStep(2, 0x4, false, 0x10);
    PowerStep(4, 0x10, false, 0x100);
    PowerStep(8, 0x100, false, 0x1021);
    PowerStep(16, 0x1021, true, 0x6E60);
    PowerStep(33, 0x6E60, false, 0xC1C6);
    PowerStep(66, 0xC1C6, false, 0x4E8A);
    PowerStep(132, 0x4E8A, false, 0x5946);
    PowerStep(264, 0x5946, false, 0x78B3);
    PowerStep(528, 0x78B3, true, 0xF2AF);
  }

  lemma Power4681()
    ensures ShiftN(1, 4681) != 1
  {
    PowerOne();
    hide ShiftN;
    PowerStep(1, 0x2, false, 0x4);
    PowerStep(2, 0x4, false, 0x10);
    PowerStep(4, 0x10, true, 0x200);
    PowerStep(9, 0x200, false, 0x4084);
    PowerStep(18, 0x4084, false, 0x4363);
    PowerStep(36, 0x4363, true, 0x8FA6);
    PowerStep(73, 0x8FA6, false, 0x4388);
    PowerStep(146, 0x4388, false, 0x1396);
    PowerStep(292, 0x1396, true, 0x4500);
    PowerStep(585, 0x4500, false, 0x163);
    PowerStep(1170, 0x163, false, 0x424);
    PowerStep(2340, 0x424, true, 0x2C42);
  }

  lemma Power32768()
    ensures ShiftN(1, 32768) == 2
  {
    PowerOne();
    hide ShiftN;
    PowerStep(1, 0x2, false, 0x4);
    PowerStep(2, 0x4, false, 0x10);
    PowerStep(4, 0x10, false, 0x100);
    PowerStep(8, 0x100, false, 0x1021);
    PowerStep(16, 0x1021, false, 0x3730);
    PowerStep(32, 0x3730, false, 0xB861);
    PowerStep(64, 0xB861, false, 0xAEFC);
    PowerStep(128, 0xAEFC, false, 0x8E29);
    PowerStep(256, 0x8E29, false, 0x13FC);
    PowerStep(512, 0x13FC, false, 0x36C4);
    PowerStep(1024, 0x36C4, false, 0xFD50);
    PowerStep(2048, 0xFD50, false, 0xAA9E);
    PowerStep(4096, 0xAA9E, false, 0x881C);
    PowerStep(8192, 0x881C, false, 0x4458);
    PowerStep(16384, 0x4458, false, 0x2);
  }

  // ---------- the order

  const ORDER := 32767

  /** A power of x that is one comes back at every multiple. */
  lemma {:induction false} Multiples(m: nat, k: nat)
    requires ShiftN(1, m) == 1
    ensures ShiftN(1, m * k) == 1
    decreases k
  {
    if k == 0 {
      ShiftNStep(1, 0);
    } else {
      Multiples(m, k - 1);
      ShiftNAdd(1, m * (k - 1), m);
      assert m * (k - 1) + m == m * k;
    }
  }

  lemma OrderIsPeriod()
    ensures ShiftN(1, ORDER) == 1
  {
    Power32768();
    PowerOne();
    hide ShiftN, Shift;
    ShiftNStep(1, 0);
    ShiftNStep(1, ORDER);
    ShiftInjective(ShiftN(1, ORDER), 1);
  }

  lemma ShiftInjective(a: bv16, b: bv16)
    requires Shift(a) == Shift(b)
    ensures a == b
  {
    hide Shift, Unshift;
    UnshiftShift(a);
    UnshiftShift(b);
  }

  /** The smallest positive period up to n. */
  lemma {:induction false} Smallest(n: nat) returns (m: nat)
    requires n > 0 && ShiftN(1, n) == 1
    ensures 0 < m <= n && ShiftN(1, m) == 1 && forall k :: 0 < k < m ==> ShiftN(1, k) != 1
  {
    hide ShiftN;
    m := 1;
    while ShiftN(1, m) != 1
      invariant 0 < m <= n && forall k :: 0 < k < m ==> ShiftN(1, k) != 1
      decreases n - m
    {
      m := m + 1;
    }
  }

  lemma SmallestDivides(m: nat)
    requires m > 0 && ShiftN(1, m) == 1 && forall k :: 0 < k < m ==> ShiftN(1, k) != 1
    ensures ORDER % m == 0
  {
    hide ShiftN;
    var q, r := ORDER / m, ORDER % m;
    OrderIsPeriod();
    Multiples(m, q);
    ShiftNAdd(1, m * q, r);
    assert m * q + r == ORDER;
  }

  /** 32767 = 7 * 31 * 151. */
  lemma SmallFactor(m: nat, q: nat)
    requires m * q == ORDER && q < 182
    ensures q == 1 || q == 7 || q == 31 || q == 151
  {
  }

  lemma OneIsSmall(m: nat, q: nat)
    requires m * q == ORDER && m >= 182
    ensures q < 182
  {
    assert m * q >= 182 * q;
  }

  /** A proper divisor of 32767 divides 217, 1057 or 4681. */
  lemma ProperDivisor(m: nat) returns (k: nat)
    requires 0 < m < ORDER && ORDER % m == 0
    ensures m * k == 217 || m * k == 1057 || m * k == 4681
  {
    var q := ORDER / m;
    assert m * q == ORDER;
    if m < 182 {
      assert q * m == ORDER;
      SmallFactor(q, m);
      k := if m == 151 then 7 else 217 / m;
    } else {
      OneIsSmall(m, q);
      SmallFactor(m, q);
      k := 1;
    }
  }

  /** No fewer than 32767 steps bring a single bit back. */
  lemma NoShorterPeriod(n: nat)
    requires 0 < n < ORDER
    ensures ShiftN(1, n) != 1
  {
    if ShiftN(1, n) == 1 {
      var m := Smallest(n);
      SmallestDivides(m);
      var k := ProperDivisor(m);
      Multiples(m, k);
      Power217();
      Power1057();
      Power4681();
    }
  }

  /** So two single bits at different places of fewer than 32767 leave different registers. */
  lemma PowersDiffer(i: nat, j: nat)
    requires i < j < i + ORDER
    ensures ShiftN(1, i) != ShiftN(1, j)
  {
    hide ShiftN;
    if ShiftN(1, i) == ShiftN(1, j) {
      ShiftNAdd(1, j - i, i);
      ShiftNInjective(ShiftN(1, j - i), 1, i);
      NoShorterPeriod(j - i);
    }
  }
}
