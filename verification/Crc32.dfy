/** The reflected CRC-32 (section 8 of RFC 1952) used for the history ring, firmware images and
    sample windows: it can be computed piecewise, and no change inside four bytes survives it. */
module Crc32 {
  import opened Bytes

  const INIT: bv32 := 0xFFFF_FFFF

  // ---------- the register

  predicate Odd(c: bv32) {
    c & 1 != 0
  }

  function Half(c: bv32): bv32 {
    c >> 1
  }

  function Feedback(bit: bool): bv32 {
    if bit then 0xEDB88320 else 0
  }

  /** One bit out at the bottom: shift, and subtract the polynomial if a one fell out. */
  function Shift(c: bv32): bv32 {
    Xor(Half(c), Feedback(Odd(c)))
  }

  function ShiftN(c: bv32, n: nat): bv32 {
    if n == 0 then c else Shift(ShiftN(c, n - 1))
  }

  function Xor(a: bv32, b: bv32): bv32 {
    a ^ b
  }

  function Wide(b: bv8): bv32 {
    b as bv32
  }

  function Turn(c: bv32): bv32 {
    ShiftN(c, 8)
  }

  function Feed(c: bv32, b: byte): bv32 {
    Turn(Xor(c, Wide(Bits(b))))
  }

  function Run(c: bv32, data: seq<byte>): bv32 {
    if data == [] then c else Feed(Run(c, data[..|data| - 1]), data[|data| - 1])
  }

  /** The CRC-32 of data: all ones in, complement out. */
  function Checksum(data: seq<byte>): bv32 {
    Complement(Run(INIT, data))
  }

  function Complement(c: bv32): bv32 {
    c ^ 0xFFFF_FFFF
  }

  /** The shared inner loops: fold length bytes into a running register. */
  method Update(crc0: bv32, data: array<byte>, length: nat) returns (crc: bv32)
    requires length <= data.Length
    ensures crc == Run(crc0, data[..length])
  {
    crc := crc0;
    for i := 0 to length
      invariant crc == Run(crc0, data[..i])
    {
      crc := crc ^ (Bits(data[i]) as bv32);
      ghost var mixed := crc;
      assert mixed == Xor(Run(crc0, data[..i]), Wide(Bits(data[i])));
      hide Shift, Xor;
      for j := 0 to 8
        invariant crc == ShiftN(mixed, j)
      {
        ShiftIsMasked(crc);
        crc := (crc >> 1) ^ (0xEDB88320 & (0 - (crc & 1)));
      }
      assert data[..i + 1][..i] == data[..i];
    }
  }

  method Calculate(data: array<byte>, length: nat) returns (crc: bv32)
    requires length <= data.Length
    ensures crc == Checksum(data[..length])
  {
    var register := Update(0xFFFF_FFFF, data, length);
    crc := register ^ 0xFFFF_FFFF;
  }

  /** Feeding a stream piece by piece gives the register of the whole stream. */
  lemma {:induction false} RunConcat(c: bv32, a: seq<byte>, b: seq<byte>)
    ensures Run(c, a + b) == Run(Run(c, a), b)
  {
    hide Feed;
    if b == [] {
      assert a + b == a;
    } else {
      RunConcat(c, a, b[..|b| - 1]);
      assert (a + b)[..|a + b| - 1] == a + b[..|b| - 1];
    }
  }

  // ---------- shifting is linear and loses nothing

  lemma ShiftIsMasked(c: bv32)
    ensures (c >> 1) ^ (0xEDB88320 & (0 - (c & 1))) == Shift(c)
  {
    if Odd(c) {
      assert c & 1 == 1;
      assert 0xEDB88320 & (0 - (c & 1)) == 0xEDB88320;
    } else {
      assert c & 1 == 0;
      assert 0xEDB88320 & (0 - (c & 1)) == 0;
    }
  }

  lemma ShiftInjective(a: bv32, b: bv32)
    requires Shift(a) == Shift(b)
    ensures a == b
  {
    hide Shift, Xor;
    ShiftLinear(a, b);
    XorSelf(Shift(a), 0);
    ShiftZero(Xor(a, b));
    XorSelf(a, b);
    XorSelf(b, 0);
    XorComm(0, b);
  }

  lemma ShiftZero(d: bv32)
    requires Shift(d) == 0
    ensures d == 0
  {
    if Odd(d) {
      TopOfHalf(d);
    } else {
      XorSelf(Half(d), 0);
      HalfZero(d);
    }
  }

  lemma TopOfHalf(d: bv32)
    ensures (d >> 1) ^ 0xEDB88320 != 0
  {
  }

  lemma HalfZero(d: bv32)
    requires d >> 1 == 0 && d & 1 == 0
    ensures d == 0
  {
  }

  lemma ShiftLinear(a: bv32, b: bv32)
    ensures Shift(Xor(a, b)) == Xor(Shift(a), Shift(b))
  {
    hide Xor, Half, Odd;
    HalfXor(a, b);
    OddXor(a, b);
    XorMedial(Half(a), Feedback(Odd(a)), Half(b), Feedback(Odd(b)));
    XorSelf(0xEDB88320, 0);
    XorSelf(0, 0);
    XorComm(0, 0xEDB88320);
  }

  lemma HalfXor(a: bv32, b: bv32)
    ensures Half(Xor(a, b)) == Xor(Half(a), Half(b))
  {
    assert (a ^ b) >> 1 == (a >> 1) ^ (b >> 1);
  }

  lemma OddXor(a: bv32, b: bv32)
    ensures Odd(Xor(a, b)) == (Odd(a) != Odd(b))
  {
    assert (a ^ b) & 1 == (a & 1) ^ (b & 1);
    assert a & 1 == 0 || a & 1 == 1;
    assert b & 1 == 0 || b & 1 == 1;
  }

  lemma {:induction false} ShiftNLinear(a: bv32, b: bv32, n: nat)
    ensures ShiftN(Xor(a, b), n) == Xor(ShiftN(a, n), ShiftN(b, n))
  {
    hide Shift, Xor;
    if n > 0 {
      ShiftNLinear(a, b, n - 1);
      ShiftLinear(ShiftN(a, n - 1), ShiftN(b, n - 1));
    }
  }

  lemma {:induction false} ShiftNInjective(a: bv32, b: bv32, n: nat)
    requires ShiftN(a, n) == ShiftN(b, n)
    ensures a == b
  {
    hide Shift;
    if n > 0 {
      ShiftInjective(ShiftN(a, n - 1), ShiftN(b, n - 1));
      ShiftNInjective(a, b, n - 1);
    }
  }

  lemma XorSelf(a: bv32, b: bv32)
    ensures Xor(Xor(a, b), b) == a && Xor(a, a) == 0 && Xor(a, 0) == a
  {
    assert (a ^ b) ^ b == a && a ^ a == 0;
  }

  lemma XorComm(a: bv32, b: bv32)
    ensures Xor(a, b) == Xor(b, a)
  {
    assert a ^ b == b ^ a;
  }

  lemma XorAssoc(a: bv32, b: bv32, c: bv32)
    ensures Xor(Xor(a, b), c) == Xor(a, Xor(b, c))
  {
    assert (a ^ b) ^ c == a ^ (b ^ c);
  }

  lemma XorMedial(a: bv32, b: bv32, c: bv32, d: bv32)
    ensures Xor(Xor(a, b), Xor(c, d)) == Xor(Xor(a, c), Xor(b, d))
  {
    hide Xor;
    XorAssoc(a, b, Xor(c, d));
    XorAssoc(b, c, d);
    XorComm(b, c);
    XorAssoc(c, b, d);
    XorAssoc(a, c, Xor(b, d));
  }

  lemma XorCancel(c: bv32, x: bv32, y: bv32)
    requires Xor(c, x) == Xor(c, y)
    ensures x == y
  {
    hide Xor;
    XorComm(c, x);
    XorComm(c, y);
    XorSelf(x, c);
    XorSelf(y, c);
  }

  lemma {:induction false} RunInjective(c: bv32, d: bv32, data: seq<byte>)
    requires Run(c, data) == Run(d, data)
    ensures c == d
  {
    hide Xor, ShiftN, Wide;
    if data != [] {
      var init, b := data[..|data| - 1], Wide(Bits(data[|data| - 1]));
      var x, y := Run(c, init), Run(d, init);
      ShiftNInjective(Xor(x, b), Xor(y, b), 8);
      XorSelf(x, b);
      XorSelf(y, b);
      RunInjective(c, d, init);
    }
  }

  // ---------- four bytes act as one word

  function Double(c: bv32): bv32 {
    c << 1
  }

  function Up(c: bv32, n: nat): bv32 {
    if n == 0 then c else Double(Up(c, n - 1))
  }

  /** Byte b goes next; w waits above it. */
  function Stack(b: bv8, w: bv32): bv32 {
    Xor(Wide(b), Up(w, 8))
  }

  function Limit(n: nat): bv32 {
    if n == 0 then 0xFF_FFFF else (Limit(n - 1) << 1) | 1
  }

  lemma {:induction false} UpBelow(c: bv32, n: nat)
    requires c <= 0xFF_FFFF && n <= 7
    ensures Up(c, n) <= Limit(n) <= 0x7FFF_FFFF
  {
    if n > 0 {
      UpBelow(c, n - 1);
    }
    assert Limit(7) == 0x7FFF_FFFF;
  }

  lemma ShiftDouble(c: bv32)
    requires c <= 0x7FFF_FFFF
    ensures Shift(Double(c)) == c
  {
    HalfDouble(c);
    EvenDouble(c);
    hide Half, Odd, Double, Xor;
    XorSelf(c, 0);
  }

  lemma HalfDouble(c: bv32)
    requires c <= 0x7FFF_FFFF
    ensures Half(Double(c)) == c
  {
  }

  lemma EvenDouble(c: bv32)
    ensures !Odd(Double(c))
  {
    assert (c << 1) & 1 == 0;
  }

  /** Shifting brings a value back down unchanged while only zeros fall out. */
  lemma {:induction false} ShiftNUp(c: bv32, n: nat)
    requires c <= 0xFF_FFFF && n <= 8
    ensures ShiftN(Up(c, n), n) == c
  {
    hide Shift, Double, Limit;
    if n > 0 {
      UpBelow(c, n - 1);
      ShiftDouble(Up(c, n - 1));
      ShiftNFirst(Up(c, n), n);
      ShiftNUp(c, n - 1);
    }
  }

  lemma {:induction false} ShiftNFirst(c: bv32, n: nat)
    requires 0 < n
    ensures ShiftN(c, n) == ShiftN(Shift(c), n - 1)
  {
    hide Shift;
    if n > 1 {
      ShiftNFirst(c, n - 1);
    }
  }

  /** Adding a value that waits above the register's low byte, before or after the turn. */
  lemma TurnAdd(c: bv32, w: bv32)
    requires w <= 0xFF_FFFF
    ensures Xor(Turn(c), w) == Turn(Xor(c, Up(w, 8)))
  {
    hide Xor, ShiftN, Up;
    ShiftNLinear(c, Up(w, 8), 8);
    ShiftNUp(w, 8);
  }

  lemma UpUnfold(c: bv32, n: nat)
    ensures Up(c, 0) == c && Up(c, n + 1) == Double(Up(c, n))
  {
  }

  lemma UpEight(c: bv32)
    ensures Up(c, 8) == c << 8
  {
    hide Up, Double;
    UpUnfold(c, 0);
    UpUnfold(c, 1);
    UpUnfold(c, 2);
    UpUnfold(c, 3);
    UpUnfold(c, 4);
    UpUnfold(c, 5);
    UpUnfold(c, 6);
    UpUnfold(c, 7);
    DoubleEight(c);
  }

  lemma DoubleEight(c: bv32)
    ensures Double(Double(Double(Double(Double(Double(Double(Double(c)))))))) == c << 8
  {
  }

  lemma StackIsOr(b: bv8, w: bv32)
    requires w <= 0xFF_FFFF
    ensures Stack(b, w) == Wide(b) | (w << 8)
  {
    hide Up;
    UpEight(w);
    assert (b as bv32) ^ (w << 8) == (b as bv32) | (w << 8);
  }

  lemma StackBelow(b: bv8, w: bv32)
    requires w <= 0xFFFF
    ensures Stack(b, w) <= 0xFF_FFFF
    ensures w <= 0xFF ==> Stack(b, w) <= 0xFFFF
    ensures w == 0 ==> Stack(b, w) <= 0xFF
  {
    hide Stack;
    StackIsOr(b, w);
  }

  lemma StackInjective(b: bv8, w: bv32, b': bv8, w': bv32)
    requires w <= 0xFF_FFFF && w' <= 0xFF_FFFF
    requires Stack(b, w) == Stack(b', w')
    ensures b == b' && w == w'
  {
    hide Stack;
    StackIsOr(b, w);
    StackIsOr(b', w');
    OrParts(b, w);
    OrParts(b', w');
  }

  lemma OrParts(b: bv8, w: bv32)
    requires w <= 0xFF_FFFF
    ensures var x := Wide(b) | (w << 8); x >> 8 == w && (x & 0xFF) as bv8 == b
  {
  }

  lemma FeedStack(c: bv32, b: bv8, w: bv32)
    requires w <= 0xFF_FFFF
    ensures Turn(Xor(c, Stack(b, w))) == Xor(Turn(Xor(c, Wide(b))), w)
  {
    hide Xor, Wide, Up, ShiftN;
    XorAssoc(c, Wide(b), Up(w, 8));
    TurnAdd(Xor(c, Wide(b)), w);
  }

  /** At most four bytes, each above the one before it. */
  function Word(d: seq<byte>): bv32 {
    if d == [] then 0 else Stack(Bits(d[0]), Word(d[1..]))
  }

  function Cap(n: nat): bv32 {
    if n == 0 then 0 else if n == 1 then 0xFF else if n == 2 then 0xFFFF else 0xFF_FFFF
  }

  lemma {:induction false} WordBelow(d: seq<byte>)
    requires |d| <= 3
    ensures Word(d) <= Cap(|d|) <= 0xFF_FFFF
  {
    hide Stack, Bits;
    if d != [] {
      WordBelow(d[1..]);
      StackBelow(Bits(d[0]), Word(d[1..]));
    }
  }

  /** Up to four bytes after register c act as one word. */
  lemma {:induction false} RunWord(c: bv32, d: seq<byte>)
    requires |d| <= 4
    ensures Run(c, d) == ShiftN(Xor(c, Word(d)), 8 * |d|)
    decreases d
  {
    if d == [] {
      XorSelf(c, 0);
    } else {
      var b, rest := d[0], d[1..];
      assert d == [b] + rest;
      RunConcat(c, [b], rest);
      assert Run(c, [b]) == Feed(c, b) by { assert [b][..0] == []; }
      WordBelow(rest);
      hide Xor, Wide, ShiftN, Bits, Stack, Run, Cap;
      RunWord(Feed(c, b), rest);
      FeedStack(c, Bits(b), Word(rest));
      ShiftNAdd(Xor(c, Word(d)), 8, 8 * |rest|);
    }
  }

  lemma {:induction false} ShiftNAdd(c: bv32, m: nat, n: nat)
    ensures ShiftN(ShiftN(c, m), n) == ShiftN(c, m + n)
  {
    hide Shift;
    if n > 0 {
      ShiftNAdd(c, m, n - 1);
    }
  }

  lemma {:induction false} WordInjective(d: seq<byte>, e: seq<byte>)
    requires |d| == |e| <= 4 && Word(d) == Word(e)
    ensures d == e
  {
    if d != [] {
      WordBelow(d[1..]);
      WordBelow(e[1..]);
      hide Stack, Bits, Number, Cap;
      StackInjective(Bits(d[0]), Word(d[1..]), Bits(e[0]), Word(e[1..]));
      NumberOfBits(d[0]);
      NumberOfBits(e[0]);
      WordInjective(d[1..], e[1..]);
      assert d == [d[0]] + d[1..] && e == [e[0]] + e[1..];
    }
  }

  /** No change confined to four consecutive bytes leaves the checksum alone. */
  lemma ChangeDetected(p: seq<byte>, m: seq<byte>, m': seq<byte>, t: seq<byte>)
    requires |m| == |m'| <= 4 && m != m'
    ensures Checksum(p + m + t) != Checksum(p + m' + t)
  {
    hide Run, Complement, Xor, ShiftN, Word;
    var c := Run(INIT, p);
    RunConcat(INIT, p + m, t);
    RunConcat(INIT, p, m);
    RunConcat(INIT, p + m', t);
    RunConcat(INIT, p, m');
    if Checksum(p + m + t) == Checksum(p + m' + t) {
      ComplementInjective(Run(INIT, p + m + t), Run(INIT, p + m' + t));
      RunInjective(Run(c, m), Run(c, m'), t);
      RunWord(c, m);
      RunWord(c, m');
      ShiftNInjective(Xor(c, Word(m)), Xor(c, Word(m')), 8 * |m|);
      XorCancel(c, Word(m), Word(m'));
      WordInjective(m, m');
    }
  }

  lemma ComplementInjective(a: bv32, b: bv32)
    requires Complement(a) == Complement(b)
    ensures a == b
  {
    assert (a ^ 0xFFFF_FFFF) ^ 0xFFFF_FFFF == a;
    assert (b ^ 0xFFFF_FFFF) ^ 0xFFFF_FFFF == b;
  }

  // ---------- stored checksums

  function LowByte(c: bv32): bv8 {
    (c & 0xFF) as bv8
  }

  function UpperBytes(c: bv32): bv32 {
    c >> 8
  }

  /** The low n bytes of c as stored, lowest first. */
  function FieldBytes(c: bv32, n: nat): (s: seq<byte>)
    ensures |s| == n
    decreases n
  {
    if n == 0 then [] else
      NumberIsByte(LowByte(c));
      [Number(LowByte(c)) as byte] + FieldBytes(UpperBytes(c), n - 1)
  }

  /** The four bytes a checksum is stored as. */
  function Field(c: bv32): (s: seq<byte>)
    ensures |s| == 4
  {
    FieldBytes(c, 4)
  }

  lemma FieldSpells(c: bv32)
    ensures Word(Field(c)) == c
  {
    FourBytes(c);
    FieldBytesSpell(c, 4);
  }

  predicate Fits(c: bv32, n: nat)
    decreases n
  {
    if n == 0 then c == 0 else Fits(UpperBytes(c), n - 1)
  }

  lemma {:induction false} FieldBytesSpell(c: bv32, n: nat)
    requires Fits(c, n)
    ensures Word(FieldBytes(c, n)) == c
    decreases n
  {
    hide Stack, Bits, Number, LowByte, UpperBytes;
    if n > 0 {
      FieldBytesSpell(UpperBytes(c), n - 1);
      assert FieldBytes(c, n)[1..] == FieldBytes(UpperBytes(c), n - 1);
      BitsOfNumber(LowByte(c));
      StackOfParts(c);
    }
  }

  lemma StackOfParts(c: bv32)
    ensures Stack(LowByte(c), UpperBytes(c)) == c
  {
    UpperBelow(c);
    StackIsOr(LowByte(c), UpperBytes(c));
    Reassembled(c);
  }

  lemma UpperBelow(c: bv32)
    ensures UpperBytes(c) <= 0xFF_FFFF
  {
  }

  lemma Reassembled(c: bv32)
    ensures Wide(LowByte(c)) | (UpperBytes(c) << 8) == c
  {
  }

  lemma FourBytes(c: bv32)
    ensures Fits(c, 4)
  {
    var d := UpperBytes(UpperBytes(c));
    assert UpperBytes(UpperBytes(d)) == 0;
    assert Fits(UpperBytes(UpperBytes(d)), 0);
    assert Fits(UpperBytes(d), 1);
    assert Fits(d, 2);
    assert Fits(UpperBytes(c), 3);
  }
}
