/** The frame CRC keeps parity, because its generator has an even number of terms:
    no odd number of flipped bits survives it. */
module Crc16Parity {
  import opened Bytes
  import opened Crc16

  predicate OddBit(c: bv16) {
    c & 1 != 0
  }

  function Half(c: bv16): bv16 {
    c >> 1
  }

  /** Whether the low n bits of c hold an odd number of ones. */
  predicate OddOnes(c: bv16, n: nat) {
    if n == 0 then false else OddBit(c) != OddOnes(Half(c), n - 1)
  }

  /** The number of ones in the binary expansion of x. */
  function Ones(x: nat): nat {
    if x == 0 then 0 else x % 2 + Ones(x / 2)
  }

  function TotalOnes(data: seq<byte>): nat {
    if data == [] then 0 else TotalOnes(data[..|data| - 1]) + Ones(data[|data| - 1])
  }

  /** The register's parity is the parity of everything it has been fed. */
  lemma {:induction false} RunParity(c: bv16, data: seq<byte>)
    ensures OddOnes(Run(c, data), 16) == (OddOnes(c, 16) != (TotalOnes(data) % 2 == 1))
  {
    hide Xor, ShiftN, Bits, OddOnes, AtTop, Ones;
    if data != [] {
      var init, b := data[..|data| - 1], data[|data| - 1];
      var r := Run(c, init);
      RunParity(c, init);
      ShiftNParity(Xor(r, AtTop(Bits(b))), 8);
      OddOnesXor(r, AtTop(Bits(b)), 16);
      ByteParity(b);
    }
  }

  lemma ByteParity(b: byte)
    ensures OddOnes(AtTop(Bits(b)), 16) == (Ones(b) % 2 == 1)
  {
    hide ShiftN, Bits, OddOnes, AtTop;
    TurnByte(Bits(b));
    ShiftNParity(Wide(Bits(b)), 8);
    assert Pow2(8) == 0x100;
    BitsParity(b, 8);
    OddOnesShort(Wide(Bits(b)), 8, 8) by { ByteBelow(Bits(b)); }
  }

  lemma ByteBelow(b: bv8)
    ensures Below(Wide(b), 8)
  {
    var w := Wide(b);
    assert w >> 4 >> 4 == 0;
    assert Below(w >> 4 >> 4, 0);
    BelowFour(w >> 4, w >> 4 >> 4, 0);
    BelowFour(w, w >> 4, 4);
  }

  lemma {:induction false} BitsParity(x: nat, n: nat)
    requires n <= 8 && x < Pow2(n)
    ensures OddOnes(Wide(Bits(x)), n) == (Ones(x) % 2 == 1)
  {
    hide OddBit, Half, OddOnes, Ones, Bits, Pow2, Snoc, Wide;
    if x == 0 {
      ZeroParity(n);
    } else {
      var y, bit := Bits(x / 2), x % 2 == 1;
      HalfBelow(x, n);
      BitsParity(x / 2, n - 1);
      BitsTop(x / 2, n - 1);
      WideSnoc(y, bit);
      BitsStep(x);
      OddOnesStep(Wide(Bits(x)), n);
    }
  }

  lemma ZeroParity(n: nat)
    ensures !OddOnes(Wide(Bits(0)), n) && Ones(0) == 0
  {
    OddOnesZero(n);
  }

  lemma BitsStep(x: nat)
    requires x > 0
    ensures Bits(x) == Snoc(Bits(x / 2), x % 2 == 1)
    ensures (Ones(x) % 2 == 1) == ((x % 2 == 1) != (Ones(x / 2) % 2 == 1))
  {
    BitsUnfold(x);
    OnesUnfold(x);
    hide Bits, Ones, Snoc;
    AddBit(x % 2, Ones(x / 2), Ones(x));
  }

  lemma BitsUnfold(x: nat)
    requires x > 0
    ensures Bits(x) == Snoc(Bits(x / 2), x % 2 == 1)
  {
    hide Ones, Snoc;
  }

  lemma OnesUnfold(x: nat)
    requires x > 0
    ensures Ones(x) == x % 2 + Ones(x / 2)
  {
    hide Bits, Snoc;
  }

  lemma AddBit(bit: nat, n: nat, sum: nat)
    requires bit < 2 && sum == bit + n
    ensures (sum % 2 == 1) == ((bit == 1) != (n % 2 == 1))
  {
  }

  lemma OddOnesStep(c: bv16, n: nat)
    requires n > 0
    ensures OddOnes(c, n) == (OddBit(c) != OddOnes(Half(c), n - 1))
  {
  }

  lemma HalfBelow(x: nat, n: nat)
    requires 0 < x < Pow2(n)
    ensures n > 0 && x / 2 < Pow2(n - 1)
  {
  }

  lemma BitsTop(x: nat, n: nat)
    requires n <= 7 && x < Pow2(n)
    ensures Bits(x) & 0x80 == 0
  {
    hide Bits, Pow2;
    BitsShort(x, n);
    ShortMono(Bits(x), n, 7);
    ShortTop(Bits(x));
  }

  lemma WideSnoc(y: bv8, bit: bool)
    requires y & 0x80 == 0
    ensures OddBit(Wide(Snoc(y, bit))) == bit && Half(Wide(Snoc(y, bit))) == Wide(y)
  {
  }

  lemma {:induction false} ShiftNParity(c: bv16, n: nat)
    ensures OddOnes(ShiftN(c, n), 16) == OddOnes(c, 16)
  {
    hide Shift, OddOnes;
    if n > 0 {
      ShiftNParity(c, n - 1);
      ShiftParity(ShiftN(c, n - 1));
    }
  }

  lemma ShiftParity(c: bv16)
    ensures OddOnes(Shift(c), 16) == OddOnes(c, 16)
  {
    hide Xor, Shift, OddOnes;
    var d, t := SplitTop(c);
    ConstantParity();
    OddOnesZero(16);
    OddOnesXor(d, t, 16);
    TopBelow(d);
    OddOnesShort(d, 15, 1);
    DoubledParity(d);
    OddOnesXor(d << 1, 0, 16);
    OddOnesXor(d << 1, 0x1021, 16);
  }

  /** A lone top bit and the low half of the polynomial both have odd parity. */
  lemma ConstantParity()
    ensures OddOnes(0x8000, 16) && OddOnes(0x1021, 16)
  {
    OddOnesZero(3);
    assert OddOnes(1, 1) && OddOnes(1, 4);
    assert OddOnes(4, 3) && OddOnes(4, 6);
    assert OddOnes(0x10, 5) && OddOnes(0x10, 8);
    assert OddOnes(0x40, 7) && OddOnes(0x40, 10);
    assert OddOnes(0x100, 9) && !OddOnes(0x81, 11);
    assert OddOnes(0x400, 11) && !OddOnes(0x204, 13);
    assert OddOnes(0x1000, 13) && !OddOnes(0x810, 15);
    assert OddOnes(0x4000, 15);
  }

  lemma SplitTop(c: bv16) returns (d: bv16, t: bv16)
    ensures d & 0x8000 == 0 && c == Xor(d, t)
    ensures (t == 0 && Shift(c) == Xor(d << 1, 0)) || (t == 0x8000 && Shift(c) == Xor(d << 1, 0x1021))
  {
    ShiftBranches(c);
    hide Shift, Xor;
    if c & 0x8000 == 0 {
      d, t := c, 0;
      XorSelf(c, 0);
      XorSelf(c << 1, 0);
    } else {
      d, t := Xor(c, 0x8000), 0x8000;
      XorSelf(c, 0x8000);
      DropTop(c);
    }
  }

  lemma DropTop(c: bv16)
    requires c & 0x8000 != 0
    ensures var d := Xor(c, 0x8000); d & 0x8000 == 0 && Xor(d << 1, 0x1021) == (c << 1) ^ 0x1021
  {
    assert (c ^ 0x8000) << 1 == c << 1;
  }

  lemma TopBelow(d: bv16)
    requires d & 0x8000 == 0
    ensures Below(d, 15)
  {
    var a := d >> 4;
    var b := d >> 8;
    var c := d >> 12;
    assert c >> 1 >> 1 >> 1 == 0;
    assert Below(c >> 1 >> 1, 1);
    assert Below(c >> 1, 2);
    BelowFour(b, c, 3);
    BelowFour(a, b, 7);
    BelowFour(d, a, 11);
  }

  lemma BelowFour(c: bv16, d: bv16, n: nat)
    requires d == c >> 4 && Below(d, n)
    ensures Below(c, n + 4)
  {
    assert c >> 1 >> 1 >> 1 >> 1 == d;
    assert Below(c >> 1 >> 1 >> 1, n + 1);
    assert Below(c >> 1 >> 1, n + 2);
    assert Below(c >> 1, n + 3);
  }

  lemma DoubledParity(d: bv16)
    requires d & 0x8000 == 0
    ensures OddOnes(d << 1, 16) == OddOnes(d, 15)
  {
    assert (d << 1) >> 1 == d && (d << 1) & 1 == 0;
  }

  lemma {:induction false} OddOnesXor(a: bv16, b: bv16, n: nat)
    ensures OddOnes(Xor(a, b), n) == (OddOnes(a, n) != OddOnes(b, n))
    decreases n
  {
    hide Xor, OddBit, Half;
    if n > 0 {
      OddBitXor(a, b);
      HalfXor(a, b);
      OddOnesXor(Half(a), Half(b), n - 1);
    }
  }

  lemma OddBitXor(a: bv16, b: bv16)
    ensures OddBit(Xor(a, b)) == (OddBit(a) != OddBit(b))
  {
    assert (a ^ b) & 1 == (a & 1) ^ (b & 1);
    assert a & 1 == 0 || a & 1 == 1;
    assert b & 1 == 0 || b & 1 == 1;
  }

  lemma HalfXor(a: bv16, b: bv16)
    ensures Half(Xor(a, b)) == Xor(Half(a), Half(b))
  {
    assert (a ^ b) >> 1 == (a >> 1) ^ (b >> 1);
  }

  /** c uses only its low n bits. */
  predicate Below(c: bv16, n: nat) {
    if n == 0 then c == 0 else Below(Half(c), n - 1)
  }

  /** Bits that are not there do not count. */
  lemma {:induction false} OddOnesShort(c: bv16, n: nat, m: nat)
    requires Below(c, n)
    ensures OddOnes(c, n + m) == OddOnes(c, n)
    decreases n
  {
    hide OddBit, Half;
    if n == 0 {
      OddOnesZero(m);
    } else {
      OddOnesShort(Half(c), n - 1, m);
    }
  }

  lemma {:induction false} OddOnesZero(n: nat)
    ensures !OddOnes(0, n)
  {
    if n > 0 {
      OddOnesZero(n - 1);
    }
  }

  /** In how many bits two numbers differ. */
  function Flips(x: nat, y: nat): nat {
    if x == 0 && y == 0 then 0 else (if x % 2 != y % 2 then 1 else 0) + Flips(x / 2, y / 2)
  }

  function TotalFlips(d: seq<byte>, e: seq<byte>): nat
    requires |d| == |e|
  {
    if d == [] then 0 else
      TotalFlips(d[..|d| - 1], e[..|e| - 1]) + Flips(d[|d| - 1], e[|e| - 1])
  }

  lemma {:induction false} ByteFlips(x: nat, y: nat)
    ensures Flips(x, y) % 2 == (Ones(x) + Ones(y)) % 2
  {
    if x != 0 || y != 0 {
      ByteFlips(x / 2, y / 2);
      SumParity(if x % 2 != y % 2 then 1 else 0, x % 2, y % 2, Flips(x / 2, y / 2), Ones(x / 2), Ones(y / 2));
      assert Ones(x) == x % 2 + Ones(x / 2) && Ones(y) == y % 2 + Ones(y / 2);
    }
  }

  lemma SumParity(a: nat, p: nat, q: nat, b: nat, r: nat, s: nat)
    requires a % 2 == (p + q) % 2 && b % 2 == (r + s) % 2
    ensures (a + b) % 2 == (p + r + (q + s)) % 2
  {
  }

  lemma {:induction false} FlipsParity(d: seq<byte>, e: seq<byte>)
    requires |d| == |e|
    ensures TotalFlips(d, e) % 2 == (TotalOnes(d) + TotalOnes(e)) % 2
  {
    hide Ones, Flips;
    if d != [] {
      var d', e', x, y := d[..|d| - 1], e[..|e| - 1], d[|d| - 1], e[|e| - 1];
      FlipsParity(d', e');
      ByteFlips(x, y);
      SumParity(TotalFlips(d', e'), TotalOnes(d'), TotalOnes(e'), Flips(x, y), Ones(x), Ones(y));
    }
  }

  lemma InitParity()
    ensures !OddOnes(INIT, 16)
  {
    OddOnesZero(0);
    assert OddOnes(1, 1) && !OddOnes(3, 2);
    assert !OddOnes(0xF, 4);
    assert !OddOnes(0x3F, 6);
    assert !OddOnes(0xFF, 8);
    assert !OddOnes(0x3FF, 10);
    assert !OddOnes(0xFFF, 12);
    assert !OddOnes(0x3FFF, 14);
  }
}
