/** Two flipped bits of a frame: each leaves a power of x in the register, and two different powers
    never cancel within a frame. */
module Crc16Flips {
  import opened Bytes
  import opened Crc16
  import opened Crc16Parity
  import opened Crc16Order
  import Crc16Burst

  /** How far two registers are apart. */
  function Apart(c: bv16, d: seq<byte>, e: seq<byte>): bv16 {
    Xor(Run(c, d), Run(c, e))
  }

  /** Where two bytes differ. */
  function Where(x: byte, y: byte): bv8 {
    Crc16Burst.Xor8(Bits(x), Bits(y))
  }

  function OneBit(k: nat): bv8 {
    if k == 0 then 1 else OneBit(k - 1) << 1
  }

  // ---------- one byte

  /** Bytes that differ in no bit are equal; bytes that differ in one differ at some place. */
  lemma {:induction false} FlipPlace(x: nat, y: nat, n: nat) returns (k: nat)
    requires n <= 8 && x < Pow2(n) && y < Pow2(n) && Flips(x, y) <= 1
    ensures Flips(x, y) == 0 ==> x == y
    ensures Flips(x, y) == 1 ==> k < n && Crc16Burst.Xor8(Bits(x), Bits(y)) == OneBit(k)
  {
    k := 0;
    if x != 0 || y != 0 {
      HalvesBelow(x, y, n);
      var j := FlipPlace(x / 2, y / 2, n - 1);
      var a, b := Bits(x / 2), Bits(y / 2);
      SnocOf(x);
      SnocOf(y);
      SnocDiffers(a, x % 2 == 1, b, y % 2 == 1);
      FlipsUnfold(x, y);
      hide Bits, Snoc, Crc16Burst.Xor8, Flips, Pow2;
      if x % 2 == y % 2 {
        if Flips(x, y) == 1 {
          k := j + 1;
        } else {
          SameHalves(x, y);
        }
      } else {
        XorSame(a);
      }
    }
  }

  lemma HalvesBelow(x: nat, y: nat, n: nat)
    requires x < Pow2(n) && y < Pow2(n) && (x != 0 || y != 0)
    ensures n > 0 && x / 2 < Pow2(n - 1) && y / 2 < Pow2(n - 1)
  {
  }

  lemma SnocOf(x: nat)
    ensures Bits(x) == Snoc(Bits(x / 2), x % 2 == 1)
  {
    if x == 0 {
      assert Snoc(0, false) == 0;
    }
  }

  lemma FlipsUnfold(x: nat, y: nat)
    requires x != 0 || y != 0
    ensures Flips(x, y) == (if x % 2 != y % 2 then 1 else 0) + Flips(x / 2, y / 2)
  {
  }

  lemma SameHalves(x: nat, y: nat)
    requires x / 2 == y / 2 && x % 2 == y % 2
    ensures x == y
  {
  }

  lemma SnocDiffers(a: bv8, s: bool, b: bv8, t: bool)
    ensures s == t ==> Crc16Burst.Xor8(Snoc(a, s), Snoc(b, t)) == Crc16Burst.Xor8(a, b) << 1
    ensures s != t && a == b ==> Crc16Burst.Xor8(Snoc(a, s), Snoc(b, t)) == 1
  {
  }

  lemma XorSame(a: bv8)
    ensures Crc16Burst.Xor8(a, a) == 0
  {
  }

  // ---------- what a single bit leaves

  lemma OneBits()
    ensures OneBit(0) == 0x1 && OneBit(1) == 0x2 && OneBit(2) == 0x4 && OneBit(3) == 0x8
    ensures OneBit(4) == 0x10 && OneBit(5) == 0x20 && OneBit(6) == 0x40 && OneBit(7) == 0x80
  {
    assert OneBit(3) == 0x8;
    assert OneBit(5) == 0x20;
  }

  lemma {:induction false} WideIsPower(k: nat)
    requires k < 8
    ensures Wide(OneBit(k)) == ShiftN(1, k)
  {
    if k > 0 {
      WideIsPower(k - 1);
      OneBits();
      hide OneBit, ShiftN;
      NotTop(k - 1);
      WideShift(OneBit(k - 1));
      ShiftNStep(1, k - 1);
      NextBit(k);
    } else {
      ShiftNStep(1, 0);
    }
  }

  lemma NextBit(k: nat)
    requires k > 0
    ensures OneBit(k) == OneBit(k - 1) << 1
  {
  }

  lemma NotTop(k: nat)
    requires k < 7
    ensures OneBit(k) & 0x80 == 0
  {
    OneBits();
    hide OneBit;
    assert k == 0 || k == 1 || k == 2 || k == 3 || k == 4 || k == 5 || k == 6;
  }

  lemma WideShift(b: bv8)
    requires b & 0x80 == 0
    ensures Shift(Wide(b)) == Wide(b << 1)
  {
  }

  /** A single bit in the last byte. */
  lemma LastBit(k: nat)
    requires k < 8
    ensures AtTop(OneBit(k)) == ShiftN(1, k + 8)
  {
    hide ShiftN, AtTop, Wide;
    WideIsPower(k);
    TurnByte(OneBit(k));
    ShiftNAdd(1, k, 8);
  }

  // ---------- a whole byte string

  lemma AtTopXor(u: bv8, v: bv8)
    ensures AtTop(Crc16Burst.Xor8(u, v)) == Xor(AtTop(u), AtTop(v))
  {
    assert ((u ^ v) as bv16) << 8 == ((u as bv16) << 8) ^ ((v as bv16) << 8);
  }

  lemma ApartStep(c: bv16, d: seq<byte>, e: seq<byte>)
    requires |d| == |e| > 0
    ensures
      var n := |d| - 1;
      Apart(c, d, e) == Turn(Xor(Apart(c, d[..n], e[..n]), AtTop(Where(d[n], e[n]))))
  {
    hide Xor, Crc16Burst.Xor8, AtTop, ShiftN, Bits;
    var n := |d| - 1;
    var r, s, u, v := Run(c, d[..n]), Run(c, e[..n]), AtTop(Bits(d[n])), AtTop(Bits(e[n]));
    AtTopXor(Bits(d[n]), Bits(e[n]));
    ShiftNLinear(Xor(r, u), Xor(s, v), 8);
    XorMedial(r, u, s, v);
  }

  lemma TurnZero(c: bv16)
    ensures Turn(c) == 0 <==> c == 0
  {
    hide Shift;
    ShiftNZero(8);
    if Turn(c) == 0 {
      ShiftNInjective(c, 0, 8);
    }
  }

  lemma AddNothing(x: byte, y: byte, a: bv16)
    requires x == y
    ensures Xor(a, AtTop(Where(x, y))) == a
  {
    hide AtTop, Xor;
    XorSame(Bits(x));
    assert AtTop(0) == 0 by { TopOfNothing(); }
    XorSelf(a, 0);
  }

  lemma TopOfNothing()
    ensures AtTop(0) == 0
  {
  }

  lemma {:induction false} NoFlip(c: bv16, d: seq<byte>, e: seq<byte>)
    requires |d| == |e| && TotalFlips(d, e) == 0
    ensures d == e && Apart(c, d, e) == 0
  {
    hide Xor, Flips;
    if d != [] {
      var n := |d| - 1;
      NoFlip(c, d[..n], e[..n]);
      assert Pow2(8) == 0x100;
      var _ := FlipPlace(d[n], e[n], 8);
      assert d == d[..n] + [d[n]] && e == e[..n] + [e[n]];
    }
    XorSelf(Run(c, d), 0);
  }

  /** One flip leaves a power of x. */
  lemma {:induction false} OneFlip(c: bv16, d: seq<byte>, e: seq<byte>) returns (m: nat)
    requires |d| == |e| && TotalFlips(d, e) == 1
    ensures 16 <= m < 16 + 8 * |d| && Apart(c, d, e) == ShiftN(1, m)
  {
    var n := |d| - 1;
    var d', e', x, y := d[..n], e[..n], d[n], e[n];
    assert Pow2(8) == 0x100;
    ApartStep(c, d, e);
    hide Xor, Flips, ShiftN, AtTop, Apart, Where, Pow2;
    var k := FlipPlace(x, y, 8);
    if Flips(x, y) == 0 {
      var m' := OneFlip(c, d', e');
      AddNothing(x, y, Apart(c, d', e'));
      ShiftNAdd(1, m', 8);
      m := m' + 8;
    } else {
      NoFlip(c, d', e');
      WhereIs(x, y, k);
      LastBit(k);
      XorZeroLeft(ShiftN(1, k + 8));
      ShiftNAdd(1, k + 8, 8);
      m := k + 16;
    }
  }

  lemma WhereIs(x: byte, y: byte, k: nat)
    requires Crc16Burst.Xor8(Bits(x), Bits(y)) == OneBit(k)
    ensures Where(x, y) == OneBit(k)
  {
  }

  lemma XorZeroLeft(a: bv16)
    ensures Xor(0, a) == a
  {
    XorComm(0, a);
    XorSelf(a, 0);
  }

  /** Two flips of a string of up to 4094 bytes leave the registers apart. */
  lemma {:induction false} TwoFlips(c: bv16, d: seq<byte>, e: seq<byte>)
    requires |d| == |e| && TotalFlips(d, e) == 2 && 16 + 8 * |d| < ORDER
    ensures Apart(c, d, e) != 0
  {
    var n := |d| - 1;
    var d', e', x, y := d[..n], e[..n], d[n], e[n];
    assert Pow2(8) == 0x100;
    ApartStep(c, d, e);
    TurnZero(Xor(Apart(c, d', e'), AtTop(Where(x, y))));
    hide Xor, Flips, ShiftN, AtTop, Apart, Where, Pow2;
    if Flips(x, y) == 0 {
      var _ := FlipPlace(x, y, 8);
      TwoFlips(c, d', e');
      AddNothing(x, y, Apart(c, d', e'));
    } else if Flips(x, y) == 1 {
      var k := FlipPlace(x, y, 8);
      var m := OneFlip(c, d', e');
      WhereIs(x, y, k);
      LastBit(k);
      PowersDiffer(k + 8, m);
      ApartNotZero(ShiftN(1, m), ShiftN(1, k + 8));
    } else {
      NoFlip(c, d', e');
      XorZeroLeft(AtTop(Where(x, y)));
      WhereNotZero(x, y);
    }
  }

  lemma ApartNotZero(a: bv16, b: bv16)
    requires a != b
    ensures Xor(a, b) != 0
  {
    if Xor(a, b) == 0 {
      XorZero(a, b);
    }
  }

  lemma WhereNotZero(x: byte, y: byte)
    requires Flips(x, y) > 0
    ensures AtTop(Where(x, y)) != 0
  {
    if AtTop(Where(x, y)) == 0 {
      TopZero(Bits(x), Bits(y));
      hide Bits, Number;
      NumberOfBits(x);
      NumberOfBits(y);
      SameNoFlip(x);
    }
  }

  lemma TopZero(u: bv8, v: bv8)
    requires AtTop(Crc16Burst.Xor8(u, v)) == 0
    ensures u == v
  {
  }

  lemma {:induction false} SameNoFlip(x: nat)
    ensures Flips(x, x) == 0
  {
    if x != 0 {
      SameNoFlip(x / 2);
    }
  }
}
