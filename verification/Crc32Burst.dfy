/** The CRC-32 bit by bit: no change confined to 32 consecutive bits, wherever they lie, goes unnoticed. */
module Crc32Burst {
  import opened Bytes
  import opened Crc32

  // ---------- bits in the order the register takes them

  /** The low n bits of x, lowest first. */
  function BitList(x: nat, n: nat): (s: seq<bool>)
    ensures |s| == n
    decreases n
  {
    if n == 0 then [] else [x % 2 == 1] + BitList(x / 2, n - 1)
  }

  function ToBits(data: seq<byte>): (s: seq<bool>)
    ensures |s| == 8 * |data|
  {
    if data == [] then [] else ToBits(data[..|data| - 1]) + BitList(data[|data| - 1], 8)
  }

  function Bit(b: bool): bv32 {
    if b then 1 else 0
  }

  function FeedBit(c: bv32, b: bool): bv32 {
    Shift(Xor(c, Bit(b)))
  }

  function RunBits(c: bv32, bits: seq<bool>): bv32
    decreases bits
  {
    if bits == [] then c else RunBits(FeedBit(c, bits[0]), bits[1..])
  }

  /** Bit b goes next; w waits above it. */
  function Link(b: bool, w: bv32): bv32 {
    Xor(Bit(b), Double(w))
  }

  /** At most 32 bits as one word. */
  function WordOf(bits: seq<bool>): bv32
    decreases bits
  {
    if bits == [] then 0 else Link(bits[0], WordOf(bits[1..]))
  }

  // ---------- up to 32 bits act as one word

  /** w uses only its low n bits. */
  predicate Low(w: bv32, n: nat)
    decreases n
  {
    if n == 0 then w == 0 else Low(Half(w), n - 1)
  }

  lemma {:induction false} LowMono(w: bv32, m: nat, n: nat)
    requires Low(w, m) && m <= n
    ensures Low(w, n)
    decreases m, n
  {
    if m > 0 {
      LowMono(Half(w), m - 1, n - 1);
    } else if n > 0 {
      HalfOfZero();
      LowMono(Half(w), 0, n - 1);
    }
  }

  lemma HalfOfZero()
    ensures Half(0) == 0
  {
  }

  lemma LowFour(w: bv32, n: nat)
    requires Low(w, n + 4)
    ensures Low(w >> 4, n)
  {
    FourHalves(w);
    hide Half, Low;
    LowStep(w, n + 3);
    LowStep(Half(w), n + 2);
    LowStep(Half(Half(w)), n + 1);
    LowStep(Half(Half(Half(w))), n);
  }

  lemma LowStep(w: bv32, n: nat)
    requires Low(w, n + 1)
    ensures Low(Half(w), n)
  {
    hide Half;
  }

  lemma FourHalves(w: bv32)
    ensures Half(Half(Half(Half(w)))) == w >> 4
  {
  }

  lemma LowTop(w: bv32)
    requires Low(w, 31)
    ensures w <= 0x7FFF_FFFF
  {
    LowFour(w, 27);
    var a := w >> 4;
    LowFour(a, 23);
    var b := a >> 4;
    LowFour(b, 19);
    var c := b >> 4;
    LowFour(c, 15);
    var d := c >> 4;
    LowFour(d, 11);
    var e := d >> 4;
    LowFour(e, 7);
    var f := e >> 4;
    LowFour(f, 3);
    var g := f >> 4;
    assert Low(Half(Half(Half(g))), 0);
    Assembled(w);
  }

  lemma Assembled(w: bv32)
    requires w >> 4 >> 4 >> 4 >> 4 >> 4 >> 4 >> 4 >> 1 >> 1 >> 1 == 0
    ensures w <= 0x7FFF_FFFF
  {
  }

  lemma LinkParts(b: bool, w: bv32)
    requires w <= 0x7FFF_FFFF
    ensures Half(Link(b, w)) == w && (Crc32.Odd(Link(b, w)) <==> b)
  {
    HalfDouble(w);
    EvenDouble(w);
    BitParts(b);
    hide Xor, Half, Crc32.Odd, Bit, Double;
    HalfXor(Bit(b), Double(w));
    OddXor(Bit(b), Double(w));
    XorComm(0, w);
    XorSelf(w, 0);
  }

  lemma BitParts(b: bool)
    ensures Half(Bit(b)) == 0 && (Crc32.Odd(Bit(b)) <==> b)
  {
  }

  lemma {:induction false} WordLow(bits: seq<bool>)
    requires |bits| <= 32
    ensures Low(WordOf(bits), |bits|)
    decreases bits, 0
  {
    if bits != [] {
      WordFits(bits[1..]);
      hide Half, Link;
      LinkParts(bits[0], WordOf(bits[1..]));
    }
  }

  /** Up to 31 bits leave room for one below them. */
  lemma {:induction false} WordFits(bits: seq<bool>)
    requires |bits| <= 31
    ensures Low(WordOf(bits), |bits|) && WordOf(bits) <= 0x7FFF_FFFF
    decreases bits, 1
  {
    WordLow(bits);
    hide Low, WordOf;
    LowMono(WordOf(bits), |bits|, 31);
    LowTop(WordOf(bits));
  }

  lemma {:induction false} WordInjective(a: seq<bool>, b: seq<bool>)
    requires |a| == |b| <= 32 && WordOf(a) == WordOf(b)
    ensures a == b
    decreases a
  {
    if a != [] {
      WordFits(a[1..]);
      WordFits(b[1..]);
      hide Half, Crc32.Odd, Link, Low;
      LinkParts(a[0], WordOf(a[1..]));
      LinkParts(b[0], WordOf(b[1..]));
      WordInjective(a[1..], b[1..]);
      assert a == [a[0]] + a[1..] && b == [b[0]] + b[1..];
    }
  }

  /** Feeding up to 32 bits is adding them as a word and shifting it through. */
  lemma {:induction false} RunBitsWord(c: bv32, bits: seq<bool>)
    requires |bits| <= 32
    ensures RunBits(c, bits) == ShiftN(Xor(c, WordOf(bits)), |bits|)
    decreases bits
  {
    if bits == [] {
      XorSelf(c, 0);
    } else {
      var b, w := bits[0], WordOf(bits[1..]);
      RunBitsWord(FeedBit(c, b), bits[1..]);
      WordFits(bits[1..]);
      FeedLink(c, b, w);
      ShiftNFirst(Xor(c, WordOf(bits)), |bits|);
      hide Xor, Shift, ShiftN, Low;
    }
  }

  lemma FeedLink(c: bv32, b: bool, w: bv32)
    requires w <= 0x7FFF_FFFF
    ensures Shift(Xor(c, Link(b, w))) == Xor(FeedBit(c, b), w)
  {
    ShiftDouble(w);
    hide Xor, Shift, Double, Bit;
    XorAssoc(c, Bit(b), Double(w));
    ShiftLinear(Xor(c, Bit(b)), Double(w));
  }

  // ---------- bytes as bits

  lemma {:induction false} BitsAreWord(x: nat, n: nat)
    requires n <= 8 && x < Pow2(n)
    ensures WordOf(BitList(x, n)) == Wide(Bits(x))
    decreases n
  {
    if n > 0 {
      HalfFits(x, n);
      BitsAreWord(x / 2, n - 1);
      assert BitList(x, n)[1..] == BitList(x / 2, n - 1);
      TopFree(x / 2, n - 1);
      SnocUnfold(x);
      hide Bits, Snoc, Link, Wide, Pow2;
      LinkIsSnoc(x % 2 == 1, Bits(x / 2));
    }
  }

  lemma HalfFits(x: nat, n: nat)
    requires n > 0 && x < Pow2(n)
    ensures x / 2 < Pow2(n - 1)
  {
  }

  lemma SnocUnfold(x: nat)
    ensures Bits(x) == Snoc(Bits(x / 2), x % 2 == 1)
  {
    if x == 0 {
      assert Snoc(0, false) == 0;
    }
  }

  lemma TopFree(x: nat, n: nat)
    requires n <= 7 && x < Pow2(n)
    ensures Bits(x) & 0x80 == 0
  {
    hide Bits, Pow2;
    BitsShort(x, n);
    ShortMono(Bits(x), n, 7);
    ShortTop(Bits(x));
  }

  lemma LinkIsSnoc(bit: bool, y: bv8)
    requires y & 0x80 == 0
    ensures Wide(Snoc(y, bit)) == Link(bit, Wide(y))
  {
  }

  lemma ByteAsBits(c: bv32, b: byte)
    ensures RunBits(c, BitList(b, 8)) == Feed(c, b)
  {
    assert Pow2(8) == 0x100;
    BitsAreWord(b, 8);
    RunBitsWord(c, BitList(b, 8));
  }

  lemma {:induction false} RunBitsConcat(c: bv32, a: seq<bool>, b: seq<bool>)
    ensures RunBits(c, a + b) == RunBits(RunBits(c, a), b)
    decreases a
  {
    hide FeedBit;
    if a == [] {
      assert a + b == b;
    } else {
      RunBitsConcat(FeedBit(c, a[0]), a[1..], b);
      assert (a + b)[1..] == a[1..] + b;
    }
  }

  lemma {:induction false} RunAsBits(c: bv32, data: seq<byte>)
    ensures RunBits(c, ToBits(data)) == Run(c, data)
  {
    hide Feed, BitList, RunBits;
    if data == [] {
      NoBits(c);
    } else {
      var n := |data| - 1;
      RunAsBits(c, data[..n]);
      RunBitsConcat(c, ToBits(data[..n]), BitList(data[n], 8));
      ByteAsBits(Run(c, data[..n]), data[n]);
    }
  }

  lemma NoBits(c: bv32)
    ensures RunBits(c, []) == c
  {
  }

  lemma {:induction false} RunBitsInjective(c: bv32, d: bv32, bits: seq<bool>)
    requires RunBits(c, bits) == RunBits(d, bits)
    ensures c == d
    decreases bits
  {
    hide Xor, Shift, Bit;
    if bits != [] {
      RunBitsInjective(FeedBit(c, bits[0]), FeedBit(d, bits[0]), bits[1..]);
      var x := Bit(bits[0]);
      ShiftInjective(Xor(c, x), Xor(d, x));
      XorSelf(c, x);
      XorSelf(d, x);
    }
  }

  /** Two byte strings that agree outside 32 consecutive bits, and differ there, have different
      checksums: the bits may start anywhere in a byte and touch five. */
  lemma BurstDetected(d: seq<byte>, e: seq<byte>, p: seq<bool>, m: seq<bool>, m': seq<bool>, t: seq<bool>)
    requires ToBits(d) == p + m + t && ToBits(e) == p + m' + t
    requires |m| == |m'| <= 32 && m != m'
    ensures Checksum(d) != Checksum(e)
  {
    hide Run, RunBits, ToBits, Complement;
    if Checksum(d) == Checksum(e) {
      ComplementInjective(Run(INIT, d), Run(INIT, e));
      RunAsBits(INIT, d);
      RunAsBits(INIT, e);
      RunBitsConcat(INIT, p + m, t);
      RunBitsConcat(INIT, p, m);
      RunBitsConcat(INIT, p + m', t);
      RunBitsConcat(INIT, p, m');
      SameBurst(RunBits(INIT, p), m, m', t);
    }
  }

  lemma SameBurst(c: bv32, m: seq<bool>, m': seq<bool>, t: seq<bool>)
    requires RunBits(RunBits(c, m), t) == RunBits(RunBits(c, m'), t) && |m| == |m'| <= 32
    ensures m == m'
  {
    RunBitsInjective(RunBits(c, m), RunBits(c, m'), t);
    RunBitsWord(c, m);
    RunBitsWord(c, m');
    hide RunBits, Xor, ShiftN, WordOf;
    ShiftNInjective(Xor(c, WordOf(m)), Xor(c, WordOf(m')), |m|);
    XorCancel(c, WordOf(m), WordOf(m'));
    WordInjective(m, m');
  }
}
