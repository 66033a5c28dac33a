/** No burst of up to sixteen consecutive bits survives the frame CRC. */
module Crc16Burst {
  import opened Bytes
  import opened Crc16

  /** Pattern e moved up by k bits inside three bytes. */
  function Slide(e: bv16, k: nat): bv24 {
    if k == 0 then e as bv24 else Slide(e, k - 1) << 1
  }

  function Upper(w: bv24): bv16 {
    (w >> 8) as bv16
  }

  function Lower(w: bv24): bv8 {
    (w & 0xFF) as bv8
  }

  function Pack(x: bv16, u: bv8): bv24 {
    ((x as bv24) << 8) | (u as bv24)
  }

  /** Where three bytes differ from three others, as one 24-bit pattern. */
  function Difference(a: seq<byte>, b: seq<byte>): bv24
    requires |a| == |b| == 3
  {
    Pack(Xor(FromTrailer(a[0], a[1]), FromTrailer(b[0], b[1])), Xor8(Bits(a[2]), Bits(b[2])))
  }

  function Xor8(u: bv8, v: bv8): bv8 {
    u ^ v
  }

  /** The differing bits lie within sixteen consecutive bits. */
  ghost predicate Burst(a: seq<byte>, b: seq<byte>)
    requires |a| == |b| == 3
  {
    exists e: bv16, k: nat :: k <= 8 && Difference(a, b) == Slide(e, k)
  }

  /** No burst cancels: three bytes that differ by a burst drive a register apart. */
  lemma BurstSeparates(c: bv16, a: seq<byte>, b: seq<byte>)
    requires |a| == |b| == 3 && Burst(a, b)
    requires Run(c, a) == Run(c, b)
    ensures a == b
  {
    var d := Difference(a, b);
    var e: bv16, k: nat :| k <= 8 && d == Slide(e, k);
    RunThreeDifference(c, a, b);
    SlideResidue(e, k);
    ShiftNZero(k);
    ShiftNInjective(e, 0, k);
    SlideZero(k);
    DifferenceZero(a, b);
  }

  lemma RunThree(c: bv16, a: seq<byte>)
    requires |a| == 3
    ensures Run(c, a) == Turn(Turn(Xor(Xor(Turn(c), Turn(FromTrailer(a[0], a[1]))), Wide(Bits(a[2])))))
  {
    hide Xor, ShiftN, Bits, Join, AtTop, Wide;
    var j, z := FromTrailer(a[0], a[1]), Wide(Bits(a[2]));
    assert a[..2] == [a[0], a[1]];
    RunTwo(c, a[0], a[1]);
    TurnByte(Bits(a[2]));
    ShiftNLinear(Turn(Xor(c, j)), z, 8);
    ShiftNLinear(c, j, 8);
  }

  lemma RunThreeDifference(c: bv16, a: seq<byte>, b: seq<byte>)
    requires |a| == |b| == 3 && Run(c, a) == Run(c, b)
    ensures var d := Difference(a, b); Xor(Turn(Upper(d)), Wide(Lower(d))) == 0
  {
    hide Xor, Xor8, ShiftN, Bits, FromTrailer, Upper, Lower, Pack, Wide;
    var x, y := FromTrailer(a[0], a[1]), FromTrailer(b[0], b[1]);
    var u, v := Bits(a[2]), Bits(b[2]);
    HalvesOfPack(Xor(x, y), Xor8(u, v));
    RunThree(c, a);
    RunThree(c, b);
    var p, q := Xor(Xor(Turn(c), Turn(x)), Wide(u)), Xor(Xor(Turn(c), Turn(y)), Wide(v));
    ShiftNInjective(Turn(p), Turn(q), 8);
    ShiftNInjective(p, q, 8);
    XorCancel(Turn(c), Turn(x), Turn(y), u, v);
    ShiftNLinear(x, y, 8);
  }

  lemma HalvesOfPack(x: bv16, u: bv8)
    ensures Upper(Pack(x, u)) == x && Lower(Pack(x, u)) == u
  {
  }

  lemma XorCancel(t: bv16, x: bv16, y: bv16, u: bv8, v: bv8)
    requires Xor(Xor(t, x), Wide(u)) == Xor(Xor(t, y), Wide(v))
    ensures Xor(Xor(x, y), Wide(Xor8(u, v))) == 0
  {
    hide Xor, Xor8, Wide;
    XorMedial(Xor(t, x), Wide(u), Xor(t, y), Wide(v));
    XorMedial(t, x, t, y);
    XorSelf(t, t);
    XorSelf(Xor(x, y), 0);
    XorComm(0, Xor(x, y));
    WideXor(u, v);
    XorSelf(Xor(Xor(t, x), Wide(u)), 0);
  }

  lemma WideXor(u: bv8, v: bv8)
    ensures Wide(Xor8(u, v)) == Xor(Wide(u), Wide(v))
  {
    assert (u ^ v) as bv16 == (u as bv16) ^ (v as bv16);
  }

  /** The register that a 24-bit pattern leaves, the upper half having been shifted through. */
  function Folded(w: bv24): bv16 {
    Xor(Turn(Upper(w)), Wide(Lower(w)))
  }

  /** A pattern moved up by k bits leaves what k shifts of it leave. */
  lemma {:induction false} SlideResidue(e: bv16, k: nat)
    requires k <= 8
    ensures Folded(Slide(e, k)) == ShiftN(e, k)
  {
    hide ShiftN, Shift, Slide, Folded;
    ShiftNStep(e, 0);
    if k == 0 {
      SlideUnfold(e, 0);
      SlideStart(e);
    } else {
      SlideResidue(e, k - 1);
      SlideMoves(e, k);
      ShiftNStep(e, k - 1);
    }
  }

  lemma SlideMoves(e: bv16, k: nat)
    requires 0 < k <= 8
    ensures Folded(Slide(e, k)) == Shift(Folded(Slide(e, k - 1)))
  {
    hide ShiftN, Shift, Slide, Folded;
    SlideUnfold(e, k);
    SlideBelow(e, k - 1);
    SlideOnce(Slide(e, k - 1));
  }

  lemma SlideUnfold(e: bv16, k: nat)
    ensures Slide(e, 0) == e as bv24
    ensures k > 0 ==> Slide(e, k) == Slide(e, k - 1) << 1
  {
  }

  lemma SlideStart(e: bv16)
    ensures Folded(e as bv24) == e
  {
    var h, l := HighByte(e), LowByte(e);
    assert Upper(e as bv24) == Wide(h);
    assert Lower(e as bv24) == l;
    hide Xor, ShiftN, Upper, Lower, Shift, HighByte, LowByte, Join, AtTop, Wide;
    TurnByte(h);
    JoinHalves(e);
    JoinIsXor(h, l);
  }

  lemma SlideOnce(w: bv24)
    requires w <= 0x7F_FFFF
    ensures Folded(w << 1) == Shift(Folded(w))
  {
    var hi, lo, top, rest := Upper(w), Lower(w), Lower(w) >> 7, Lower(w) << 1;
    UpperStep(w);
    LowerStep(w);
    hide Xor, ShiftN, Upper, Lower, Shift, AtTop, Wide;
    ShiftLinear(Turn(hi), Wide(lo));
    ShiftNAdd(hi, 8, 1);
    ShiftNAdd(hi, 1, 8);
    ShiftNStep(Turn(hi), 0);
    ShiftNStep(hi, 0);
    TurnByte(top);
    ShiftNLinear(Shift(hi), Wide(top), 8);
    XorAssoc(Turn(Shift(hi)), AtTop(top), Wide(rest));
  }

  lemma UpperStep(w: bv24)
    requires w <= 0x7F_FFFF
    ensures Upper(w << 1) == Xor(Shift(Upper(w)), Wide(Lower(w) >> 7))
  {
    hide Xor, Shift, Upper, Lower, Wide;
    UpperNoCarry(w);
    ShiftNoCarry(Upper(w));
    UpperMoves(w);
  }

  lemma UpperNoCarry(w: bv24)
    requires w <= 0x7F_FFFF
    ensures Upper(w) >> 15 == 0
  {
  }

  lemma UpperMoves(w: bv24)
    ensures Upper(w << 1) == Xor(Upper(w) << 1, Wide(Lower(w) >> 7))
  {
    assert ((w << 1) >> 8) as bv16 == (((w >> 8) as bv16) << 1) ^ ((((w & 0xFF) as bv8) >> 7) as bv16);
  }

  lemma ShiftNoCarry(c: bv16)
    requires c >> 15 == 0
    ensures Shift(c) == c << 1
  {
  }

  lemma LowerStep(w: bv24)
    ensures Lower(w << 1) == Lower(w) << 1
    ensures Shift(Wide(Lower(w))) == Xor(AtTop(Lower(w) >> 7), Wide(Lower(w) << 1))
  {
    assert ((w << 1) & 0xFF) as bv8 == ((w & 0xFF) as bv8) << 1;
    ShiftSmall(Lower(w));
  }

  lemma ShiftSmall(l: bv8)
    ensures Shift(l as bv16) == Xor(AtTop(l >> 7), (l << 1) as bv16)
  {
    assert (l as bv16) >> 15 == 0;
    ShiftNoCarry(l as bv16);
    assert (l as bv16) << 1 == (((l >> 7) as bv16) << 8) ^ ((l << 1) as bv16);
  }

  function Limit(k: nat): bv24 {
    if k == 0 then 0xFFFF else (Limit(k - 1) << 1) | 1
  }

  lemma {:induction false} SlideBelow(e: bv16, k: nat)
    requires k <= 7
    ensures Slide(e, k) <= Limit(k) <= 0x7F_FFFF
  {
    if k > 0 {
      SlideBelow(e, k - 1);
    }
    assert Limit(7) == 0x7F_FFFF;
  }

  lemma {:induction false} SlideZero(k: nat)
    ensures Slide(0, k) == 0
  {
    if k > 0 {
      SlideZero(k - 1);
    }
  }

  lemma DifferenceZero(a: seq<byte>, b: seq<byte>)
    requires |a| == |b| == 3 && Difference(a, b) == 0
    ensures a == b
  {
    hide Xor, Xor8, Bits, Number, FromTrailer, Trailer, Pack;
    var x, y, u, v := FromTrailer(a[0], a[1]), FromTrailer(b[0], b[1]), Bits(a[2]), Bits(b[2]);
    PackZero(Xor(x, y), Xor8(u, v));
    XorZero(x, y);
    Xor8Zero(u, v);
    TrailerUnique(a[0], a[1]);
    TrailerUnique(b[0], b[1]);
    NumberOfBits(a[2]);
    NumberOfBits(b[2]);
    assert [a[0], a[1]] == [b[0], b[1]];
    assert a[0] == [a[0], a[1]][0] && a[1] == [a[0], a[1]][1];
  }

  lemma PackZero(x: bv16, u: bv8)
    requires Pack(x, u) == 0
    ensures x == 0 && u == 0
  {
    HalvesOfPack(x, u);
  }

  lemma Xor8Zero(u: bv8, v: bv8)
    requires Xor8(u, v) == 0
    ensures u == v
  {
    assert (u ^ v) ^ v == u;
  }

  /** Two adjacent bytes are sixteen consecutive bits. */
  lemma AdjacentIsBurst(a: seq<byte>, b: seq<byte>)
    requires |a| == |b| == 3
    requires a[0] == b[0] || a[2] == b[2]
    ensures Burst(a, b)
  {
    hide Xor, Xor8, Pack, Slide, Join, Bits;
    var x, u := Xor(FromTrailer(a[0], a[1]), FromTrailer(b[0], b[1])), Xor8(Bits(a[2]), Bits(b[2]));
    if a[2] == b[2] {
      SameByte(Bits(a[2]));
      SlideEight(x);
      assert Difference(a, b) == Slide(x, 8);
    } else {
      JoinSameTop(Bits(a[0]), Bits(a[1]), Bits(b[1]), u);
      var e := Join(Xor8(Bits(a[1]), Bits(b[1])), u);
      SlideUnfold(e, 0);
      assert Difference(a, b) == Slide(e, 0);
    }
  }

  lemma SameByte(u: bv8)
    ensures Xor8(u, u) == 0
  {
  }

  lemma SlideEight(x: bv16)
    ensures Slide(x, 8) == Pack(x, 0)
  {
    var w := x as bv24;
    hide Slide;
    SlideUnfold(x, 1);
    SlideUnfold(x, 2);
    SlideUnfold(x, 3);
    SlideUnfold(x, 4);
    SlideUnfold(x, 5);
    SlideUnfold(x, 6);
    SlideUnfold(x, 7);
    SlideUnfold(x, 8);
    assert w << 1 << 1 << 1 << 1 << 1 << 1 << 1 << 1 == w << 8;
  }

  lemma JoinSameTop(h: bv8, l: bv8, m: bv8, u: bv8)
    ensures Pack(Xor(Join(h, l), Join(h, m)), u) == Join(Xor8(l, m), u) as bv24
  {
    JoinIsXor(h, l);
    JoinIsXor(h, m);
    XorMedial(AtTop(h), Wide(l), AtTop(h), Wide(m));
    XorSelf(AtTop(h), AtTop(h));
    XorSelf(Xor(Wide(l), Wide(m)), 0);
    XorComm(0, Xor(Wide(l), Wide(m)));
    WideXor(l, m);
    hide Xor, Xor8, Join;
    PackWide(Xor8(l, m), u);
  }

  lemma PackWide(v: bv8, u: bv8)
    ensures Pack(Wide(v), u) == Join(v, u) as bv24
  {
  }
}
