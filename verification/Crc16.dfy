/** CRC-16/CCITT-FALSE as the frame codec computes it, and why its trailer catches bursts. */
module Crc16 {
  import opened Bytes

  const INIT: bv16 := 0xFFFF

  // ---------- the register

  /** One bit out at the top: shift, and subtract the polynomial if a one fell out. */
  function Shift(c: bv16): bv16 {
    (c << 1) ^ (0x1021 & (0 - (c >> 15)))
  }

  function ShiftN(c: bv16, n: nat): bv16 {
    if n == 0 then c else Shift(ShiftN(c, n - 1))
  }

  function Xor(a: bv16, b: bv16): bv16 {
    a ^ b
  }

  function Turn(c: bv16): bv16 {
    ShiftN(c, 8)
  }

  function Wide(b: bv8): bv16 {
    b as bv16
  }

  function AtTop(b: bv8): bv16 {
    (b as bv16) << 8
  }

  function Feed(c: bv16, b: byte): bv16 {
    Turn(Xor(c, AtTop(Bits(b))))
  }

  function Run(c: bv16, data: seq<byte>): bv16 {
    if data == [] then c else Feed(Run(c, data[..|data| - 1]), data[|data| - 1])
  }

  function HighByte(c: bv16): bv8 {
    (c >> 8) as bv8
  }

  function LowByte(c: bv16): bv8 {
    (c & 0xFF) as bv8
  }

  function Join(h: bv8, l: bv8): bv16 {
    ((h as bv16) << 8) | (l as bv16)
  }

  /** The two trailer bytes of register value c, high byte first. */
  function Trailer(c: bv16): (t: seq<byte>)
    ensures |t| == 2
  {
    NumberIsByte(HighByte(c));
    NumberIsByte(LowByte(c));
    [Number(HighByte(c)), Number(LowByte(c))]
  }

  /** The register value that two trailer bytes spell. */
  function FromTrailer(h: byte, l: byte): bv16 {
    Join(Bits(h), Bits(l))
  }

  /** The nested shift loop over a buffer leaves the register of the whole prefix. */
  method Calculate(data: array<byte>, length: nat) returns (crc: bv16)
    requires length <= data.Length
    ensures crc == Run(INIT, data[..length])
  {
    crc := INIT;
    for i := 0 to length
      invariant crc == Run(INIT, data[..i])
    {
      ghost var before := crc;
      crc := crc ^ ((Bits(data[i]) as bv16) << 8);
      ghost var mixed := crc;
      for j := 0 to 8
        invariant crc == ShiftN(mixed, j)
      {
        ShiftBranches(crc);
        if crc & 0x8000 != 0 {
          crc := (crc << 1) ^ 0x1021;
        } else {
          crc := crc << 1;
        }
      }
      assert data[..i + 1][..i] == data[..i];
    }
  }

  // ---------- shifting is linear and loses nothing

  lemma ShiftBranches(c: bv16)
    ensures c & 0x8000 != 0 ==> Shift(c) == (c << 1) ^ 0x1021
    ensures c & 0x8000 == 0 ==> Shift(c) == c << 1
  {
    assert c & 0x8000 != 0 ==> c >> 15 == 1;
    assert c & 0x8000 == 0 ==> c >> 15 == 0;
  }

  function Unshift(c: bv16): bv16 {
    ((c ^ (0x1021 & (0 - (c & 1)))) >> 1) | (c << 15)
  }

  lemma UnshiftShift(c: bv16)
    ensures Unshift(Shift(c)) == c
  {
  }

  function Doubled(c: bv16): bv16 {
    c << 1
  }

  function TopBit(c: bv16): bv16 {
    c >> 15
  }

  /** What is subtracted when the given bit falls out. */
  function Subtracted(top: bv16): bv16 {
    0x1021 & (0 - top)
  }

  lemma ShiftLinear(a: bv16, b: bv16)
    ensures Shift(Xor(a, b)) == Xor(Shift(a), Shift(b))
  {
    ShiftParts(a);
    ShiftParts(b);
    ShiftParts(Xor(a, b));
    hide Shift, Xor, Doubled, TopBit, Subtracted;
    DoubledXor(a, b);
    TopBitXor(a, b);
    SubtractedXor(TopBit(a), TopBit(b));
    XorMedial(Doubled(a), Subtracted(TopBit(a)), Doubled(b), Subtracted(TopBit(b)));
  }

  lemma ShiftParts(c: bv16)
    ensures Shift(c) == Xor(Doubled(c), Subtracted(TopBit(c)))
    ensures TopBit(c) == 0 || TopBit(c) == 1
  {
    assert c >> 15 == 0 || c >> 15 == 1;
  }

  lemma DoubledXor(a: bv16, b: bv16)
    ensures Doubled(Xor(a, b)) == Xor(Doubled(a), Doubled(b))
  {
    assert (a ^ b) << 1 == (a << 1) ^ (b << 1);
  }

  lemma TopBitXor(a: bv16, b: bv16)
    ensures TopBit(Xor(a, b)) == Xor(TopBit(a), TopBit(b))
  {
    assert (a ^ b) >> 15 == (a >> 15) ^ (b >> 15);
  }

  lemma SubtractedXor(s: bv16, t: bv16)
    requires (s == 0 || s == 1) && (t == 0 || t == 1)
    ensures Subtracted(Xor(s, t)) == Xor(Subtracted(s), Subtracted(t))
  {
    if s == 0 {
      XorComm(0, t);
      XorComm(0, Subtracted(t));
      XorSelf(t, 0);
      XorSelf(Subtracted(t), 0);
    } else if t == 0 {
      XorSelf(1, 0);
      XorSelf(Subtracted(1), 0);
    } else {
      XorSelf(1, 1);
      XorSelf(Subtracted(1), 0);
    }
  }

  lemma {:induction false} ShiftNLinear(a: bv16, b: bv16, n: nat)
    ensures ShiftN(Xor(a, b), n) == Xor(ShiftN(a, n), ShiftN(b, n))
  {
    hide Shift, Xor;
    if n > 0 {
      ShiftNLinear(a, b, n - 1);
      ShiftLinear(ShiftN(a, n - 1), ShiftN(b, n - 1));
    }
  }

  lemma {:induction false} ShiftNInjective(a: bv16, b: bv16, n: nat)
    requires ShiftN(a, n) == ShiftN(b, n)
    ensures a == b
  {
    hide Shift, Unshift;
    if n > 0 {
      UnshiftShift(ShiftN(a, n - 1));
      UnshiftShift(ShiftN(b, n - 1));
      ShiftNInjective(a, b, n - 1);
    }
  }

  lemma {:induction false} ShiftNZero(n: nat)
    ensures ShiftN(0, n) == 0
  {
    if n > 0 {
      ShiftNZero(n - 1);
    }
  }

  lemma {:induction false} ShiftNAdd(c: bv16, m: nat, n: nat)
    ensures ShiftN(ShiftN(c, m), n) == ShiftN(c, m + n)
  {
    hide Shift;
    if n > 0 {
      ShiftNAdd(c, m, n - 1);
    }
  }

  /** While no one bit falls out, shifting is doubling. */
  lemma TurnByte(b: bv8)
    ensures Turn(Wide(b)) == AtTop(b)
  {
    var w := Wide(b);
    ShiftDoubles(b);
    hide Shift, ShiftN;
    ShiftNStep(w, 0);
    ShiftNStep(w, 1);
    ShiftNStep(w, 2);
    ShiftNStep(w, 3);
    ShiftNStep(w, 4);
    ShiftNStep(w, 5);
    ShiftNStep(w, 6);
    ShiftNStep(w, 7);
  }

  lemma ShiftNStep(c: bv16, n: nat)
    ensures ShiftN(c, 0) == c && ShiftN(c, n + 1) == Shift(ShiftN(c, n))
  {
  }

  lemma ShiftDoubles(b: bv8)
    ensures var w := b as bv16;
      && Shift(w) == w << 1 && Shift(w << 1) == w << 2 && Shift(w << 2) == w << 3 && Shift(w << 3) == w << 4
      && Shift(w << 4) == w << 5 && Shift(w << 5) == w << 6 && Shift(w << 6) == w << 7 && Shift(w << 7) == w << 8
  {
  }

  // ---------- exclusive or

  lemma XorSelf(a: bv16, b: bv16)
    ensures Xor(Xor(a, b), b) == a && Xor(a, a) == 0 && Xor(a, 0) == a
  {
    assert (a ^ b) ^ b == a && a ^ a == 0;
  }

  lemma XorAssoc(a: bv16, b: bv16, c: bv16)
    ensures Xor(Xor(a, b), c) == Xor(a, Xor(b, c))
  {
    assert (a ^ b) ^ c == a ^ (b ^ c);
  }

  lemma XorComm(a: bv16, b: bv16)
    ensures Xor(a, b) == Xor(b, a)
  {
    assert a ^ b == b ^ a;
  }

  lemma XorMedial(a: bv16, b: bv16, c: bv16, d: bv16)
    ensures Xor(Xor(a, b), Xor(c, d)) == Xor(Xor(a, c), Xor(b, d))
  {
    hide Xor;
    XorAssoc(a, b, Xor(c, d));
    XorAssoc(b, c, d);
    XorComm(b, c);
    XorAssoc(c, b, d);
    XorAssoc(a, c, Xor(b, d));
  }

  lemma XorZero(a: bv16, b: bv16)
    requires Xor(a, b) == 0
    ensures a == b
  {
    XorSelf(a, b);
    assert 0 ^ b == b;
  }

  // ---------- trailers

  lemma TrailerSpells(c: bv16)
    ensures FromTrailer(Trailer(c)[0], Trailer(c)[1]) == c
  {
    hide Bits, Number, HighByte, LowByte, Join;
    BitsOfNumber(HighByte(c));
    BitsOfNumber(LowByte(c));
    JoinHalves(c);
  }

  lemma JoinHalves(c: bv16)
    ensures Join(HighByte(c), LowByte(c)) == c
  {
  }

  lemma TrailerUnique(h: byte, l: byte)
    ensures Trailer(FromTrailer(h, l)) == [h, l]
  {
    hide Bits, Number, HighByte, LowByte, Join;
    NumberOfBits(h);
    NumberOfBits(l);
    HalvesOfJoin(Bits(h), Bits(l));
  }

  lemma HalvesOfJoin(h: bv8, l: bv8)
    ensures HighByte(Join(h, l)) == h && LowByte(Join(h, l)) == l
  {
  }

  lemma JoinIsXor(h: bv8, l: bv8)
    ensures Join(h, l) == Xor(AtTop(h), Wide(l))
  {
  }

  // ---------- running over concatenations

  lemma {:induction false} RunConcat(c: bv16, a: seq<byte>, b: seq<byte>)
    ensures Run(c, a + b) == Run(Run(c, a), b)
  {
    hide Feed;
    if b == [] {
      assert a + b == a;
    } else {
      RunConcat(c, a, b[..|b| - 1]);
      assert (a + b)[..|a + b| - 1] == a + b[..|b| - 1];
    }
  }

  lemma {:induction false} RunInjective(c: bv16, d: bv16, data: seq<byte>)
    requires Run(c, data) == Run(d, data)
    ensures c == d
  {
    hide Xor, ShiftN, AtTop;
    if data != [] {
      var init, b := data[..|data| - 1], AtTop(Bits(data[|data| - 1]));
      var x, y := Run(c, init), Run(d, init);
      ShiftNInjective(Xor(x, b), Xor(y, b), 8);
      XorSelf(x, b);
      XorSelf(y, b);
      RunInjective(c, d, init);
    }
  }

  /** Two bytes after register c act as one 16-bit word. */
  lemma RunTwo(c: bv16, h: byte, l: byte)
    ensures Run(c, [h, l]) == Turn(Turn(Xor(c, FromTrailer(h, l))))
  {
    hide Xor, ShiftN, Bits, Join, AtTop, Wide;
    var x, y := AtTop(Bits(h)), Wide(Bits(l));
    assert [h, l][..1] == [h] && [h][..0] == [];
    assert Run(c, [h]) == Feed(Run(c, []), h);
    assert Run(c, [h, l]) == Turn(Xor(Turn(Xor(c, x)), AtTop(Bits(l))));
    TurnByte(Bits(l));
    ShiftNLinear(Xor(c, x), y, 8);
    XorAssoc(c, x, y);
    JoinIsXor(Bits(h), Bits(l));
  }

  /** A trailer drives the register to zero exactly when it spells the register. */
  lemma Residue(c: bv16, h: byte, l: byte)
    ensures Run(c, [h, l]) == 0 <==> [h, l] == Trailer(c)
  {
    hide Xor, ShiftN, FromTrailer, Trailer;
    var w := FromTrailer(h, l);
    RunTwo(c, h, l);
    ShiftNZero(8);
    if Run(c, [h, l]) == 0 {
      ShiftNInjective(Turn(Xor(c, w)), 0, 8);
      ShiftNInjective(Xor(c, w), 0, 8);
      XorZero(c, w);
      TrailerUnique(h, l);
    }
    if [h, l] == Trailer(c) {
      TrailerSpells(c);
      XorSelf(c, c);
    }
  }
}
