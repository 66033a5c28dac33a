/** Machine words as bounded integers, and the binary expansion of a byte.
    Bytes are integers everywhere in the model; only the CRC registers are bit-vectors, and
    Bits / Number are the one bridge between the two. */
module Bytes {

  type byte = x: int | 0 <= x < 0x100
  type u16 = x: int | 0 <= x < 0x1_0000
  type u32 = x: int | 0 <= x < 0x1_0000_0000

  const U16_COUNT := 0x1_0000
  const U32_COUNT := 0x1_0000_0000

  function Snoc(b: bv8, bit: bool): bv8 {
    (b << 1) | (if bit then 1 else 0)
  }

  predicate Odd(b: bv8) {
    b & 1 == 1
  }

  /** The bits of x, most significant first. */
  function Bits(x: nat): bv8 {
    if x == 0 then 0 else Snoc(Bits(x / 2), x % 2 == 1)
  }

  /** The number whose bits are b. */
  function Number(b: bv8): nat {
    if b == 0 then 0 else 2 * Number(b >> 1) + (if Odd(b) then 1 else 0)
  }

  lemma {:induction false} BitsOfNumber(b: bv8)
    ensures Bits(Number(b)) == b
  {
    if b != 0 {
      BitsOfNumber(b >> 1);
      SnocSplit(b);
    }
  }

  lemma {:induction false} NumberOfBits(x: byte)
    ensures Number(Bits(x)) == x
  {
    if x != 0 {
      NumberOfBits(x / 2);
      assert Pow2(7) == 128;
      BitsShort(x / 2, 7);
      ShortTop(Bits(x / 2));
      SplitSnoc(Bits(x / 2), x % 2 == 1);
      if x / 2 != 0 {
        assert Bits(x / 2) != 0;
      }
    }
  }

  lemma NumberIsByte(b: bv8)
    ensures Number(b) < 0x100
  {
    EveryByteShort(b);
    NumberShort(b, 8);
    assert Pow2(8) == 0x100;
  }

  // ---------- helpers: Short(b, k) says that b uses only its low k bits

  function Pow2(k: nat): (p: nat)
    ensures p > 0
  {
    if k == 0 then 1 else 2 * Pow2(k - 1)
  }

  predicate Short(b: bv8, k: nat) {
    if k == 0 then b == 0 else Short(b >> 1, k - 1)
  }

  lemma SnocSplit(b: bv8)
    ensures Snoc(b >> 1, Odd(b)) == b
  {
  }

  lemma SplitSnoc(b: bv8, bit: bool)
    requires b & 0x80 == 0
    ensures Snoc(b, bit) >> 1 == b && (Odd(Snoc(b, bit)) <==> bit)
    ensures Snoc(b, bit) == 0 <==> b == 0 && !bit
  {
  }

  lemma ShortTop(b: bv8)
    requires Short(b, 7)
    ensures b & 0x80 == 0
  {
    var c := b >> 1 >> 1 >> 1;
    assert Short(b >> 1 >> 1, 5);
    assert Short(c, 4);
    assert Short(c >> 1, 3);
    assert Short(c >> 1 >> 1, 2);
    assert Short(c >> 1 >> 1 >> 1, 1);
    assert Short(c >> 1 >> 1 >> 1 >> 1, 0);
  }

  lemma EveryByteShort(b: bv8)
    ensures Short(b, 8)
  {
    var c := b >> 1 >> 1 >> 1 >> 1;
    var d := c >> 1 >> 1;
    assert d >> 1 >> 1 == 0;
    assert Short(d >> 1, 1);
    assert Short(d, 2);
    assert Short(c >> 1, 3);
    assert Short(c, 4);
    assert Short(b >> 1 >> 1 >> 1, 5);
    assert Short(b >> 1 >> 1, 6);
  }

  lemma {:induction false} ShortMono(b: bv8, k: nat, n: nat)
    requires Short(b, k) && k <= n
    ensures Short(b, n)
  {
    if k > 0 {
      ShortMono(b >> 1, k - 1, n - 1);
    } else if n > 0 {
      assert b >> 1 == 0;
      ShortMono(0, 0, n - 1);
    }
  }

  lemma {:induction false} BitsShort(x: nat, k: nat)
    requires k <= 8 && x < Pow2(k)
    ensures Short(Bits(x), k)
  {
    if x == 0 {
      ShortMono(0, 0, k);
    } else {
      BitsShort(x / 2, k - 1);
      ShortMono(Bits(x / 2), k - 1, 7);
      ShortTop(Bits(x / 2));
      SplitSnoc(Bits(x / 2), x % 2 == 1);
    }
  }

  lemma {:induction false} NumberShort(b: bv8, k: nat)
    requires Short(b, k)
    ensures Number(b) < Pow2(k)
  {
    if k > 0 {
      NumberShort(b >> 1, k - 1);
    }
  }
}
