/** Multi-byte integers: big-endian in frame headers and hand-written payloads, little-endian in
    packed structures. */
module Words {
  import opened Bytes

  function Be16(x: u16): (s: seq<byte>)
    ensures |s| == 2
  {
    [x / 0x100, x % 0x100]
  }

  function FromBe16(h: byte, l: byte): u16 {
    h * 0x100 + l
  }

  function Le16(x: u16): (s: seq<byte>)
    ensures |s| == 2
  {
    [x % 0x100, x / 0x100]
  }

  function FromLe16(l: byte, h: byte): u16 {
    h * 0x100 + l
  }

  function Le32(x: u32): (s: seq<byte>)
    ensures |s| == 4
  {
    Le16(x % 0x1_0000) + Le16(x / 0x1_0000)
  }

  function FromLe32(s: seq<byte>): u32
    requires |s| == 4
  {
    FromLe16(s[2], s[3]) * 0x1_0000 + FromLe16(s[0], s[1])
  }

  lemma Be16Inverse(h: byte, l: byte)
    ensures Be16(FromBe16(h, l)) == [h, l]
  {
  }

  lemma Le32RoundTrip(x: u32)
    ensures FromLe32(Le32(x)) == x
  {
  }

  /** Numbers on the wire, high byte first. */
  lemma BigEndian(s: seq<byte>, x: u16)
    requires |s| == 4
    ensures
      var a: int, b: int, c: int, d: int := s[0], s[1], s[2], s[3];
      FromBe16(s[0], s[1]) == 256 * a + b && FromBe32(s) == 16777216 * a + 65536 * b + 256 * c + d
    ensures var high: int, low: int := Be16(x)[0], Be16(x)[1]; 256 * high + low == x
  {
  }

  function FromBe32(s: seq<byte>): u32
    requires |s| == 4
  {
    FromBe16(s[0], s[1]) * 0x1_0000 + FromBe16(s[2], s[3])
  }

  // ---------- what bytes spell, by place

  /** The number that four bytes spell, lowest first. */
  function Spelled(s: seq<byte>, i: nat): int
    requires i + 4 <= |s|
  {
    var a: int, b: int, c: int, d: int := s[i], s[i + 1], s[i + 2], s[i + 3];
    a + 256 * b + 65536 * c + 16777216 * d
  }

  /** The number that two bytes spell, lowest first. */
  function Pair(s: seq<byte>, i: nat): int
    requires i + 2 <= |s|
  {
    var a: int, b: int := s[i], s[i + 1];
    a + 256 * b
  }

  lemma SpelledThere(s: seq<byte>, i: nat)
    requires i + 4 <= |s|
    ensures Spelled(s[i..i + 4], 0) == Spelled(s, i)
  {
  }

  lemma WordBytes(x: u32)
    ensures Spelled(Le32(x), 0) == x
  {
  }
}
