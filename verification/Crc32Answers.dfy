/** Where the CRC-32 starts and ends: known answers, and the residue of a message with its checksum. */
module Crc32Answers {
  import opened Bytes
  import opened Crc32
  import Crc16Answers

  function Eight(c: bv32): bv32 {
    Shift(Shift(Shift(Shift(Shift(Shift(Shift(Shift(c))))))))
  }

  lemma TurnIsEight(c: bv32)
    ensures Turn(c) == Eight(c)
  {
    hide Shift;
    assert ShiftN(c, 1) == Shift(c);
    assert ShiftN(c, 2) == Shift(Shift(c));
    assert ShiftN(c, 4) == Shift(Shift(ShiftN(c, 2)));
    assert ShiftN(c, 6) == Shift(Shift(ShiftN(c, 4)));
    assert ShiftN(c, 8) == Shift(Shift(ShiftN(c, 6)));
  }

  lemma AnswerStep(data: seq<byte>, b: byte, x: bv8, c: bv32, r: bv32)
    requires Run(0xFFFF_FFFF, data) == c && Bits(b) == x && Eight(Xor(c, Wide(x))) == r
    ensures Run(0xFFFF_FFFF, data + [b]) == r
  {
    TurnIsEight(Xor(c, Wide(x)));
    assert (data + [b])[..|data|] == data;
    hide Xor, Wide, ShiftN, Eight;
  }

  lemma DigitsRun()
    ensures Run(0xFFFF_FFFF, Crc16Answers.DIGITS) == 0x340BC6D9
  {
    var d := Crc16Answers.DIGITS;
    Crc16Answers.DigitBits();
    Crc16Answers.Prefixes(d);
    hide Run, Bits;
    assert Run(0xFFFF_FFFF, []) == 0xFFFF_FFFF by { EmptyRun(); }
    AnswerStep([], 0x31, 0x31, 0xFFFF_FFFF, 0x7C231048);
    AnswerStep(d[..1], 0x32, 0x32, 0x7C231048, 0xB0ACBB32);
    AnswerStep(d[..2], 0x33, 0x33, 0xB0ACBB32, 0x77B79C2D);
    AnswerStep(d[..3], 0x34, 0x34, 0x77B79C2D, 0x641C1F5C);
    AnswerStep(d[..4], 0x35, 0x35, 0x641C1F5C, 0x340AC5E3);
    AnswerStep(d[..5], 0x36, 0x36, 0x340AC5E3, 0xF68D2C9E);
    AnswerStep(d[..6], 0x37, 0x37, 0xF68D2C9E, 0xAFFC9660);
    AnswerStep(d[..7], 0x38, 0x38, 0xAFFC9660, 0x651F2550);
    AnswerStep(d[..8], 0x39, 0x39, 0x651F2550, 0x340BC6D9);
  }

  lemma EmptyRun()
    ensures Run(0xFFFF_FFFF, []) == 0xFFFF_FFFF
  {
  }

  /** The checksum of nothing is zero, that of the digits one to nine CBF43926. */
  lemma KnownAnswer()
    ensures Checksum([]) == 0
    ensures Checksum(Crc16Answers.DIGITS) == 0xCBF43926
  {
    DigitsRun();
    EmptyRun();
    assert Complement(0x340BC6D9) == 0xCBF43926 && Complement(0xFFFF_FFFF) == 0;
    hide Run, Complement;
  }

  // ---------- the residue

  lemma OnesFall()
    ensures ShiftN(0xFFFF_FFFF, 32) == 0xDEBB20E3
  {
    assert Eight(0xFFFF_FFFF) == 0x2DFD1072;
    assert Eight(0x2DFD1072) == 0xBE26ED00;
    assert Eight(0xBE26ED00) == 0x00BE26ED;
    assert Eight(0x00BE26ED) == 0xDEBB20E3;
    hide Eight, ShiftN;
    TurnIsEight(0xFFFF_FFFF);
    TurnIsEight(0x2DFD1072);
    TurnIsEight(0xBE26ED00);
    TurnIsEight(0x00BE26ED);
    ShiftNAdd(0xFFFF_FFFF, 8, 8);
    ShiftNAdd(0xFFFF_FFFF, 16, 8);
    ShiftNAdd(0xFFFF_FFFF, 24, 8);
  }

  lemma WithComplement(c: bv32)
    ensures Xor(c, Complement(c)) == 0xFFFF_FFFF
  {
  }

  /** Every message followed by its own checksum, as stored, has the same checksum. */
  lemma ResidueConstant(d: seq<byte>)
    ensures Checksum(d + Field(Checksum(d))) == 0x2144DF1C
  {
    var c := Run(INIT, d);
    WithComplement(c);
    assert Complement(0xDEBB20E3) == 0x2144DF1C;
    hide Run, Xor, Complement, ShiftN, Field, Word;
    RunConcat(INIT, d, Field(Checksum(d)));
    RunWord(c, Field(Checksum(d)));
    FieldSpells(Checksum(d));
    OnesFall();
  }
}
