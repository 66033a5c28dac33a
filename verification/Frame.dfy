/** The on-wire frame: header, payload and CRC-16 trailer. */
module Frame {
  import opened Bytes
  import opened Words
  import Crc16
  import Crc16Answers
  import Crc16Burst
  import Crc16Parity
  import Crc16Flips

  const SOF: byte := 0xA5
  const VERSION: byte := 0x01
  const HEADER_SIZE := 7
  const CRC_SIZE := 2
  const MAX_PAYLOAD_SIZE := 500
  const MIN_FRAME_SIZE := HEADER_SIZE + CRC_SIZE
  const MAX_FRAME_SIZE := HEADER_SIZE + MAX_PAYLOAD_SIZE + CRC_SIZE

  datatype Message = Message(msgType: byte, seqNum: u16, payload: seq<byte>)

  datatype Header = Header(sof: byte, msgType: byte, version: byte, seqNum: u16, length: u16) {
    predicate IsValid() {
      sof == SOF && version == VERSION && length <= MAX_PAYLOAD_SIZE
    }
  }

  datatype Parsed = Rejected | Accepted(message: Message)

  // ---------- what the bytes of a frame are

  function HeaderBytes(msgType: byte, seqNum: u16, length: u16): (s: seq<byte>)
    ensures |s| == HEADER_SIZE
  {
    [SOF, msgType, VERSION] + Be16(seqNum) + Be16(length)
  }

  function Body(m: Message): (s: seq<byte>)
    requires |m.payload| <= MAX_PAYLOAD_SIZE
    ensures |s| == HEADER_SIZE + |m.payload|
  {
    HeaderBytes(m.msgType, m.seqNum, |m.payload|) + m.payload
  }

  function Encode(m: Message): (s: seq<byte>)
    requires |m.payload| <= MAX_PAYLOAD_SIZE
    ensures |s| == MIN_FRAME_SIZE + |m.payload|
  {
    Body(m) + Crc16.Trailer(Crc16.Run(Crc16.INIT, Body(m)))
  }

  function ReadHeader(data: seq<byte>): Header
    requires |data| >= HEADER_SIZE
  {
    Header(data[0], data[1], data[2], FromBe16(data[3], data[4]), FromBe16(data[5], data[6]))
  }

  /** A byte string is a frame when it is long enough, its header is valid, it has the announced
      length and its trailer spells the CRC of what precedes it. */
  predicate WellFormed(data: seq<byte>) {
    && |data| >= MIN_FRAME_SIZE
    && ReadHeader(data).IsValid()
    && |data| == MIN_FRAME_SIZE + ReadHeader(data).length
    && Crc16.FromTrailer(data[|data| - 2], data[|data| - 1]) == Crc16.Run(Crc16.INIT, data[..|data| - 2])
  }

  function Decode(data: seq<byte>): Parsed {
    if WellFormed(data) then
      var h := ReadHeader(data);
      Accepted(Message(h.msgType, h.seqNum, data[HEADER_SIZE..HEADER_SIZE + h.length]))
    else
      Rejected
  }

  // ---------- the codec

  /** Writes the frame of a message into out. A null payload leaves the payload area of
      out as it was, so the frame carries whatever those bytes were. */
  method BuildFrame(msgType: byte, payload: array?<byte>, payloadLen: nat, seqNum: u16, out: array<byte>)
    returns (ok: bool, outLen: nat)
    requires out.Length >= MAX_FRAME_SIZE && payload != out
    requires payload != null && payloadLen <= MAX_PAYLOAD_SIZE ==> payloadLen <= payload.Length
    modifies out
    ensures ok <==> payloadLen <= 500
    ensures !ok ==> out[..] == old(out[..]) && outLen == 0
    ensures ok ==>
              && outLen == MIN_FRAME_SIZE + payloadLen
              && out[..outLen] == Encode(Message(msgType, seqNum,
                   if payload != null then payload[..payloadLen] else old(out[HEADER_SIZE..HEADER_SIZE + payloadLen])))
              && out[outLen..] == old(out[outLen..])
  {
    if payloadLen > MAX_PAYLOAD_SIZE {
      return false, 0;
    }
    ghost var before := out[..];
    ghost var content := if payload != null then payload[..payloadLen]
        else before[HEADER_SIZE..HEADER_SIZE + payloadLen];
    ghost var m := Message(msgType, seqNum, content);
    WriteBody(msgType, seqNum, payload, payloadLen, out, content);
    var crcLen := HEADER_SIZE + payloadLen;
    ghost var body := out[..crcLen];
    assert out[crcLen + CRC_SIZE..] == before[crcLen + CRC_SIZE..];
    WriteTrailer(out, crcLen);
    ok, outLen := true, crcLen + CRC_SIZE;
    hide Body, Crc16.Run, Crc16.Trailer;
    assert out[..outLen] == body + out[crcLen..outLen];
  }

  method WriteBody(msgType: byte, seqNum: u16, payload: array?<byte>, payloadLen: u16, out: array<byte>,
      ghost content: seq<byte>)
    requires out.Length >= MAX_FRAME_SIZE && payload != out && payloadLen <= MAX_PAYLOAD_SIZE
    requires payload != null ==> payloadLen <= payload.Length
    requires content == if payload != null then payload[..payloadLen] else out[HEADER_SIZE..HEADER_SIZE + payloadLen]
    modifies out
    ensures out[..HEADER_SIZE + payloadLen] == Body(Message(msgType, seqNum, content))
    ensures out[HEADER_SIZE + payloadLen..] == old(out[HEADER_SIZE + payloadLen..])
  {
    WriteHeader(msgType, seqNum, payloadLen, out);
    hide HeaderBytes;
    if payloadLen > 0 && payload != null {
      CopyInto(payload, payloadLen, out);
    }
    assert out[..HEADER_SIZE + payloadLen] == out[..HEADER_SIZE] + out[HEADER_SIZE..HEADER_SIZE + payloadLen];
    assert out[HEADER_SIZE..HEADER_SIZE + payloadLen] == content;
  }

  method WriteTrailer(out: array<byte>, crcLen: nat)
    requires crcLen + CRC_SIZE <= out.Length
    modifies out
    ensures out[..crcLen] == old(out[..crcLen])
    ensures out[crcLen..crcLen + CRC_SIZE] == Crc16.Trailer(Crc16.Run(Crc16.INIT, old(out[..crcLen])))
    ensures out[crcLen + CRC_SIZE..] == old(out[crcLen + CRC_SIZE..])
  {
    hide Crc16.Trailer, Crc16.Run;
    var crc := Crc16.Calculate(out, crcLen);
    var trailer := Crc16.Trailer(crc);
    out[crcLen] := trailer[0];
    out[crcLen + 1] := trailer[1];
  }

  method WriteHeader(msgType: byte, seqNum: u16, payloadLen: u16, out: array<byte>)
    requires out.Length >= HEADER_SIZE
    modifies out
    ensures out[..HEADER_SIZE] == HeaderBytes(msgType, seqNum, payloadLen)
    ensures forall i :: HEADER_SIZE <= i < out.Length ==> out[i] == old(out[i])
  {
    out[0] := SOF;
    out[1] := msgType;
    out[2] := VERSION;
    out[3] := seqNum / 0x100;
    out[4] := seqNum % 0x100;
    out[5] := payloadLen / 0x100;
    out[6] := payloadLen % 0x100;
  }

  method CopyInto(payload: array<byte>, payloadLen: nat, out: array<byte>)
    requires payloadLen <= payload.Length && HEADER_SIZE + payloadLen <= out.Length && payload != out
    modifies out
    ensures out[HEADER_SIZE..HEADER_SIZE + payloadLen] == payload[..payloadLen]
    ensures forall j :: 0 <= j < HEADER_SIZE || HEADER_SIZE + payloadLen <= j < out.Length ==> out[j] == old(out[j])
  {
    for i := 0 to payloadLen
      invariant out[HEADER_SIZE..HEADER_SIZE + i] == payload[..i]
      invariant forall j :: 0 <= j < HEADER_SIZE || HEADER_SIZE + i <= j < out.Length ==> out[j] == old(out[j])
    {
      out[HEADER_SIZE + i] := payload[i];
    }
  }

  /** Accepts exactly the well-formed frames and hands out their header and payload. */
  method ParseFrame(data: array<byte>, length: nat)
    returns (ok: bool, header: Header, payloadStart: nat, payloadLen: nat)
    requires length <= data.Length
    ensures ok <==> Decode(data[..length]).Accepted?
    ensures ok ==>
              && payloadStart + payloadLen <= length
              && header == Header(SOF, header.msgType, VERSION, header.seqNum, payloadLen)
              && Decode(data[..length])
                  == Accepted(Message(header.msgType, header.seqNum, data[payloadStart..payloadStart + payloadLen]))
  {
    ghost var frame := data[..length];
    header, payloadStart, payloadLen := Header(0, 0, 0, 0, 0), 0, 0;
    if length < MIN_FRAME_SIZE {
      return false, header, 0, 0;
    }
    if data[0] != SOF {
      return false, header, 0, 0;
    }
    header := Header(data[0], data[1], data[2], FromBe16(data[3], data[4]), FromBe16(data[5], data[6]));
    assert header == ReadHeader(frame);
    if !header.IsValid() {
      return false, header, 0, 0;
    }
    var expectedLen := HEADER_SIZE + header.length + CRC_SIZE;
    if length != expectedLen {
      return false, header, 0, 0;
    }
    var receivedCrc := Crc16.FromTrailer(data[length - 2], data[length - 1]);
    var calculatedCrc := Crc16.Calculate(data, length - CRC_SIZE);
    assert data[..length - 2] == frame[..length - 2];
    if receivedCrc != calculatedCrc {
      return false, header, 0, 0;
    }
    ok, payloadStart, payloadLen := true, HEADER_SIZE, header.length;
    assert data[HEADER_SIZE..HEADER_SIZE + payloadLen] == frame[HEADER_SIZE..HEADER_SIZE + payloadLen];
  }

  // ---------- the two directions are exact inverses

  lemma DecodeEncode(m: Message)
    requires |m.payload| <= MAX_PAYLOAD_SIZE
    ensures Decode(Encode(m)) == Accepted(m)
  {
    hide Crc16.Run, Crc16.Trailer, Crc16.FromTrailer;
    var data := Encode(m);
    var crc := Crc16.Run(Crc16.INIT, Body(m));
    Crc16.TrailerSpells(crc);
    assert data[|data| - 2..] == Crc16.Trailer(crc);
    assert data[..|data| - 2] == Body(m);
    assert data[..HEADER_SIZE] == HeaderBytes(m.msgType, m.seqNum, |m.payload|);
    assert ReadHeader(data) == Header(SOF, m.msgType, VERSION, m.seqNum, |m.payload|);
    assert data[HEADER_SIZE..HEADER_SIZE + |m.payload|] == m.payload;
  }

  lemma EncodeDecode(data: seq<byte>)
    requires Decode(data).Accepted?
    ensures |Decode(data).message.payload| <= MAX_PAYLOAD_SIZE
    ensures Encode(Decode(data).message) == data
  {
    hide Crc16.Run, Crc16.Trailer, Crc16.FromTrailer;
    var m := Decode(data).message;
    var n := |data| - 2;
    Be16Inverse(data[3], data[4]);
    Be16Inverse(data[5], data[6]);
    assert Body(m) == data[..n] by {
      assert HeaderBytes(m.msgType, m.seqNum, |m.payload|) == data[..HEADER_SIZE];
      assert data[..n] == data[..HEADER_SIZE] + data[HEADER_SIZE..n];
    }
    Crc16.TrailerUnique(data[n], data[n + 1]);
    assert data == data[..n] + [data[n], data[n + 1]];
  }

  // ---------- what the trailer catches

  /** An accepted frame drives the register to zero. */
  lemma AcceptedLeavesZero(data: seq<byte>)
    requires Decode(data).Accepted?
    ensures Crc16.Run(Crc16.INIT, data) == 0
  {
    var n := |data| - 2;
    var c := Crc16.Run(Crc16.INIT, data[..n]);
    Crc16.TrailerUnique(data[n], data[n + 1]);
    Crc16.Residue(c, data[n], data[n + 1]);
    assert data == data[..n] + [data[n], data[n + 1]];
    Crc16.RunConcat(Crc16.INIT, data[..n], [data[n], data[n + 1]]);
  }

  /** e is d with a burst at bytes p, p+1, p+2. */
  ghost predicate BurstAt(d: seq<byte>, e: seq<byte>, p: nat) {
    && |d| == |e| && p + 3 <= |d|
    && d[..p] == e[..p] && d[p + 3..] == e[p + 3..]
    && Crc16Burst.Burst(d[p..p + 3], e[p..p + 3])
  }

  /** Whatever is changed within sixteen consecutive bits of a frame, wherever they lie, the
      result is no frame. */
  lemma BurstRejected(d: seq<byte>, e: seq<byte>, p: nat)
    requires Decode(d).Accepted? && BurstAt(d, e, p) && d != e
    ensures Decode(e) == Rejected
  {
    hide Decode, Crc16.Run, Crc16Burst.Burst;
    if Decode(e).Accepted? {
      AcceptedLeavesZero(d);
      AcceptedLeavesZero(e);
      BurstParts(d, e, p);
      SameRegisterNoBurst(d[..p], d[p..p + 3], e[p..p + 3], d[p + 3..], d, e);
    }
  }

  lemma BurstParts(d: seq<byte>, e: seq<byte>, p: nat)
    requires BurstAt(d, e, p)
    ensures d == d[..p] + d[p..p + 3] + d[p + 3..] && e == d[..p] + e[p..p + 3] + d[p + 3..]
  {
  }

  lemma SameRegisterNoBurst(before: seq<byte>, x: seq<byte>, y: seq<byte>, after: seq<byte>, d: seq<byte>, e: seq<byte>)
    requires d == before + x + after && e == before + y + after
    requires |x| == |y| == 3 && Crc16Burst.Burst(x, y)
    requires Crc16.Run(Crc16.INIT, d) == Crc16.Run(Crc16.INIT, e)
    ensures d == e
  {
    hide Crc16.Run, Crc16Burst.Burst;
    var c := Crc16.Run(Crc16.INIT, before);
    Crc16.RunConcat(Crc16.INIT, before + x, after);
    Crc16.RunConcat(Crc16.INIT, before, x);
    Crc16.RunConcat(Crc16.INIT, before + y, after);
    Crc16.RunConcat(Crc16.INIT, before, y);
    Crc16.RunInjective(Crc16.Run(c, x), Crc16.Run(c, y), after);
    Crc16Burst.BurstSeparates(c, x, y);
  }

  /** In particular two adjacent bytes, in the header, the payload, the trailer or across them. */
  lemma AdjacentBytesRejected(d: seq<byte>, e: seq<byte>, q: nat)
    requires Decode(d).Accepted? && |d| == |e| && q + 2 <= |d| && d != e
    requires forall i :: 0 <= i < |d| && i != q && i != q + 1 ==> d[i] == e[i]
    ensures Decode(e) == Rejected
  {
    var p := if q == 0 then 0 else q - 1;
    Crc16Burst.AdjacentIsBurst(d[p..p + 3], e[p..p + 3]);
    BurstRejected(d, e, p);
  }

  /** Every frame holds an even number of one bits. */
  lemma AcceptedParity(data: seq<byte>)
    requires Decode(data).Accepted?
    ensures Crc16Parity.TotalOnes(data) % 2 == 0
  {
    AcceptedLeavesZero(data);
    Crc16Parity.RunParity(Crc16.INIT, data);
    Crc16Parity.OddOnesZero(16);
    Crc16Parity.InitParity();
  }

  /** An odd number of flipped bits, anywhere, is always noticed. */
  lemma OddFlipsRejected(d: seq<byte>, e: seq<byte>)
    requires Decode(d).Accepted? && |d| == |e|
    requires Crc16Parity.TotalFlips(d, e) % 2 == 1
    ensures Decode(e) == Rejected
  {
    hide Crc16Parity.TotalFlips, Crc16Parity.TotalOnes, Decode;
    Crc16Parity.FlipsParity(d, e);
    AcceptedParity(d);
    if Decode(e).Accepted? {
      AcceptedParity(e);
    }
  }

  /** One, two or three flipped bits, anywhere, are always noticed. */
  lemma FewFlipsRejected(d: seq<byte>, e: seq<byte>)
    requires Decode(d).Accepted? && |d| == |e|
    requires 1 <= Crc16Parity.TotalFlips(d, e) <= 3
    ensures Decode(e) == Rejected
  {
    assert |d| <= MAX_FRAME_SIZE;
    hide Crc16Parity.TotalFlips, Decode, Crc16.Run;
    if Crc16Parity.TotalFlips(d, e) == 2 {
      Crc16Flips.TwoFlips(Crc16.INIT, d, e);
      AcceptedLeavesZero(d);
      if Decode(e).Accepted? {
        AcceptedLeavesZero(e);
        Crc16.XorSelf(0, 0);
      }
    } else {
      OddFlipsRejected(d, e);
    }
  }

  // ---------- the bytes on the wire

  /** The layout, byte by byte: A5, type, version 1, number and length high byte first, the payload, and
      the register over all of that, started at all ones, high byte first. */
  lemma Layout(m: Message)
    requires |m.payload| <= 500
    ensures
      var d, n := Encode(m), |m.payload|;
      var seqHigh: int, seqLow: int, lengthHigh: int, lengthLow: int := d[3], d[4], d[5], d[6];
      && |d| == n + 9
      && d[0] == 0xA5 && d[1] == m.msgType && d[2] == 1
      && 256 * seqHigh + seqLow == m.seqNum && 256 * lengthHigh + lengthLow == n
      && d[7..n + 7] == m.payload
      && Crc16.Join(Bits(d[n + 7]), Bits(d[n + 8])) == Crc16.Run(0xFFFF, d[..n + 7])
  {
    var d, n := Encode(m), |m.payload|;
    var crc := Crc16.Run(Crc16.INIT, Body(m));
    hide Crc16.Run, Crc16.Trailer, Crc16.Join, Bits;
    Crc16.TrailerSpells(crc);
    assert d[n + 7] == Crc16.Trailer(crc)[0] && d[n + 8] == Crc16.Trailer(crc)[1];
    assert d[..n + 7] == Body(m);
  }

  /** The acknowledgement of message 7, sent under number 7. */
  const ACK_OF_SEVEN: seq<byte> := [0xA5, 0x02, 0x01, 0x00, 0x07, 0x00, 0x02, 0x00, 0x07, 0x39, 0x64]

  lemma AckOfSeven()
    ensures Encode(Message(0x02, 7, [0, 7])) == ACK_OF_SEVEN
  {
    var d: seq<byte> := ACK_OF_SEVEN[..9];
    assert Body(Message(0x02, 7, [0, 7])) == d;
    AckRegister();
    hide Crc16.Run, Crc16.Trailer, Crc16.FromTrailer, Body;
    Crc16.TrailerUnique(0x39, 0x64);
    AckTrailer();
  }

  lemma AckTrailer()
    ensures Crc16.FromTrailer(0x39, 0x64) == 0x3964
  {
    Crc16Answers.DigitBits();
    assert Bits(12) == 12 && Bits(25) == 25;
    assert Bits(50) == 50;
    assert Bits(0x64) == 0x64;
    hide Bits;
    assert Crc16.Join(0x39, 0x64) == 0x3964;
  }

  lemma AckRegister()
    ensures Crc16.Run(0xFFFF, ACK_OF_SEVEN[..9]) == 0x3964
  {
    var d := ACK_OF_SEVEN;
    assert Bits(5) == 5 && Bits(20) == 20 && Bits(41) == 41;
    assert Bits(0xA5) == 0xA5 && Bits(2) == 2 && Bits(1) == 1 && Bits(0) == 0 && Bits(7) == 7;
    Crc16Answers.Prefixes(d);
    hide Crc16.Run, Bits;
    Crc16Answers.EmptyRun();
    Crc16Answers.AnswerStep([], 0xA5, 0xA5, 0xFFFF, 0x04BF);
    Crc16Answers.AnswerStep(d[..1], 0x02, 0x02, 0x04BF, 0xDFC6);
    Crc16Answers.AnswerStep(d[..2], 0x01, 0x01, 0xDFC6, 0xECB3);
    Crc16Answers.AnswerStep(d[..3], 0x00, 0x00, 0xECB3, 0x8FA2);
    Crc16Answers.AnswerStep(d[..4], 0x07, 0x07, 0x8FA2, 0xB280);
    Crc16Answers.AnswerStep(d[..5], 0x00, 0x00, 0xB280, 0x0799);
    Crc16Answers.AnswerStep(d[..6], 0x02, 0x02, 0x0799, 0xC9A5);
    Crc16Answers.AnswerStep(d[..7], 0x00, 0x00, 0xC9A5, 0xED65);
    Crc16Answers.AnswerStep(d[..8], 0x07, 0x07, 0xED65, 0x3964);
  }
}
