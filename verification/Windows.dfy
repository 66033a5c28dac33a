/** Sample windows: one packed record of header, CRC and samples that the logger appends to session
    files and that the extraction tool reads back. */
module Windows {
  import opened Bytes
  import opened Words
  import Crc32
  import Crc32Burst

  const WINDOW_MAGIC: u16 := 0x4D4C
  const WINDOW_VERSION: byte := 1
  const WINDOW_SIZE := 40
  const SAMPLE_RECORD_SIZE := 4
  const WINDOW_HEADER_SIZE := 32
  const SAMPLE_WINDOW_SIZE := WINDOW_HEADER_SIZE + SAMPLE_RECORD_SIZE * WINDOW_SIZE

  datatype SampleRecord = SampleRecord(proximity: u16, dtMs: u16)

  datatype WindowHeader = WindowHeader(
    magic: u16, version: byte, sampleCount: byte, sessionId: u16, windowId: u16, gesture: byte, reserved0: byte,
    startUptimeMs: u32, startEpoch: u32,
    wakeThreshold: u16, detectionThreshold: u16, criticalDetectionThreshold: u16,
    sensitivity: byte, flags: byte, bootCount: byte, reserved1: byte)

  datatype SampleWindow = SampleWindow(header: WindowHeader, crc32: bv32, samples: seq<SampleRecord>) {

    function CoveredBytes(): seq<byte> {
      HeaderBytes(header) + SampleBytes(samples)
    }

    function CalculateCRC(): bv32 {
      Crc32.Checksum(CoveredBytes())
    }

    predicate IsValid() {
      header.magic == WINDOW_MAGIC && header.version == WINDOW_VERSION && header.sampleCount <= WINDOW_SIZE
          && crc32 == CalculateCRC()
    }
  }

  // ---------- bytes

  function Opening(h: WindowHeader): (s: seq<byte>)
    ensures |s| == 10
  {
    [h.magic % 0x100, h.magic / 0x100, h.version, h.sampleCount, h.sessionId % 0x100, h.sessionId / 0x100,
     h.windowId % 0x100, h.windowId / 0x100, h.gesture, h.reserved0]
  }

  function Closing(h: WindowHeader): (s: seq<byte>)
    ensures |s| == 10
  {
    [h.wakeThreshold % 0x100, h.wakeThreshold / 0x100, h.detectionThreshold % 0x100, h.detectionThreshold / 0x100,
     h.criticalDetectionThreshold % 0x100, h.criticalDetectionThreshold / 0x100,
     h.sensitivity, h.flags, h.bootCount, h.reserved1]
  }

  /** The header up to its CRC field. */
  function HeaderBytes(h: WindowHeader): (s: seq<byte>)
    ensures |s| == WINDOW_HEADER_SIZE - 4
  {
    Opening(h) + Le32(h.startUptimeMs) + Le32(h.startEpoch) + Closing(h)
  }

  function RecordBytes(r: SampleRecord): (s: seq<byte>)
    ensures |s| == SAMPLE_RECORD_SIZE
  {
    Le16(r.proximity) + Le16(r.dtMs)
  }

  function SampleBytes(samples: seq<SampleRecord>): (s: seq<byte>)
    ensures |s| == SAMPLE_RECORD_SIZE * |samples|
  {
    if samples == [] then [] else SampleBytes(samples[..|samples| - 1]) + RecordBytes(samples[|samples| - 1])
  }

  function Serialize(w: SampleWindow): (s: seq<byte>)
    ensures |s| == WINDOW_HEADER_SIZE + SAMPLE_RECORD_SIZE * |w.samples|
  {
    HeaderBytes(w.header) + Crc32.Field(w.crc32) + SampleBytes(w.samples)
  }

  // ---------- reading them back

  function ParseHeader(data: seq<byte>): WindowHeader
    requires |data| >= WINDOW_HEADER_SIZE
  {
    WindowHeader(
      FromLe16(data[0], data[1]), data[2], data[3], FromLe16(data[4], data[5]), FromLe16(data[6], data[7]),
      data[8], data[9],
      FromLe32(data[10..14]), FromLe32(data[14..18]),
      FromLe16(data[18], data[19]), FromLe16(data[20], data[21]), FromLe16(data[22], data[23]),
      data[24], data[25], data[26], data[27])
  }

  function StoredCrc(raw: seq<byte>): bv32
    requires |raw| >= WINDOW_HEADER_SIZE
  {
    Crc32.Word(CrcField(raw))
  }

  /** The bytes of a raw window that its CRC covers: all but the CRC field. */
  function Covered(raw: seq<byte>): (s: seq<byte>)
    requires |raw| == SAMPLE_WINDOW_SIZE
    ensures |s| == SAMPLE_WINDOW_SIZE - 4
  {
    raw[..WINDOW_HEADER_SIZE - 4] + raw[WINDOW_HEADER_SIZE..]
  }

  predicate Accepts(raw: seq<byte>)
    requires |raw| == SAMPLE_WINDOW_SIZE
  {
    var h := ParseHeader(raw);
    && h.magic == WINDOW_MAGIC && h.version == WINDOW_VERSION && h.sampleCount <= WINDOW_SIZE
    && StoredCrc(raw) == Crc32.Checksum(Covered(raw))
  }

  lemma HeaderRoundTrip(h: WindowHeader, rest: seq<byte>)
    requires |rest| >= 4
    ensures ParseHeader(HeaderBytes(h) + rest) == h
  {
    var data := HeaderBytes(h) + rest;
    assert data[10..14] == Le32(h.startUptimeMs);
    assert data[14..18] == Le32(h.startEpoch);
    Le32RoundTrip(h.startUptimeMs);
    Le32RoundTrip(h.startEpoch);
    hide Le32, FromLe32;
    assert forall i :: 0 <= i < 10 ==> data[i] == Opening(h)[i] && data[18 + i] == Closing(h)[i];
  }

  /** A raw window that is the image of a 40-sample window is accepted exactly if that window is valid. */
  lemma AcceptsIffValid(w: SampleWindow)
    requires |w.samples| == WINDOW_SIZE
    ensures Accepts(Serialize(w)) <==> w.IsValid()
    ensures ParseHeader(Serialize(w)) == w.header && Covered(Serialize(w)) == w.CoveredBytes()
  {
    hide HeaderBytes, SampleBytes, Crc32.Field, Crc32.Word, Crc32.Checksum, ParseHeader;
    var raw := Serialize(w);
    var tail := Crc32.Field(w.crc32) + SampleBytes(w.samples);
    assert raw == HeaderBytes(w.header) + tail;
    HeaderRoundTrip(w.header, tail);
    assert CrcField(raw) == Crc32.Field(w.crc32);
    Crc32.FieldSpells(w.crc32);
    assert Covered(raw) == w.CoveredBytes();
  }

  // ---------- damage

  /** A change confined to four consecutive covered bytes makes a window invalid. */
  lemma CoveredChangeRejected(raw: seq<byte>, raw': seq<byte>, p: seq<byte>, m: seq<byte>, m': seq<byte>, t: seq<byte>)
    requires |raw| == |raw'| == SAMPLE_WINDOW_SIZE && Accepts(raw)
    requires Covered(raw) == p + m + t && Covered(raw') == p + m' + t
    requires |m| == |m'| <= 4 && m != m' && StoredCrc(raw) == StoredCrc(raw')
    ensures !Accepts(raw')
  {
    hide Crc32.Checksum, Covered, StoredCrc, ParseHeader;
    Crc32.ChangeDetected(p, m, m', t);
  }

  /** So does one confined to 32 consecutive bits of them, wherever those start. */
  lemma CoveredBurstRejected(raw: seq<byte>, raw': seq<byte>, p: seq<bool>, m: seq<bool>, m': seq<bool>, t: seq<bool>)
    requires |raw| == |raw'| == SAMPLE_WINDOW_SIZE && Accepts(raw) && StoredCrc(raw) == StoredCrc(raw')
    requires Crc32Burst.ToBits(Covered(raw)) == p + m + t && Crc32Burst.ToBits(Covered(raw')) == p + m' + t
    requires |m| == |m'| <= 32 && m != m'
    ensures !Accepts(raw')
  {
    hide Crc32.Checksum, Covered, StoredCrc, ParseHeader, Crc32Burst.ToBits;
    Crc32Burst.BurstDetected(Covered(raw), Covered(raw'), p, m, m', t);
  }

  /** So does any change of the stored CRC alone. */
  lemma CrcFieldChangeRejected(raw: seq<byte>, raw': seq<byte>)
    requires |raw| == |raw'| == SAMPLE_WINDOW_SIZE && Accepts(raw) && raw != raw'
    requires Covered(raw) == Covered(raw')
    ensures !Accepts(raw')
  {
    hide Crc32.Checksum, Crc32.Word, ParseHeader;
    Reassembled(raw);
    Reassembled(raw');
    hide Covered;
    if StoredCrc(raw) == StoredCrc(raw') {
      Crc32.WordInjective(CrcField(raw), CrcField(raw'));
    }
  }

  function CrcField(raw: seq<byte>): (f: seq<byte>)
    requires |raw| >= WINDOW_HEADER_SIZE
    ensures |f| == 4
  {
    raw[WINDOW_HEADER_SIZE - 4..WINDOW_HEADER_SIZE]
  }

  lemma Reassembled(raw: seq<byte>)
    requires |raw| == SAMPLE_WINDOW_SIZE
    ensures var a := WINDOW_HEADER_SIZE - 4;
      raw == Covered(raw)[..a] + CrcField(raw) + Covered(raw)[a..]
  {
  }

  /** The firmware's own check of a window in memory fails on the same damage. */
  lemma DamagedWindowInvalid(w: SampleWindow, w': SampleWindow, p: seq<byte>, m: seq<byte>, m': seq<byte>, t: seq<byte>)
    requires w.IsValid() && w'.crc32 == w.crc32
    requires w.CoveredBytes() == p + m + t && w'.CoveredBytes() == p + m' + t && |m| == |m'| <= 4 && m != m'
    ensures !w'.IsValid()
  {
    hide Crc32.Checksum, HeaderBytes, SampleBytes;
    Crc32.ChangeDetected(p, m, m', t);
  }

  // ---------- the bytes of a window

  /** The layout, byte by byte, lowest byte first everywhere: a header of 32 bytes that ends in the CRC, then
      four bytes a sample. */
  lemma Layout(w: SampleWindow)
    ensures
      var s, h := Serialize(w), w.header;
      && |s| == 32 + 4 * |w.samples|
      && Pair(s, 0) == h.magic && s[2] == h.version && s[3] == h.sampleCount
      && Pair(s, 4) == h.sessionId && Pair(s, 6) == h.windowId && s[8] == h.gesture && s[9] == h.reserved0
      && Spelled(s, 10) == h.startUptimeMs && Spelled(s, 14) == h.startEpoch
      && Pair(s, 18) == h.wakeThreshold && Pair(s, 20) == h.detectionThreshold
      && Pair(s, 22) == h.criticalDetectionThreshold
      && s[24] == h.sensitivity && s[25] == h.flags && s[26] == h.bootCount && s[27] == h.reserved1
      && s[28..32] == Crc32.Field(w.crc32)
      && forall k :: 0 <= k < |w.samples| ==>
           Pair(s, 32 + 4 * k) == w.samples[k].proximity && Pair(s, 34 + 4 * k) == w.samples[k].dtMs
  {
    var s, h := Serialize(w), w.header;
    assert s[..28] == HeaderBytes(h) && s[28..32] == Crc32.Field(w.crc32) && s[32..] == SampleBytes(w.samples);
    HeaderLayout(h);
    hide Serialize, HeaderBytes, SampleBytes, Crc32.Field;
    assert forall i :: 0 <= i < 28 ==> s[..28][i] == s[i];
    forall k | 0 <= k < |w.samples|
      ensures Pair(s, 32 + 4 * k) == w.samples[k].proximity && Pair(s, 34 + 4 * k) == w.samples[k].dtMs
    {
      SampleLayout(w.samples, k);
      assert forall i :: 0 <= i < |s| - 32 ==> s[32..][i] == s[32 + i];
    }
  }

  lemma HeaderLayout(h: WindowHeader)
    ensures
      var s := HeaderBytes(h);
      && Pair(s, 0) == h.magic && s[2] == h.version && s[3] == h.sampleCount
      && Pair(s, 4) == h.sessionId && Pair(s, 6) == h.windowId && s[8] == h.gesture && s[9] == h.reserved0
      && Spelled(s, 10) == h.startUptimeMs && Spelled(s, 14) == h.startEpoch
      && Pair(s, 18) == h.wakeThreshold && Pair(s, 20) == h.detectionThreshold
      && Pair(s, 22) == h.criticalDetectionThreshold
      && s[24] == h.sensitivity && s[25] == h.flags && s[26] == h.bootCount && s[27] == h.reserved1
  {
    var s := HeaderBytes(h);
    assert s[10..14] == Le32(h.startUptimeMs) && s[14..18] == Le32(h.startEpoch);
    WordBytes(h.startUptimeMs);
    WordBytes(h.startEpoch);
    SpelledThere(s, 10);
    SpelledThere(s, 14);
    hide Le32, Spelled;
  }

  lemma {:induction false} SampleLayout(samples: seq<SampleRecord>, k: nat)
    requires k < |samples|
    ensures var s := SampleBytes(samples);
      Pair(s, 4 * k) == samples[k].proximity && Pair(s, 4 * k + 2) == samples[k].dtMs
  {
    var n := |samples| - 1;
    if k < n {
      SampleLayout(samples[..n], k);
    }
  }

  /** A valid window starts with the marks the tool looks for. */
  lemma ValidMarks(w: SampleWindow)
    requires w.IsValid()
    ensures Pair(Serialize(w), 0) == 0x4D4C && Serialize(w)[2] == 1 && Serialize(w)[3] <= 40
  {
    Layout(w);
    hide Serialize;
  }
}
