/** The extraction tool: cuts a session file into windows, keeps the sound ones. */
module Extract {
  import opened Bytes
  import opened Words
  import opened Events
  import opened Windows
  import Crc32

  datatype Extracted = Extracted(header: WindowHeader, samples: seq<SampleRecord>)

  /** A window as the tool lists it, with its place in the file. */
  datatype Found = Found(index: nat, window: Extracted)

  // ---------- what the loops compute

  function RecordAt(data: seq<byte>, i: nat): SampleRecord
    requires SAMPLE_RECORD_SIZE * (i + 1) <= |data|
  {
    SampleRecord(FromLe16(data[4 * i], data[4 * i + 1]), FromLe16(data[4 * i + 2], data[4 * i + 3]))
  }

  /** As many records as were asked for and the data holds. */
  function RecordsIn(data: seq<byte>, count: nat): (samples: seq<SampleRecord>)
  {
    seq(if count <= |data| / SAMPLE_RECORD_SIZE then count else |data| / SAMPLE_RECORD_SIZE,
        i requires 0 <= i < |data| / SAMPLE_RECORD_SIZE => RecordAt(data, i))
  }

  function Validated(raw: seq<byte>): Option<Extracted>
    requires |raw| == SAMPLE_WINDOW_SIZE
  {
    if Accepts(raw) then
      Some(Extracted(ParseHeader(raw), RecordsIn(raw[WINDOW_HEADER_SIZE..], ParseHeader(raw).sampleCount)))
    else None
  }

  /** The size of n windows. */
  function Span(n: nat): nat {
    SAMPLE_WINDOW_SIZE * n
  }

  function RawAt(data: seq<byte>, i: nat): (raw: seq<byte>)
    requires Span(i + 1) <= |data|
    ensures |raw| == SAMPLE_WINDOW_SIZE
  {
    data[Span(i)..Span(i + 1)]
  }

  function IfSound(i: nat, raw: seq<byte>): seq<Found>
    requires |raw| == SAMPLE_WINDOW_SIZE
  {
    if Validated(raw).Some? then [Found(i, Validated(raw).value)] else []
  }

  /** The sound windows among the first n. */
  function ExtractFirst(data: seq<byte>, n: nat): seq<Found>
    requires Span(n) <= |data|
  {
    if n == 0 then [] else ExtractFirst(data, n - 1) + IfSound(n - 1, RawAt(data, n - 1))
  }

  function ExtractAll(data: seq<byte>): seq<Found> {
    ExtractFirst(data, |data| / SAMPLE_WINDOW_SIZE)
  }

  // ---------- the loops

  method ParseSamples(data: seq<byte>, count: byte) returns (samples: seq<SampleRecord>)
    ensures samples == RecordsIn(data, count)
  {
    samples := [];
    for i := 0 to count
      invariant |samples| == i <= |data| / SAMPLE_RECORD_SIZE
      invariant forall k :: 0 <= k < i ==> samples[k] == RecordAt(data, k)
    {
      var offset := i * SAMPLE_RECORD_SIZE;
      if offset + SAMPLE_RECORD_SIZE > |data| {
        break;
      }
      samples := samples + [SampleRecord(FromLe16(data[offset], data[offset + 1]),
          FromLe16(data[offset + 2], data[offset + 3]))];
    }
  }

  method ValidateWindow(raw: seq<byte>) returns (window: Option<Extracted>)
    ensures window == if |raw| < SAMPLE_WINDOW_SIZE then None else Validated(raw[..SAMPLE_WINDOW_SIZE])
  {
    if |raw| < SAMPLE_WINDOW_SIZE {
      return None;
    }
    ghost var whole := raw[..SAMPLE_WINDOW_SIZE];
    var header := ParseHeader(raw[..WINDOW_HEADER_SIZE]);
    HeaderOfPrefix(whole);
    assert raw[..WINDOW_HEADER_SIZE] == whole[..WINDOW_HEADER_SIZE];
    hide ParseHeader, Crc32.Checksum, Crc32.Word;
    if header.magic != WINDOW_MAGIC {
      return None;
    }
    if header.version != WINDOW_VERSION {
      return None;
    }
    if header.sampleCount > WINDOW_SIZE {
      return None;
    }
    var crcData := raw[..WINDOW_HEADER_SIZE - 4] + raw[WINDOW_HEADER_SIZE..SAMPLE_WINDOW_SIZE];
    var expectedCrc := Crc32.Checksum(crcData);
    assert crcData == Covered(whole);
    assert CrcField(raw[..WINDOW_HEADER_SIZE]) == CrcField(whole);
    if StoredCrc(raw[..WINDOW_HEADER_SIZE]) != expectedCrc {
      return None;
    }
    assert raw[WINDOW_HEADER_SIZE..SAMPLE_WINDOW_SIZE] == whole[WINDOW_HEADER_SIZE..];
    var samples := ParseSamples(raw[WINDOW_HEADER_SIZE..SAMPLE_WINDOW_SIZE], header.sampleCount);
    return Some(Extracted(header, samples));
  }

  lemma HeaderOfPrefix(raw: seq<byte>)
    requires |raw| >= WINDOW_HEADER_SIZE
    ensures ParseHeader(raw[..WINDOW_HEADER_SIZE]) == ParseHeader(raw)
  {
    assert raw[..WINDOW_HEADER_SIZE][10..14] == raw[10..14];
    assert raw[..WINDOW_HEADER_SIZE][14..18] == raw[14..18];
  }

  method ExtractFile(data: seq<byte>) returns (windows: seq<Found>)
    ensures windows == ExtractAll(data)
  {
    hide Validated, Accepts;
    windows := [];
    var numWindows := |data| / SAMPLE_WINDOW_SIZE;
    for i := 0 to numWindows
      invariant windows == ExtractFirst(data, i)
    {
      var offset := i * SAMPLE_WINDOW_SIZE;
      var raw := data[offset..offset + SAMPLE_WINDOW_SIZE];
      ExtractStep(data, i);
      assert raw == RawAt(data, i) && raw[..SAMPLE_WINDOW_SIZE] == raw;
      hide ExtractFirst, RawAt;
      var window := ValidateWindow(raw);
      if window.Some? {
        windows := windows + [Found(i, window.value)];
      }
    }
  }

  lemma ExtractStep(data: seq<byte>, i: nat)
    requires Span(i + 1) <= |data|
    ensures ExtractFirst(data, i + 1) == ExtractFirst(data, i) + IfSound(i, RawAt(data, i))
  {
  }

  // ---------- window by window

  predicate AllRaw(raws: seq<seq<byte>>) {
    forall k :: 0 <= k < |raws| ==> |raws[k]| == SAMPLE_WINDOW_SIZE
  }

  function Join(raws: seq<seq<byte>>): seq<byte> {
    if raws == [] then [] else Join(raws[..|raws| - 1]) + raws[|raws| - 1]
  }

  function Sound(raws: seq<seq<byte>>): seq<Found>
    requires AllRaw(raws)
  {
    if raws == [] then [] else Sound(raws[..|raws| - 1]) + IfSound(|raws| - 1, raws[|raws| - 1])
  }

  /** Every window of a file is judged alone: a damaged one is skipped and costs no other, and a
      last one that is cut short is ignored. */
  lemma ExtractsEachAlone(raws: seq<seq<byte>>, tail: seq<byte>)
    requires AllRaw(raws) && |tail| < SAMPLE_WINDOW_SIZE
    ensures ExtractAll(Join(raws) + tail) == Sound(raws)
  {
    JoinSize(raws);
    FirstOfJoin(raws, tail);
    hide ExtractAll, ExtractFirst, Sound, Join, Span, AllRaw;
    AllOf(Join(raws) + tail, |raws|, |tail|);
  }

  lemma AllOf(data: seq<byte>, n: nat, r: nat)
    requires |data| == Span(n) + r && r < SAMPLE_WINDOW_SIZE
    ensures ExtractAll(data) == ExtractFirst(data, n)
  {
    Quotient(n, r);
  }

  lemma Quotient(k: nat, r: nat)
    requires r < SAMPLE_WINDOW_SIZE
    ensures (Span(k) + r) / SAMPLE_WINDOW_SIZE == k
  {
  }

  lemma SpanStep(n: int)
    ensures n >= 0 ==> Span(n + 1) == Span(n) + SAMPLE_WINDOW_SIZE
    ensures Span(0) == 0
  {
  }

  lemma {:induction false} JoinSize(raws: seq<seq<byte>>)
    requires AllRaw(raws)
    ensures |Join(raws)| == Span(|raws|)
  {
    hide Span;
    SpanStep(|raws| - 1);
    if raws != [] {
      JoinSize(raws[..|raws| - 1]);
    }
  }

  lemma {:induction false} FirstOfJoin(raws: seq<seq<byte>>, rest: seq<byte>)
    requires AllRaw(raws)
    ensures |Join(raws)| == Span(|raws|)
    ensures ExtractFirst(Join(raws) + rest, |raws|) == Sound(raws)
  {
    hide Span, IfSound;
    JoinSize(raws);
    SpanStep(|raws| - 1);
    if raws != [] {
      var n := |raws| - 1;
      var data := Join(raws) + rest;
      JoinSize(raws[..n]);
      FirstOfJoin(raws[..n], raws[n] + rest);
      assert data == Join(raws[..n]) + (raws[n] + rest);
      ExtractStep(data, n);
      RawAfter(Join(raws[..n]), raws[n], rest, n);
      SoundStep(raws);
      hide RawAt, ExtractFirst, Sound, Join;
    }
  }

  lemma RawAfter(before: seq<byte>, raw: seq<byte>, rest: seq<byte>, n: nat)
    requires |before| == Span(n) && |raw| == SAMPLE_WINDOW_SIZE
    ensures Span(n + 1) == |before + raw|
    ensures RawAt(before + (raw + rest), n) == raw
  {
  }

  // ---------- round trip

  /** A window as the logger completes it. */
  predicate Complete(w: SampleWindow) {
    w.IsValid() && |w.samples| == WINDOW_SIZE && w.header.sampleCount == WINDOW_SIZE
  }

  function Raws(ws: seq<SampleWindow>): (raws: seq<seq<byte>>)
    ensures |raws| == |ws|
  {
    seq(|ws|, k requires 0 <= k < |ws| => Windows.Serialize(ws[k]))
  }

  function Listed(ws: seq<SampleWindow>): (found: seq<Found>)
    ensures |found| == |ws|
  {
    seq(|ws|, k requires 0 <= k < |ws| => Found(k, Extracted(ws[k].header, ws[k].samples)))
  }

  lemma {:induction false} RecordsOfBytes(samples: seq<SampleRecord>, i: nat)
    requires i < |samples|
    ensures RecordAt(SampleBytes(samples), i) == samples[i]
  {
    hide RecordBytes;
    var n := |samples| - 1;
    var data, init := SampleBytes(samples), SampleBytes(samples[..n]);
    if i < n {
      RecordsOfBytes(samples[..n], i);
      assert forall k :: 0 <= k < |init| ==> data[k] == init[k];
    } else {
      assert data == init + RecordBytes(samples[n]);
      assert forall k :: 0 <= k < 4 ==> data[4 * n + k] == RecordBytes(samples[n])[k];
      RecordRoundTrip(samples[n]);
    }
  }

  lemma RecordRoundTrip(r: SampleRecord)
    ensures var b := RecordBytes(r); SampleRecord(FromLe16(b[0], b[1]), FromLe16(b[2], b[3])) == r
  {
  }

  lemma CompleteIsExtracted(w: SampleWindow)
    requires Complete(w)
    ensures Validated(Windows.Serialize(w)) == Some(Extracted(w.header, w.samples))
  {
    AcceptsIffValid(w);
    hide Accepts, ParseHeader, SampleWindow.IsValid, RecordsIn;
    var raw := Windows.Serialize(w);
    assert raw[WINDOW_HEADER_SIZE..] == SampleBytes(w.samples);
    RecordsBack(w.samples);
  }

  lemma RecordsBack(samples: seq<SampleRecord>)
    ensures RecordsIn(SampleBytes(samples), |samples|) == samples
  {
    hide RecordAt;
    var data := SampleBytes(samples);
    assert |data| / SAMPLE_RECORD_SIZE == |samples|;
    forall i | 0 <= i < |samples|
      ensures RecordsIn(data, |samples|)[i] == samples[i]
    {
      RecordsOfBytes(samples, i);
    }
  }

  /** Reading a file of completed windows gives back exactly those windows, in order. */
  lemma ExtractRoundTrip(ws: seq<SampleWindow>)
    requires forall k :: 0 <= k < |ws| ==> Complete(ws[k])
    ensures ExtractAll(Join(Raws(ws))) == Listed(ws)
  {
    assert AllRaw(Raws(ws));
    ExtractsEachAlone(Raws(ws), []);
    assert Join(Raws(ws)) + [] == Join(Raws(ws));
    SoundOfComplete(ws);
  }

  lemma {:induction false} SoundOfComplete(ws: seq<SampleWindow>)
    requires AllRaw(Raws(ws)) && forall k :: 0 <= k < |ws| ==> Complete(ws[k])
    ensures Sound(Raws(ws)) == Listed(ws)
  {
    hide Complete, Validated, Windows.Serialize, Raws, Listed, Sound, IfSound, AllRaw;
    if ws == [] {
      NothingListed();
    } else {
      var n := |ws| - 1;
      RawsSnoc(ws);
      SoundStep(Raws(ws));
      SoundOfComplete(ws[..n]);
      LastListed(ws[n], n);
    }
  }

  lemma NothingListed()
    ensures AllRaw(Raws([])) && Sound(Raws([])) == Listed([])
  {
    assert Raws([]) == [];
  }

  lemma LastListed(w: SampleWindow, n: nat)
    requires Complete(w)
    ensures IfSound(n, Windows.Serialize(w)) == [Found(n, Extracted(w.header, w.samples))]
  {
    CompleteIsExtracted(w);
    hide Validated, Windows.Serialize;
  }

  lemma RawsSnoc(ws: seq<SampleWindow>)
    requires ws != []
    ensures var n := |ws| - 1;
      && Raws(ws)[..n] == Raws(ws[..n]) && Raws(ws)[n] == Windows.Serialize(ws[n])
      && Listed(ws) == Listed(ws[..n]) + [Found(n, Extracted(ws[n].header, ws[n].samples))]
  {
    hide Windows.Serialize;
    var n := |ws| - 1;
    assert Raws(ws)[..n] == Raws(ws[..n]);
    assert Listed(ws) == Listed(ws[..n]) + [Found(n, Extracted(ws[n].header, ws[n].samples))];
  }

  lemma SoundStep(raws: seq<seq<byte>>)
    requires raws != [] && AllRaw(raws)
    ensures AllRaw(raws[..|raws| - 1])
        && Sound(raws) == Sound(raws[..|raws| - 1]) + IfSound(|raws| - 1, raws[|raws| - 1])
  {
    hide IfSound;
  }

  /** What the tool shows of a sound window is as many samples as its header counts. */
  lemma SamplesAsCounted(raw: seq<byte>)
    requires |raw| == SAMPLE_WINDOW_SIZE && Validated(raw).Some?
    ensures
      var e := Validated(raw).value;
      && |e.samples| == e.header.sampleCount <= 40
      && forall k :: 0 <= k < |e.samples| ==>
           e.samples[k].proximity == Pair(raw, 32 + 4 * k) && e.samples[k].dtMs == Pair(raw, 34 + 4 * k)
  {
    hide Crc32.Checksum, StoredCrc;
  }
}
