/** The recording side of the data logger on values: sessions, the bounded queue, the session files. */
module Logger {
  import opened Bytes
  import opened Windows
  import Crc32

  datatype LoggerState = Idle | Armed | Recording | Failed

  const INVALID_LABEL: byte := 255
  const MIN_EPOCH: u32 := 1577836800

  /** What the surroundings say when a window is completed. */
  datatype Ambient = Ambient(uptime: u32, epoch: u32, wake: u16, detection: u16, critical: u16, sensitivity: byte,
      flags: byte, bootCount: byte)

  /** files maps a session to the bytes of its file. */
  datatype Recorder = Recorder(state: LoggerState, sessionId: u16, windowId: u16, gesture: byte, nextSessionId: u16,
      dropCount: u32,
                               queue: seq<SampleWindow>, files: map<u16, seq<byte>>)

  function StartEpoch(start: u32, a: Ambient): u32 {
    if a.epoch > MIN_EPOCH && a.uptime >= start then (a.epoch - (a.uptime - start) / 1000) % U32_COUNT else 0
  }

  function Completed(r: Recorder, start: u32, a: Ambient, samples: seq<SampleRecord>): SampleWindow {
    var h := WindowHeader(WINDOW_MAGIC, WINDOW_VERSION, WINDOW_SIZE, r.sessionId, r.windowId, r.gesture, 0, start,
        StartEpoch(start, a),
                          a.wake, a.detection, a.critical, a.sensitivity, a.flags, a.bootCount, 0);
    var unsealed := SampleWindow(h, 0, samples);
    unsealed.(crc32 := unsealed.CalculateCRC())
  }

  /** A completed window goes to the queue if a session is being recorded and there is room. */
  function Offer(r: Recorder, depth: nat, start: u32, a: Ambient, samples: seq<SampleRecord>): Recorder {
    if r.state != Recording then r
    else if |r.queue| < depth
        then r.(queue := r.queue + [Completed(r, start, a, samples)], windowId := (r.windowId + 1) % U16_COUNT)
    else r.(dropCount := (r.dropCount + 1) % U32_COUNT)
  }

  predicate Active(r: Recorder) {
    r.state == Recording || r.state == Armed
  }

  predicate Starts(r: Recorder, mounted: bool, gesture: byte) {
    !Active(r) && mounted && gesture != INVALID_LABEL
  }

  function Start(r: Recorder, mounted: bool, gesture: byte): Recorder {
    if Active(r) then r
    else if !mounted then r.(state := Failed)
    else if gesture == INVALID_LABEL then r
    else Opened(r, gesture)
  }

  /** Recording under the next session id. */
  function Opened(r: Recorder, gesture: byte): Recorder {
    r.(state := Recording, sessionId := r.nextSessionId, nextSessionId := (r.nextSessionId + 1) % U16_COUNT,
       windowId := 0, gesture := gesture)
  }

  function Stop(r: Recorder): Recorder {
    if Active(r) then r.(state := Idle) else r
  }

  function FileOf(files: map<u16, seq<byte>>, session: u16): seq<byte> {
    if session in files then files[session] else []
  }

  /** What a write of a window puts into the file when at most limit bytes are taken. */
  function Piece(w: SampleWindow, limit: nat): (s: seq<byte>)
  {
    if limit < |Serialize(w)| then Serialize(w)[..limit] else Serialize(w)
  }

  predicate Cut(w: SampleWindow, limit: nat) {
    limit < |Serialize(w)|
  }

  /** The logger task takes the oldest window and appends it to the file of its session. */
  function WriteNext(r: Recorder, mounted: bool, opens: bool, limit: nat): Recorder {
    if r.queue == [] then r
    else
      var w, rest := r.queue[0], r.queue[1..];
      if !mounted || !opens then r.(state := Failed, queue := rest)
      else
        r.(queue := rest, state := if Cut(w, limit) then Failed else r.state,
           files := r.files[w.header.sessionId := FileOf(r.files, w.header.sessionId) + Piece(w, limit)])
  }

  // ---------- what is stored, and when recording ends

  /** A stored window carries its 40 samples, the session with its label, the thresholds and flags of the moment,
      and the uptime of its first sample with the epoch that belongs to it if the clock is set (to 2020 or later);
      and it is valid. */
  lemma WindowSays(r: Recorder, start: u32, a: Ambient, samples: seq<SampleRecord>)
    ensures
      var w := Completed(r, start, a, samples);
      var h := w.header;
      && w.samples == samples && w.IsValid() && h.sampleCount == 40
      && h.sessionId == r.sessionId && h.windowId == r.windowId && h.gesture == r.gesture
      && h.wakeThreshold == a.wake && h.detectionThreshold == a.detection && h.criticalDetectionThreshold == a.critical
      && h.sensitivity == a.sensitivity && h.flags == a.flags && h.bootCount == a.bootCount
      && h.startUptimeMs == start
      && (a.epoch > 1577836800 && start <= a.uptime && (a.uptime - start) / 1000 <= a.epoch ==>
            h.startEpoch == a.epoch - (a.uptime - start) / 1000)
      && (a.epoch <= 1577836800 || a.uptime < start ==> h.startEpoch == 0)
  {
    hide Crc32.Checksum, HeaderBytes, SampleBytes;
  }

  /** A session starts exactly if none is active, storage is mounted and the label is not the invalid one; it
      then records under the next id and its label, from window 0. */
  lemma StartsIff(r: Recorder, mounted: bool, gesture: byte)
    ensures
      var v := Start(r, mounted, gesture);
      && (v.state == Recording && r.state != Recording <==>
            r.state != Recording && r.state != Armed && mounted && gesture != 255)
      && (v.state == Recording && r.state != Recording ==>
            && v.sessionId == r.nextSessionId && v.windowId == 0 && v.gesture == gesture
            && v.nextSessionId == (r.nextSessionId + 1) % 65536)
      && (r.state == Recording || r.state == Armed ==> v == r)
      && (r.state != Recording && r.state != Armed && !mounted ==> v == r.(state := Failed))
      && v.queue == r.queue && v.files == r.files
  {
  }

  /** After a stop nothing is recorded: windows that fill up leave the recorder as it is. */
  lemma StoppedIsQuiet(r: Recorder, depth: nat, start: u32, a: Ambient, samples: seq<SampleRecord>)
    ensures Stop(r).state != Recording && Offer(Stop(r), depth, start, a, samples) == Stop(r)
    ensures Stop(r) == r.(state := Stop(r).state)
  {
  }

  /** A turn of the logger task takes the oldest window off the queue; recording goes on only if storage is mounted,
      the file opens and takes the whole window. */
  lemma FailedWriteEnds(r: Recorder, mounted: bool, opens: bool, limit: nat)
    requires r.queue != []
    ensures
      var v := WriteNext(r, mounted, opens, limit);
      && v.queue == r.queue[1..]
      && v.state == (if mounted && opens && limit >= 32 + 4 * |r.queue[0].samples| then r.state else Failed)
      && (!mounted || !opens ==> v.files == r.files)
  {
    hide Windows.HeaderBytes, Windows.SampleBytes, Crc32.Field;
  }
}
