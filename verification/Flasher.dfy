/** Firmware over Wi-Fi: a server that buffers one chunk, and a main loop that writes it to flash and
    carries out what the server left for it to do. */
module Flasher {
  import opened Bytes
  import opened Events
  import opened FlashDevices

  datatype Phase =
    | Init | BatteryCheck | WifiStart | Ready | Erasing | Receiving | Verifying | Complete | Success | Error

  predicate TransitionAllowed(from: Phase, to: Phase) {
    to == Error ||
    match from
    case Init => to == BatteryCheck
    case BatteryCheck => to == WifiStart
    case WifiStart => to == Ready
    case Ready => to == Erasing
    case Erasing => to == Receiving
    case Receiving => to == Verifying || to == Complete
    case Verifying => to == Complete
    case _ => false
  }

  /** A transition that is not allowed is ignored. */
  function Moved(from: Phase, to: Phase): Phase {
    if TransitionAllowed(from, to) then to else from
  }

  datatype BufferState = BufferIdle | BufferReceiving | BufferQueued | BufferWriting | BufferError

  datatype Chunk = Chunk(state: BufferState, sessionId: u32, index: int, totalChunks: int, expectedSize: nat,
      received: seq<byte>)

  const NO_CHUNK := Chunk(BufferIdle, 0, -1, 0, 0, [])

  datatype Action = NoAction | AbortReset | StartSession | RebootSuccess

  /** flash is what the update partition holds, room what it was opened for. */
  datatype State = State(phase: Phase, sessionId: u32, written: u32, total: u32, lastChunkIndex: int, chunk: Chunk,
                         action: Action, pendingSessionId: u32, pendingTotalSize: u32, flash: seq<byte>, room: nat)

  const MIN_IMAGE_SIZE := 1024

  // ---------- requests

  /** Headers of a chunk; a header that is missing is None. */
  datatype Headers = Headers(session: Option<u32>, index: Option<int>, totalChunks: Option<int>,
      chunkSize: Option<nat>, contentLength: Option<nat>)

  function Claimed(h: Headers): nat {
    if h.chunkSize.Some? then h.chunkSize.value else if h.contentLength.Some? then h.contentLength.value else 0
  }

  function BadUpload(s: State): State {
    s.(phase := Error, chunk := s.chunk.(state := BufferError))
  }

  function UploadStart(s: State, h: Headers, max: nat): State {
    if s.phase != Receiving || s.chunk.state != BufferIdle then s
    else if h.session.None? || h.index.None? || h.totalChunks.None? || s.sessionId != h.session.value then BadUpload(s)
    else if h.index.value <= s.lastChunkIndex then s
    else if Claimed(h) == 0 || Claimed(h) > max then BadUpload(s)
    else s.(chunk := Chunk(BufferReceiving, h.session.value, h.index.value, h.totalChunks.value, Claimed(h), []))
  }

  function UploadWrite(s: State, part: seq<byte>, max: nat): State {
    if s.chunk.state != BufferReceiving || part == [] then s
    else if |s.chunk.received| + |part| > s.chunk.expectedSize || |s.chunk.received| + |part| > max then BadUpload(s)
    else s.(chunk := s.chunk.(received := s.chunk.received + part))
  }

  function UploadWrites(s: State, parts: seq<seq<byte>>, max: nat): State {
    if parts == [] then s else UploadWrite(UploadWrites(s, parts[..|parts| - 1], max), parts[|parts| - 1], max)
  }

  function UploadEnd(s: State): State {
    if s.chunk.state != BufferReceiving then s
    else if |s.chunk.received| != s.chunk.expectedSize then BadUpload(s)
    else s.(chunk := s.chunk.(state := BufferQueued))
  }

  function UploadAborted(s: State): State {
    s.(chunk := NO_CHUNK)
  }

  /** One post of a chunk: the server reads all its parts before it does anything else. */
  function Upload(s: State, h: Headers, parts: seq<seq<byte>>, ended: bool, max: nat): State {
    var v := UploadWrites(UploadStart(s, h, max), parts, max);
    if ended then UploadEnd(v) else UploadAborted(v)
  }

  predicate StartAccepted(s: State, session: Option<u32>, size: Option<u32>, partition: Option<nat>) {
    && s.phase == Ready
    && session.Some? && size.Some? && session.value != 0 && size.value >= MIN_IMAGE_SIZE
    && partition.Some? && size.value <= partition.value
  }

  function StartRequest(s: State, session: Option<u32>, size: Option<u32>, partition: Option<nat>): State {
    if StartAccepted(s, session, size, partition) then
      s.(action := StartSession, pendingSessionId := session.value, pendingTotalSize := size.value)
    else s
  }

  function AbortRequest(s: State): State {
    s.(action := AbortReset)
  }

  // ---------- the main loop

  function Reset(s: State): State {
    State(Ready, 0, 0, 0, -1, NO_CHUNK, NoAction, 0, 0, [], s.room)
  }

  function Begin(s: State, beginOk: bool): State {
    var v := s.(phase := Moved(s.phase, Erasing), sessionId := s.pendingSessionId, total := s.pendingTotalSize,
                written := 0, lastChunkIndex := -1, chunk := NO_CHUNK, action := NoAction,
                pendingSessionId := 0, pendingTotalSize := 0);
    if beginOk then v.(phase := Moved(v.phase, Receiving), flash := [], room := v.total)
    else v.(phase := Error, sessionId := 0, total := 0)
  }

  /** Carries out what was pending, except the restart. */
  function RunAction(s: State, beginOk: bool): State {
    match s.action
    case NoAction => s
    case AbortReset => Reset(s)
    case StartSession => Begin(s, beginOk)
    case RebootSuccess => s.(action := NoAction)
  }

  predicate Commits(s: State, limit: nat) {
    && s.chunk.state == BufferQueued && s.phase == Receiving && |s.flash| <= s.room
    && Taken(s.room, |s.flash|, |s.chunk.received|, limit) == |s.chunk.received|
  }

  predicate Final(k: Chunk) {
    k.totalChunks > 0 && k.index == k.totalChunks - 1
  }

  function ProcessChunk(s: State, limit: nat, endOk: bool): State {
    if s.chunk.state != BufferQueued then s
    else if s.phase != Receiving then s.(chunk := NO_CHUNK)
    else if !Commits(s, limit) then s.(phase := Error, flash := [], chunk := s.chunk.(state := BufferError))
    else
      var v := s.(flash := s.flash + s.chunk.received, written := (s.written + |s.chunk.received|) % U32_COUNT,
                  lastChunkIndex := s.chunk.index, chunk := NO_CHUNK);
      if !Final(s.chunk) then v
      else if endOk then v.(phase := Moved(Moved(s.phase, Verifying), Complete), action := RebootSuccess)
      else v.(phase := Error)
  }

  datatype Alarm = IdleTooLong | NoProgress | ChunkTooSlow | ChunkNotWritten | BatteryLow

  predicate Watches(s: State, a: Alarm) {
    match a
    case IdleTooLong => s.phase == Receiving || s.phase == Erasing
    case ChunkTooSlow => s.phase == Receiving && s.chunk.state == BufferReceiving
    case ChunkNotWritten => s.phase == Receiving && s.chunk.state == BufferQueued
    case _ => s.phase == Receiving
  }

  function Watchdog(s: State, a: Alarm): State {
    if !Watches(s, a) then s
    else s.(phase := Error, flash := [], chunk := if a == BatteryLow then s.chunk else NO_CHUNK)
  }
}
