/** The flasher's globals and the code that changes them: HTTP callbacks and the main loop. Every method
    is specified by the corresponding function of module Flasher. */
module FlasherServices {
  import opened Bytes
  import opened Events
  import opened FlashDevices
  import opened Flasher

  const IDLE_LIMIT_MS: u32 := 30000
  const BATTERY_INTERVAL_MS: u32 := 10000

  /** Limits that the build configures. */
  datatype Limits = Limits(progressMs: u32, chunkReceiveMs: u32, chunkWriteMs: u32, minVoltageMv: u32)

  /** Timers that have run out when the main loop looks at them, and a low battery. */
  datatype Timers = Timers(idle: bool, progress: bool, receive: bool, write: bool, batteryLow: bool)

  /** The plain records the flasher keeps in globals, without the chunk's data. */
  datatype FlasherState = FlasherState(phase: Phase, sessionId: u32, written: u32, total: u32, lastChunkIndex: int,
                                       lastActivityMs: u32, lastProgressMs: u32, uploadStarted: bool)
  datatype PendingChunk = PendingChunk(state: BufferState, sessionId: u32, chunkIndex: int, totalChunks: int,
                                       expectedSize: nat, receivedSize: nat, startMs: u32)

  const NO_PENDING := PendingChunk(BufferIdle, 0, -1, 0, 0, 0, 0)

  function Elapsed(now: u32, since: u32): u32 {
    (now - since) % U32_COUNT
  }

  function TimersAt(s: FlasherState, p: PendingChunk, lastBattCheck: u32, l: Limits, now: u32, batteryMv: u32): Timers {
    Timers(Elapsed(now, s.lastActivityMs) > IDLE_LIMIT_MS,
           s.uploadStarted && s.lastProgressMs > 0 && Elapsed(now, s.lastProgressMs) > l.progressMs,
           p.startMs > 0 && Elapsed(now, p.startMs) > l.chunkReceiveMs,
           p.startMs > 0 && Elapsed(now, p.startMs) > l.chunkWriteMs,
           Elapsed(now, lastBattCheck) > BATTERY_INTERVAL_MS && s.uploadStarted && batteryMv < l.minVoltageMv)
  }

  /** The readings that the watchdogs go by. */
  datatype Clocks = Clocks(activity: u32, progress: u32, chunkStart: u32, uploadStarted: bool, battCheck: u32)

  class FlasherService {
    const update: FlashDevice
    const data: array<byte>
    var state: FlasherState
    var pending: PendingChunk
    var pendingAction: Action
    var pendingSessionId: u32
    var pendingTotalSize: u32
    var chunkResponseCode: nat
    var lastBattCheck: u32
    const limits: Limits

    ghost predicate Valid()
      reads this, update
    {
      pending.receivedSize <= data.Length && |update.contents| <= update.size
    }

    ghost function Abstract(): State
      reads this, data, update
      requires Valid()
    {
      State(state.phase, state.sessionId, state.written, state.total, state.lastChunkIndex,
            Chunk(pending.state, pending.sessionId, pending.chunkIndex, pending.totalChunks, pending.expectedSize,
                data[..pending.receivedSize]),
            pendingAction, pendingSessionId, pendingTotalSize, update.contents, update.size)
    }

    function TheClocks(): Clocks
      reads this
    {
      Clocks(state.lastActivityMs, state.lastProgressMs, pending.startMs, state.uploadStarted, lastBattCheck)
    }

    /** The globals at startup, once the server is up. */
    constructor (update: FlashDevice, maxChunkSize: nat, limits: Limits, now: u32)
      requires update.contents == []
      ensures Valid() && fresh(data) && data.Length == maxChunkSize && this.update == update
      ensures Abstract() == State(Ready, 0, 0, 0, -1, NO_CHUNK, NoAction, 0, 0, [], update.size)
    {
      this.update, this.limits := update, limits;
      data := new byte[maxChunkSize](_ => 0);
      state, pending, lastBattCheck := FlasherState(Ready, 0, 0, 0, -1, now, 0, false), NO_PENDING, 0;
      pendingAction, pendingSessionId, pendingTotalSize, chunkResponseCode := NoAction, 0, 0, 200;
    }

    method TransitionPhase(next: Phase)
      modifies this`state
      ensures state == old(state).(phase := Moved(old(state.phase), next))
    {
      if state.phase == next {
        return;
      }
      if !TransitionAllowed(state.phase, next) {
        return;
      }
      state := state.(phase := next);
    }

    // ---------- server callbacks

    method HandleUploadStart(h: Headers, now: u32)
      requires Valid()
      modifies this`state, this`pending, this`chunkResponseCode
      ensures Valid() && Abstract() == UploadStart(old(Abstract()), h, data.Length)
      ensures chunkResponseCode == 202 <==> old(pending.state) != BufferReceiving && pending.state == BufferReceiving
      ensures chunkResponseCode ==
                if old(state.phase) != Receiving || old(pending.state) != BufferIdle then 409
                else if h.session.None? || h.index.None? || h.totalChunks.None? then 400
                else if h.session.value != old(state.sessionId) then 409
                else if h.index.value <= old(state.lastChunkIndex) then 200
                else
                  var size := if h.chunkSize.Some? then h.chunkSize.value
                      else if h.contentLength.Some? then h.contentLength.value else 0;
                  if size == 0 || size > data.Length then 413 else 202
      ensures TheClocks() == old(TheClocks()).(activity := now,
          chunkStart := if chunkResponseCode == 202 then now else old(pending.startMs))
    {
      state := state.(lastActivityMs := now);
      chunkResponseCode := 202;
      if state.phase != Receiving {
        chunkResponseCode := 409;
        return;
      }
      if pending.state != BufferIdle {
        chunkResponseCode := 409;
        return;
      }
      if h.session.None? || h.index.None? || h.totalChunks.None? {
        Refuse();
        chunkResponseCode := 400;
        return;
      }
      if state.sessionId != h.session.value {
        Refuse();
        chunkResponseCode := 409;
        return;
      }
      if h.index.value <= state.lastChunkIndex {
        chunkResponseCode := 200;
        return;
      }
      var size := 0;
      if h.chunkSize.Some? {
        size := h.chunkSize.value;
      } else if h.contentLength.Some? {
        size := h.contentLength.value;
      }
      if size == 0 || size > data.Length {
        Refuse();
        chunkResponseCode := 413;
        return;
      }
      pending := PendingChunk(BufferReceiving, h.session.value, h.index.value, h.totalChunks.value, size, 0, now);
    }

    method Refuse()
      modifies this`state, this`pending
      ensures state == old(state).(phase := Error) && pending == old(pending).(state := BufferError)
    {
      state, pending := state.(phase := Error), pending.(state := BufferError);
    }

    method HandleUploadWrite(buf: array<byte>, currentSize: nat)
      requires Valid() && currentSize <= buf.Length && buf != data
      modifies this`state, this`pending, this`chunkResponseCode, data
      ensures Valid() && Abstract() == UploadWrite(old(Abstract()), buf[..currentSize], data.Length)
      ensures TheClocks() == old(TheClocks())
      ensures chunkResponseCode == if old(pending.state) == BufferReceiving && pending.state == BufferError then 400
          else old(chunkResponseCode)
    {
      if pending.state != BufferReceiving {
        return;
      }
      if currentSize == 0 {
        return;
      }
      var nextSize := pending.receivedSize + currentSize;
      if nextSize > pending.expectedSize || nextSize > data.Length {
        Refuse();
        chunkResponseCode := 400;
        return;
      }
      ghost var before := data[..pending.receivedSize];
      forall i | 0 <= i < currentSize {
        data[pending.receivedSize + i] := buf[i];
      }
      pending := pending.(receivedSize := nextSize);
      assert data[..pending.receivedSize] == before + buf[..currentSize];
    }

    method HandleUploadEnd(now: u32)
      requires Valid()
      modifies this`state, this`pending, this`chunkResponseCode
      ensures Valid() && Abstract() == UploadEnd(old(Abstract()))
      ensures TheClocks() == old(TheClocks()).(chunkStart :=
          if old(pending.state) == BufferReceiving && pending.state == BufferQueued then now else old(pending.startMs))
      ensures chunkResponseCode == if old(pending.state) == BufferReceiving && pending.state == BufferError then 400
          else old(chunkResponseCode)
    {
      if pending.state != BufferReceiving {
        return;
      }
      if pending.receivedSize != pending.expectedSize {
        Refuse();
        chunkResponseCode := 400;
        return;
      }
      pending := pending.(state := BufferQueued, startMs := now);
    }

    method HandleUploadAborted()
      requires Valid()
      modifies this`pending, this`chunkResponseCode
      ensures Valid() && Abstract() == UploadAborted(old(Abstract()))
      ensures TheClocks() == old(TheClocks()).(chunkStart := 0) && chunkResponseCode == 499
    {
      chunkResponseCode := 499;
      pending := NO_PENDING;
    }

    method HandleStart(session: Option<u32>, size: Option<u32>, partition: Option<nat>, now: u32) returns (code: nat)
      requires Valid()
      modifies this`state, this`pendingAction, this`pendingSessionId, this`pendingTotalSize
      ensures Valid() && Abstract() == StartRequest(old(Abstract()), session, size, partition)
      ensures code ==
                if old(state.phase) != Ready then 409
                else if session.None? || size.None? || session.value == 0 || size.value < 1024 then 400
                else if partition.None? then 500
                else if size.value > partition.value then 413
                else 200
      ensures code == 200 <==> StartAccepted(old(Abstract()), session, size, partition)
      ensures state == old(state).(lastActivityMs := now)
    {
      state := state.(lastActivityMs := now);
      if state.phase != Ready {
        return 409;
      }
      if session.None? || size.None? {
        return 400;
      }
      if session.value == 0 {
        return 400;
      }
      if size.value < 1024 {
        return 400;
      }
      if partition.None? {
        return 500;
      }
      if size.value > partition.value {
        return 413;
      }
      pendingSessionId, pendingTotalSize, pendingAction := session.value, size.value, StartSession;
      return 200;
    }

    method HandleAbort()
      requires Valid()
      modifies this`pendingAction
      ensures Valid() && Abstract() == AbortRequest(old(Abstract()))
    {
      pendingAction := AbortReset;
    }

    // ---------- the main loop

    method ResetFlasherState(now: u32)
      requires Valid()
      modifies this, update`contents
      ensures Valid() && Abstract() == Reset(old(Abstract()))
      ensures TheClocks() == Clocks(now, 0, 0, false, old(lastBattCheck)) && chunkResponseCode == 200
    {
      update.Abort();
      state := FlasherState(Ready, 0, 0, 0, -1, now, 0, false);
      pending := NO_PENDING;
      chunkResponseCode := 200;
      pendingAction, pendingSessionId, pendingTotalSize := NoAction, 0, 0;
    }

    method StartPendingSession(beginOk: bool, now: u32)
      requires Valid()
      modifies this, update
      ensures Valid() && Abstract() == Begin(old(Abstract()), beginOk)
      ensures TheClocks() == Clocks(now, if beginOk then now else 0, 0, beginOk || old(state.uploadStarted),
                                    old(lastBattCheck))
      ensures chunkResponseCode == old(chunkResponseCode)
    {
      hide Moved;
      pendingAction := NoAction;
      TransitionPhase(Erasing);
      state := FlasherState(state.phase, pendingSessionId, 0, pendingTotalSize, -1, now, 0, state.uploadStarted);
      pending := NO_PENDING;
      pendingSessionId, pendingTotalSize := 0, 0;
      var beginSuccess := update.Begin(state.total, beginOk);
      if beginSuccess {
        TransitionPhase(Receiving);
        state := state.(uploadStarted := true, lastProgressMs := now);
      } else {
        state := state.(phase := Error, sessionId := 0, total := 0);
      }
    }

    /** restart tells that the device restarts now. */
    method ExecutePendingAction(beginOk: bool, now: u32) returns (restart: bool)
      requires Valid()
      modifies this, update
      ensures Valid() && Abstract() == RunAction(old(Abstract()), beginOk)
      ensures (restart <==> old(pendingAction) == RebootSuccess) && pendingAction == NoAction
      ensures TheClocks() == match old(pendingAction)
                             case AbortReset => Clocks(now, 0, 0, false, old(lastBattCheck))
                             case StartSession => Clocks(now, if beginOk then now else 0, 0,
                                                         beginOk || old(state.uploadStarted), old(lastBattCheck))
                             case _ => old(TheClocks())
    {
      var action := pendingAction;
      restart := false;
      match action {
        case NoAction =>
        case AbortReset => ResetFlasherState(now);
        case StartSession => StartPendingSession(beginOk, now);
        case RebootSuccess =>
          pendingAction := NoAction;
          restart := true;
      }
    }

    method ProcessPendingChunk(limit: nat, endOk: bool, now: u32)
      requires Valid()
      modifies this`state, this`pending, this`pendingAction, update`contents
      ensures Valid() && Abstract() == ProcessChunk(old(Abstract()), limit, endOk)
      ensures TheClocks() == old(TheClocks()).(
          progress := if Commits(old(Abstract()), limit) then now else old(state.lastProgressMs),
          chunkStart := if old(pending.state) == BufferQueued && pending.state == BufferIdle then 0
              else old(pending.startMs))
    {
      hide Moved;
      if pending.state != BufferQueued {
        return;
      }
      if state.phase != Receiving {
        pending := NO_PENDING;
        return;
      }
      pending := pending.(state := BufferWriting);
      var bytesWritten := update.Write(data, pending.receivedSize, limit);
      if bytesWritten != pending.receivedSize {
        state := state.(phase := Error);
        update.Abort();
        pending := pending.(state := BufferError);
        return;
      }
      state := state.(written := (state.written + bytesWritten) % U32_COUNT, lastChunkIndex := pending.chunkIndex,
          lastProgressMs := now);
      if pending.totalChunks > 0 && pending.chunkIndex == pending.totalChunks - 1 {
        TransitionPhase(Verifying);
        if endOk {
          TransitionPhase(Complete);
          pendingAction := RebootSuccess;
        } else {
          state := state.(phase := Error);
        }
      }
      if pending.state != BufferError {
        pending := NO_PENDING;
      }
    }

    /** One look at the clock: which timers have run out, and what that ends. */
    method RunWatchdogs(now: u32, batteryMv: u32)
      requires Valid()
      modifies this`state, this`pending, this`lastBattCheck, update`contents
      ensures Valid()
      ensures Abstract() == Watched(old(Abstract()),
          TimersAt(old(state), old(pending), old(lastBattCheck), limits, now, batteryMv))
      ensures lastBattCheck == if Elapsed(now, old(lastBattCheck)) > BATTERY_INTERVAL_MS then now
          else old(lastBattCheck)
      ensures state == old(state).(phase := state.phase) && (pending == old(pending) || pending == NO_PENDING)
    {
      hide TimersAt, Watched;
      var timers := ReadTimers(now, batteryMv);
      CheckTimers(timers);
    }

    /** Which timers have run out; a battery check that is due is made. */
    method ReadTimers(now: u32, batteryMv: u32) returns (timers: Timers)
      modifies this`lastBattCheck
      ensures timers == TimersAt(state, pending, old(lastBattCheck), limits, now, batteryMv)
      ensures lastBattCheck == if Elapsed(now, old(lastBattCheck)) > BATTERY_INTERVAL_MS then now
          else old(lastBattCheck)
    {
      var idle := (now - state.lastActivityMs) % U32_COUNT > 30000;
      var stalled := state.uploadStarted && state.lastProgressMs > 0
          && (now - state.lastProgressMs) % U32_COUNT > limits.progressMs;
      var chunkAge := (now - pending.startMs) % U32_COUNT;
      var batteryLow := false;
      if (now - lastBattCheck) % U32_COUNT > 10000 {
        lastBattCheck := now;
        batteryLow := state.uploadStarted && batteryMv < limits.minVoltageMv;
      }
      timers := Timers(idle, stalled, pending.startMs > 0 && chunkAge > limits.chunkReceiveMs,
          pending.startMs > 0 && chunkAge > limits.chunkWriteMs, batteryLow);
    }

    /** The watchdogs in the order the loop takes them. */
    method CheckTimers(t: Timers)
      requires Valid()
      modifies this`state, this`pending, update`contents
      ensures Valid() && Abstract() == Watched(old(Abstract()), t)
      ensures state == old(state).(phase := state.phase) && (pending == old(pending) || pending == NO_PENDING)
    {
      hide Watchdog;
      Watch(IdleTooLong, t.idle);
      Watch(NoProgress, t.progress);
      Watch(ChunkTooSlow, t.receive);
      Watch(ChunkNotWritten, t.write);
      Watch(BatteryLow, t.batteryLow);
    }

    /** One watchdog: it ends a session that it watches, and empties the buffer unless only power is low. */
    method Watch(a: Alarm, ranOut: bool)
      requires Valid()
      modifies this`state, this`pending, update`contents
      ensures Valid() && Abstract() == if ranOut then Watchdog(old(Abstract()), a) else old(Abstract())
      ensures state == old(state).(phase := state.phase) && (pending == old(pending) || pending == NO_PENDING)
    {
      var watches := state.phase == Receiving;
      if a == IdleTooLong {
        watches := watches || state.phase == Erasing;
      } else if a == ChunkTooSlow {
        watches := watches && pending.state == BufferReceiving;
      } else if a == ChunkNotWritten {
        watches := watches && pending.state == BufferQueued;
      }
      if watches && ranOut {
        Stop();
        if a != BatteryLow {
          pending := NO_PENDING;
        }
      }
    }

    method Stop()
      requires Valid()
      modifies this`state, update`contents
      ensures Valid() && state == old(state).(phase := Error) && update.contents == []
    {
      state := state.(phase := Error);
      update.Abort();
    }
  }

  function Watched(s: State, t: Timers): State {
    var a := if t.idle then Watchdog(s, IdleTooLong) else s;
    var b := if t.progress then Watchdog(a, NoProgress) else a;
    var c := if t.receive then Watchdog(b, ChunkTooSlow) else b;
    var d := if t.write then Watchdog(c, ChunkNotWritten) else c;
    if t.batteryLow then Watchdog(d, BatteryLow) else d
  }

  // ---------- when the watchdogs end a session

  /** stamp is the 32-bit reading of a clock at real time at, no longer ago than one round of it. */
  predicate ReadAt(stamp: u32, at: nat, t: nat) {
    at <= t < at + U32_COUNT && stamp == at % U32_COUNT
  }

  lemma ElapsedIs(now: u32, stamp: u32, at: nat, t: nat)
    requires ReadAt(stamp, at, t) && now == t % U32_COUNT
    ensures Elapsed(now, stamp) == t - at
  {
    var p, q := t / U32_COUNT, at / U32_COUNT;
    assert t == U32_COUNT * p + now && at == U32_COUNT * q + stamp;
    assert p == q || p == q + 1;
  }

  /** A session that receives ends at time t exactly if the client has been silent for more than 30 seconds, or no
      chunk was committed for longer than allowed, or the chunk in the buffer has been arriving or waiting to be
      written for too long, or a battery check is due, 10 seconds after the last one, and finds it low. A session
      that erases ends only by silence, and any other state is left alone. What ends loses what was written. */
  lemma SessionEndsIff(s: State, f: FlasherState, p: PendingChunk, lastBattCheck: u32, l: Limits, batteryMv: u32,
      t: nat, activity: nat, progress: nat, chunk: nat, checked: nat)
    requires s.phase == f.phase && s.chunk.state == p.state
    requires ReadAt(f.lastActivityMs, activity, t) && ReadAt(f.lastProgressMs, progress, t)
    requires ReadAt(p.startMs, chunk, t) && ReadAt(lastBattCheck, checked, t)
    ensures
      var v := Watched(s, TimersAt(f, p, lastBattCheck, l, t % U32_COUNT, batteryMv));
      var silent := t - activity > 30000;
      var stuck := f.uploadStarted && f.lastProgressMs > 0 && t - progress > l.progressMs;
      var slow := p.startMs > 0 && p.state == BufferReceiving && t - chunk > l.chunkReceiveMs;
      var unwritten := p.startMs > 0 && p.state == BufferQueued && t - chunk > l.chunkWriteMs;
      var low := t - checked > 10000 && f.uploadStarted && batteryMv < l.minVoltageMv;
      if s.phase == Receiving && (silent || stuck || slow || unwritten || low) then
        v.phase == Error && v.flash == []
            && v.chunk == if silent || stuck || slow || unwritten then NO_CHUNK else s.chunk
      else if s.phase == Erasing && silent then v.phase == Error && v.flash == [] && v.chunk == NO_CHUNK
      else v == s
  {
    var now := t % U32_COUNT;
    ElapsedIs(now, f.lastActivityMs, activity, t);
    ElapsedIs(now, f.lastProgressMs, progress, t);
    ElapsedIs(now, p.startMs, chunk, t);
    ElapsedIs(now, lastBattCheck, checked, t);
    hide Elapsed;
  }
}
