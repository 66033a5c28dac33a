/** The data logger: one buffer that samples fill and that shifts in place, sessions, a queue. */
module DataLoggers {
  import opened Bytes
  import opened Windows
  import opened Logger
  import opened Sliding

  /** A full buffer has its samples, and the uptime of the first. */
  datatype Fill = NotYet | Full(start: u32, samples: seq<SampleRecord>)

  /** The window that the last sample of a stream completes, if any. */
  function Filled(stream: seq<SampleRecord>, times: seq<u32>, stride: nat, period: nat): (fill: Fill)
    requires stride > 0 && stream != []
    ensures fill.Full? ==> |fill.samples| == WINDOW_SIZE
  {
    var step := StepOf(WINDOW_SIZE, stride);
    var k := Sliding.Completed(|stream| - 1, WINDOW_SIZE, step);
    CompletedStep(|stream| - 1, WINDOW_SIZE, step);
    if Sliding.Completed(|stream|, WINDOW_SIZE, step) == k then NotYet
    else Full(StartOf(times, k, stride, period), WindowAt(stream, k, WINDOW_SIZE, step))
  }

  class DataLoggerService {
    const sampleBuf: array<SampleRecord>
    const stride: nat
    const samplingPeriodMs: nat
    const queueDepth: nat
    var state: LoggerState
    var sampleIndex: nat
    var windowStartUptime: u32
    var currentSessionId: u16
    var currentWindowId: u16
    var currentLabel: byte
    var nextSessionId: u16
    var dropCount: u32
    var loggerQueue: seq<SampleWindow>
    var files: map<u16, seq<byte>>
    var spiffsMounted: bool

    /** The samples since the buffer was last started afresh, and the uptime of each. */
    ghost var stream: seq<SampleRecord>
    ghost var times: seq<u32>

    ghost function Step(): nat
    {
      StepOf(WINDOW_SIZE, stride)
    }

    function Abstract(): Recorder
      reads this
    {
      Recorder(state, currentSessionId, currentWindowId, currentLabel, nextSessionId, dropCount, loggerQueue, files)
    }

    /** The windows completed so far. */
    ghost function Count(): nat
      reads this
      requires stride > 0
    {
      Sliding.Completed(|stream|, WINDOW_SIZE, Step())
    }

    ghost predicate Valid()
      reads this, sampleBuf
    {
      && sampleBuf.Length == WINDOW_SIZE && stride > 0
      && |times| == |stream|
      && sampleIndex < WINDOW_SIZE
      && |stream| == At(Count(), Step()) + sampleIndex
      && sampleBuf[..sampleIndex] == stream[At(Count(), Step())..]
      && (sampleIndex > 0 ==> windowStartUptime == StartOf(times, Count(), stride, samplingPeriodMs))
    }

    constructor (stride: nat, samplingPeriodMs: nat, queueDepth: nat, nextSessionId: u16, files: map<u16, seq<byte>>,
        mounted: bool)
      requires stride > 0
      ensures Valid() && stream == [] && fresh(sampleBuf)
      ensures this.stride == stride && this.samplingPeriodMs == samplingPeriodMs && this.queueDepth == queueDepth
      ensures Abstract() == Recorder(Idle, 0, 0, 254, nextSessionId, 0, [], files) && spiffsMounted == mounted
    {
      sampleBuf := new SampleRecord[WINDOW_SIZE](_ => SampleRecord(0, 0));
      this.stride, this.samplingPeriodMs, this.queueDepth := stride, samplingPeriodMs, queueDepth;
      state, sampleIndex, windowStartUptime, currentSessionId, currentWindowId, currentLabel := Idle, 0, 0, 0, 0, 254;
      this.nextSessionId, dropCount, loggerQueue, this.files, spiffsMounted := nextSessionId, 0, [], files, mounted;
      stream, times := [], [];
    }

    /** Adds a sample; when it completes the k-th window of the stream, that window is offered. */
    method AppendSample(proximity: u16, dtMs: u16, a: Ambient)
      requires Valid()
      modifies this`sampleIndex, this`windowStartUptime, this`stream, this`times, this`loggerQueue,
          this`currentWindowId,
        this`dropCount, sampleBuf
      ensures Valid()
      ensures stream == old(stream) + [SampleRecord(proximity, dtMs)] && times == old(times) + [a.uptime]
      ensures
        var fill := Filled(stream, times, stride, samplingPeriodMs);
        Abstract() == if fill.Full? then Offer(old(Abstract()), queueDepth, fill.start, a, fill.samples)
                      else old(Abstract())
      ensures Count() == old(Count()) || Count() == old(Count()) + 1
      ensures Count() == old(Count()) ==> Abstract() == old(Abstract())
      ensures Count() == old(Count()) + 1 ==>
                var k := old(Count());
                && At(k, Step()) + WINDOW_SIZE == |stream|
                && Abstract() == Offer(old(Abstract()), queueDepth, StartOf(times, k, stride, samplingPeriodMs), a,
                                       WindowAt(stream, k, WINDOW_SIZE, Step()))
    {
      ghost var k := Count();
      CompletedStep(|stream|, WINDOW_SIZE, Step());
      hide Sliding.Completed, StartOf, At, Offer;
      Store(proximity, dtMs, a.uptime);
      if sampleIndex >= WINDOW_SIZE {
        assert sampleBuf[..] == sampleBuf[..sampleIndex];
        assert stream[At(k, Step())..] == stream[At(k, Step())..At(k, Step()) + WINDOW_SIZE];
        assert sampleBuf[..] == WindowAt(stream, k, WINDOW_SIZE, Step());
        OfferWindow(a);
        Advance(k);
      }
    }

    /** Puts a sample into the buffer, noting the time if it is the first. */
    method Store(proximity: u16, dtMs: u16, uptime: u32)
      requires Valid()
      modifies this`sampleIndex, this`windowStartUptime, this`stream, this`times, sampleBuf
      ensures stream == old(stream) + [SampleRecord(proximity, dtMs)] && times == old(times) + [uptime]
      ensures sampleIndex == old(sampleIndex) + 1
      ensures |stream| == At(old(Count()), Step()) + sampleIndex
      ensures sampleBuf[..sampleIndex] == stream[At(old(Count()), Step())..]
      ensures windowStartUptime == StartOf(times, old(Count()), stride, samplingPeriodMs)
    {
      ghost var k, was := Count(), stream;
      CompletedStep(|stream|, WINDOW_SIZE, Step());
      StartsAt(times, uptime, k, stride, samplingPeriodMs, |stream|);
      hide Sliding.Completed, StartOf, At;
      if sampleIndex == 0 {
        windowStartUptime := uptime;
      }
      sampleBuf[sampleIndex] := SampleRecord(proximity, dtMs);
      sampleIndex := sampleIndex + 1;
      stream, times := stream + [SampleRecord(proximity, dtMs)], times + [uptime];
      assert stream[At(k, Step())..] == was[At(k, Step())..] + [SampleRecord(proximity, dtMs)];
    }

    method OfferWindow(a: Ambient)
      requires sampleBuf.Length == WINDOW_SIZE
      modifies this`loggerQueue, this`currentWindowId, this`dropCount
      ensures Abstract() == Offer(old(Abstract()), queueDepth, windowStartUptime, a, sampleBuf[..])
    {
      if state == Recording {
        var writeWindow := Logger.Completed(Abstract(), windowStartUptime, a, sampleBuf[..]);
        if |loggerQueue| < queueDepth {
          loggerQueue := loggerQueue + [writeWindow];
          currentWindowId := (currentWindowId + 1) % U16_COUNT;
        } else {
          dropCount := (dropCount + 1) % U32_COUNT;
        }
      }
    }

    /** Makes room after the k-th window: overlapping windows keep their tail, shifted to the front. */
    method Advance(ghost k: nat)
      requires sampleBuf.Length == WINDOW_SIZE && stride > 0 && |times| == |stream|
      requires |stream| == At(k, Step()) + WINDOW_SIZE && sampleBuf[..] == stream[At(k, Step())..]
      requires windowStartUptime == StartOf(times, k, stride, samplingPeriodMs)
      requires Count() == k + 1
      modifies this`sampleIndex, this`windowStartUptime, sampleBuf
      ensures Valid()
    {
      hide Sliding.Completed, StartOf, At;
      ghost var kept := stream[At(k, Step())..];
      AtNext(k, Step());
      assert stream[At(k + 1, Step())..] == kept[Step()..];
      if stride < WINDOW_SIZE {
        StartStep(times, k, stride, samplingPeriodMs);
        var keepSamples := WINDOW_SIZE - stride;
        ShiftDown(keepSamples);
        sampleIndex := keepSamples;
        windowStartUptime := (windowStartUptime + At(stride, samplingPeriodMs)) % U32_COUNT;
      } else {
        sampleIndex := 0;
      }
    }

    /** Moves the last n records to the front, in place. */
    method ShiftDown(n: nat)
      requires n <= sampleBuf.Length
      modifies sampleBuf
      ensures sampleBuf[..n] == old(sampleBuf[..])[sampleBuf.Length - n..]
    {
      ghost var was := sampleBuf[..];
      var d := sampleBuf.Length - n;
      for i := 0 to n
        invariant sampleBuf[..i] == was[d..][..i]
        invariant sampleBuf[i..] == was[i..]
      {
        assert sampleBuf[d + i] == sampleBuf[i..][d] == was[d + i];
        sampleBuf[i] := sampleBuf[d + i];
        assert sampleBuf[i + 1..] == was[i..][1..];
      }
    }

    /** The next sample starts a fresh stream. */
    method Restart()
      requires sampleBuf.Length == WINDOW_SIZE && stride > 0
      modifies this`sampleIndex, this`stream, this`times
      ensures Valid() && stream == []
    {
      sampleIndex := 0;
      stream, times := [], [];
    }

    method StartSession(gesture: byte) returns (ok: bool)
      requires Valid()
      modifies this`state, this`currentSessionId, this`nextSessionId, this`currentWindowId, this`currentLabel,
          this`sampleIndex,
        this`stream, this`times
      ensures Valid()
      ensures Abstract() == Start(old(Abstract()), spiffsMounted, gesture) && spiffsMounted == old(spiffsMounted)
      ensures ok <==>
                || Starts(old(Abstract()), spiffsMounted, gesture)
                || (old(state) == Recording && old(currentLabel) == gesture)
      ensures Starts(old(Abstract()), spiffsMounted, gesture) ==> stream == []
      ensures !Starts(old(Abstract()), spiffsMounted, gesture) ==> stream == old(stream) && times == old(times)
    {
      hide Sliding.Completed, StartOf, At;
      if state == Recording || state == Armed {
        return state == Recording && currentLabel == gesture;
      }
      if !spiffsMounted {
        state := Failed;
        return false;
      }
      if gesture == INVALID_LABEL {
        return false;
      }
      Open(gesture);
      return true;
    }

    /** Starts recording under the next session id. */
    method Open(gesture: byte)
      requires Valid()
      modifies this`state, this`currentSessionId, this`nextSessionId, this`currentWindowId, this`currentLabel,
          this`sampleIndex,
        this`stream, this`times
      ensures Valid() && stream == []
      ensures Abstract() == Opened(old(Abstract()), gesture)
    {
      hide Sliding.Completed, StartOf, At;
      currentSessionId := nextSessionId;
      nextSessionId := (nextSessionId + 1) % U16_COUNT;
      currentWindowId, currentLabel := 0, gesture;
      Restart();
      state := Recording;
    }

    method StopSession()
      requires Valid()
      modifies this`state
      ensures Valid() && Abstract() == Stop(old(Abstract()))
    {
      if state != Recording && state != Armed {
        return;
      }
      state := Idle;
    }

    /** One turn of the logger task: the oldest queued window goes to its session's file, as much of it
        as the file system takes. */
    method LoggerTurn(opens: bool, limit: nat)
      requires Valid()
      modifies this`state, this`loggerQueue, this`files
      ensures Valid() && Abstract() == WriteNext(old(Abstract()), spiffsMounted, opens, limit)
    {
      if |loggerQueue| == 0 {
        return;
      }
      var window := loggerQueue[0];
      loggerQueue := loggerQueue[1..];
      if !spiffsMounted {
        state := Failed;
        return;
      }
      if !opens {
        state := Failed;
        return;
      }
      var session, bytes := window.header.sessionId, Serialize(window);
      var written := if limit < |bytes| then limit else |bytes|;
      assert bytes[..written] == Piece(window, limit);
      hide Piece, Serialize;
      files := files[session := FileOf(files, session) + bytes[..written]];
      if written != |bytes| {
        state := Failed;
      }
    }
  }

  lemma StartsAt(times: seq<u32>, now: u32, k: nat, stride: nat, period: nat, n: nat)
    requires n == |times| && stride > 0
        && At(k, StepOf(WINDOW_SIZE, stride)) <= n < At(k, StepOf(WINDOW_SIZE, stride)) + WINDOW_SIZE
    ensures StartOf(times + [now], k, stride, period)
         == if n == At(k, StepOf(WINDOW_SIZE, stride)) && (k == 0 || stride >= WINDOW_SIZE) then now
             else StartOf(times, k, stride, period)
  {
  }

  lemma StartStep(times: seq<u32>, k: nat, stride: nat, period: nat)
    requires times != [] && stride < WINDOW_SIZE
    ensures (StartOf(times, k, stride, period) + At(stride, period)) % U32_COUNT
        == StartOf(times, k + 1, stride, period)
  {
    AtNext(k, At(stride, period));
    hide At;
  }

  /** The start time of the k-th window: a running sum from the first sample while windows overlap,
      the time of its own first sample otherwise. */
  function StartOf(times: seq<u32>, k: nat, stride: nat, period: nat): u32 {
    if stride < WINDOW_SIZE then
      (if times == [] then 0 else (times[0] + At(k, At(stride, period))) % U32_COUNT)
    else
      (if At(k, WINDOW_SIZE) < |times| then times[At(k, WINDOW_SIZE)] else 0)
  }

  /** For samples that come a period apart, the start time of a window is the uptime of its first sample, however
      the windows overlap. */
  lemma StartIsFirstSample(times: seq<u32>, k: nat, stride: nat, period: nat)
    requires 0 < stride < WINDOW_SIZE && At(k, stride) < |times|
    requires forall i :: 0 <= i < |times| ==> times[i] == (times[0] + At(i, period)) % U32_COUNT
    ensures StartOf(times, k, stride, period) == times[At(k, StepOf(WINDOW_SIZE, stride))]
  {
    AtAt(k, stride, period);
    hide At;
  }

  lemma AtAt(k: nat, stride: nat, period: nat)
    ensures At(k, At(stride, period)) == At(At(k, stride), period)
  {
  }
}
