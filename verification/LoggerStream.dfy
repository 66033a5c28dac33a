/** From the sample stream to the extracted file: every window of a session's file is a piece of the
    stream that was sampled while the session was recorded, at its place. */
module LoggerStream {
  import opened Bytes
  import opened Windows
  import opened Logger
  import opened Sliding
  import opened DataLoggers
  import opened Extract
  import LoggerRuns

  datatype Settings = Settings(stride: nat, period: nat, depth: nat) {

    function Step(): nat {
      StepOf(WINDOW_SIZE, stride)
    }
  }

  /** What was sampled while a session was recorded and when, which of its windows were queued, and how
      many were dropped; and the label it was started with. */
  datatype Session = Session(gesture: byte, stream: seq<SampleRecord>, times: seq<u32>, kept: seq<nat>, dropped: nat)

  /** stream and times are what fills the buffer; sessions is bookkeeping that the firmware does not have. */
  datatype Device = Device(w: LoggerRuns.World, stream: seq<SampleRecord>, times: seq<u32>,
      sessions: map<u16, Session>)

  datatype Step =
    | Sample(record: SampleRecord, ambient: Ambient)
    | StartSession(mounted: bool, gesture: byte)
    | StopSession
    | Turn(mounted: bool, opens: bool, limit: nat)

  /** What the recorder sees of a step: a sample offers a window exactly when it fills the buffer. */
  function Seen(d: Device, c: Settings, step: Step): seq<LoggerRuns.Step>
    requires c.stride > 0
  {
    match step
    case Sample(record, a) =>
      var fill := Filled(d.stream + [record], d.times + [a.uptime], c.stride, c.period);
      if fill.Full? then [LoggerRuns.DoOffer(c.depth, fill.start, a, fill.samples)] else []
    case StartSession(mounted, gesture) => [LoggerRuns.DoStart(mounted, gesture)]
    case StopSession => [LoggerRuns.DoStop]
    case Turn(mounted, opens, limit) => [LoggerRuns.DoWrite(mounted, opens, limit)]
  }

  /** One more sample, and what became of the window it completed. */
  function More(s: Session, record: SampleRecord, now: u32, kept: seq<nat>, dropped: nat): Session {
    Session(s.gesture, s.stream + [record], s.times + [now], s.kept + kept, s.dropped + dropped)
  }

  function Apply(d: Device, c: Settings, step: Step): Device
    requires c.stride > 0
  {
    var seen := Seen(d, c, step);
    var r, w := d.w.r, if seen == [] then d.w else LoggerRuns.Apply(d.w, seen[0]);
    match step
    case Sample(record, a) =>
      var number := Sliding.Completed(|d.stream|, WINDOW_SIZE, c.Step());
      var kept := if seen != [] && |r.queue| < c.depth then [number] else [];
      var dropped := if seen != [] && |r.queue| >= c.depth then 1 else 0;
      Device(w, d.stream + [record], d.times + [a.uptime],
             if r.state == Recording && r.sessionId in d.sessions
             then d.sessions[r.sessionId := More(d.sessions[r.sessionId], record, a.uptime, kept, dropped)]
             else d.sessions)
    case StartSession(mounted, gesture) =>
      var begun := Session(gesture, [], [], [], 0);
      if Starts(r, mounted, gesture) then Device(w, [], [], d.sessions[r.nextSessionId := begun])
      else d.(w := w)
    case _ => d.(w := w)
  }

  function Run(d: Device, c: Settings, steps: seq<Step>): Device
    requires c.stride > 0
  {
    if steps == [] then d else Apply(Run(d, c, steps[..|steps| - 1]), c, steps[|steps| - 1])
  }

  predicate Fresh(d: Device) {
    LoggerRuns.Fresh(d.w) && d.stream == [] && d.times == [] && d.sessions == map[]
  }

  // ---------- the recorder sees a run

  function AllSeen(d: Device, c: Settings, steps: seq<Step>): seq<LoggerRuns.Step>
    requires c.stride > 0
  {
    if steps == [] then [] else
      var init := steps[..|steps| - 1];
      AllSeen(d, c, init) + Seen(Run(d, c, init), c, steps[|steps| - 1])
  }

  lemma {:induction false} RecorderFollows(d: Device, c: Settings, steps: seq<Step>)
    requires c.stride > 0
    ensures Run(d, c, steps).w == LoggerRuns.Run(d.w, AllSeen(d, c, steps))
    ensures LoggerRuns.WholeWindows(AllSeen(d, c, steps))
  {
    if steps != [] {
      var init, step := steps[..|steps| - 1], steps[|steps| - 1];
      RecorderFollows(d, c, init);
      SeenApplied(Run(d, c, init), c, step);
      RunOneMore(d.w, AllSeen(d, c, init), Seen(Run(d, c, init), c, step));
      hide Apply, Seen, LoggerRuns.Apply, LoggerRuns.Run, LoggerRuns.WholeWindows;
    }
  }

  lemma RunOneMore(w: LoggerRuns.World, before: seq<LoggerRuns.Step>, seen: seq<LoggerRuns.Step>)
    requires |seen| <= 1
    ensures LoggerRuns.Run(w, before + seen)
         == if seen == [] then LoggerRuns.Run(w, before) else LoggerRuns.Apply(LoggerRuns.Run(w, before), seen[0])
    ensures
      var whole := LoggerRuns.WholeWindows(before)
          && (seen != [] && seen[0].DoOffer? ==> |seen[0].samples| == WINDOW_SIZE);
      whole ==> LoggerRuns.WholeWindows(before + seen)
  {
    hide LoggerRuns.Apply;
    if seen == [] {
      assert before + seen == before;
    } else {
      assert (before + seen)[..|before + seen| - 1] == before;
    }
  }

  lemma SeenApplied(d: Device, c: Settings, step: Step)
    requires c.stride > 0
    ensures var seen := Seen(d, c, step);
      Apply(d, c, step).w == if seen == [] then d.w else LoggerRuns.Apply(d.w, seen[0])
    ensures |Seen(d, c, step)| <= 1
    ensures var seen := Seen(d, c, step);
      seen != [] && seen[0].DoOffer? ==> |seen[0].samples| == WINDOW_SIZE
  {
    hide LoggerRuns.Apply, Filled;
  }

  // ---------- the windows of a session are windows of its stream

  /** w is the window with this number of the session's stream. */
  predicate IsWindow(w: SampleWindow, s: Session, c: Settings, number: nat)
    requires c.stride > 0
  {
    && number < Sliding.Completed(|s.stream|, WINDOW_SIZE, c.Step())
    && At(number, c.Step()) + WINDOW_SIZE <= |s.stream|
    && w.samples == WindowAt(s.stream, number, WINDOW_SIZE, c.Step())
    && w.header.startUptimeMs == StartOf(s.times, number, c.stride, c.period)
    && w.header.gesture == s.gesture
  }

  predicate Increasing(kept: seq<nat>) {
    forall i, j :: 0 <= i < j < |kept| ==> kept[i] < kept[j]
  }

  /** The windows queued for a session are those it kept, in order. */
  predicate Traced(ws: seq<SampleWindow>, s: Session, c: Settings)
    requires c.stride > 0
  {
    && |s.times| == |s.stream| && |ws| == |s.kept| && Increasing(s.kept)
    && |s.kept| + s.dropped == Sliding.Completed(|s.stream|, WINDOW_SIZE, c.Step())
    && forall j :: 0 <= j < |ws| ==> IsWindow(ws[j], s, c, s.kept[j])
  }

  lemma StartStable(times: seq<u32>, now: u32, number: nat, c: Settings)
    requires c.stride > 0 && At(number, c.Step()) + WINDOW_SIZE <= |times|
    ensures StartOf(times + [now], number, c.stride, c.period) == StartOf(times, number, c.stride, c.period)
  {
    hide At;
  }

  lemma WindowStays(w: SampleWindow, s: Session, c: Settings, number: nat, record: SampleRecord, now: u32,
      kept: seq<nat>, dropped: nat)
    requires c.stride > 0 && |s.times| == |s.stream| && IsWindow(w, s, c, number)
    ensures IsWindow(w, More(s, record, now, kept, dropped), c, number)
  {
    CompletedStep(|s.stream|, WINDOW_SIZE, c.Step());
    StartStable(s.times, now, number, c);
    hide Sliding.Completed, At, StartOf;
    assert (s.stream + [record])[At(number, c.Step())..At(number, c.Step()) + WINDOW_SIZE]
        == s.stream[At(number, c.Step())..At(number, c.Step()) + WINDOW_SIZE];
  }

  /** A sample that fills no buffer, or whose window is dropped. */
  lemma NothingKept(ws: seq<SampleWindow>, s: Session, c: Settings, record: SampleRecord, now: u32)
    requires c.stride > 0 && Traced(ws, s, c)
    ensures
      var fill := Filled(s.stream + [record], s.times + [now], c.stride, c.period);
      Traced(ws, More(s, record, now, [], if fill.Full? then 1 else 0), c)
  {
    var fill := Filled(s.stream + [record], s.times + [now], c.stride, c.period);
    var dropped := if fill.Full? then 1 else 0;
    FillCounts(s.stream, record, s.times + [now], c);
    hide IsWindow, Filled, Sliding.Completed;
    forall j | 0 <= j < |ws|
      ensures IsWindow(ws[j], More(s, record, now, [], dropped), c, s.kept[j])
    {
      WindowStays(ws[j], s, c, s.kept[j], record, now, [], dropped);
    }
  }

  lemma FillCounts(stream: seq<SampleRecord>, record: SampleRecord, times: seq<u32>, c: Settings)
    requires c.stride > 0
    ensures Sliding.Completed(|stream + [record]|, WINDOW_SIZE, c.Step())
         == Sliding.Completed(|stream|, WINDOW_SIZE, c.Step())
             + if Filled(stream + [record], times, c.stride, c.period).Full? then 1 else 0
  {
    CompletedStep(|stream|, WINDOW_SIZE, c.Step());
    assert |stream + [record]| - 1 == |stream|;
    hide Sliding.Completed, At, StartOf;
  }

  /** A sample that fills the buffer. */
  lemma OneKept(ws: seq<SampleWindow>, s: Session, c: Settings, record: SampleRecord, a: Ambient, r: Recorder)
    requires c.stride > 0 && Traced(ws, s, c) && r.gesture == s.gesture
    requires Filled(s.stream + [record], s.times + [a.uptime], c.stride, c.period).Full?
    ensures
      var fill := Filled(s.stream + [record], s.times + [a.uptime], c.stride, c.period);
      var number := Sliding.Completed(|s.stream|, WINDOW_SIZE, c.Step());
      Traced(ws + [Logger.Completed(r, fill.start, a, fill.samples)],
             More(s, record, a.uptime, [number], 0), c)
  {
    var number := Sliding.Completed(|s.stream|, WINDOW_SIZE, c.Step());
    var fill := Filled(s.stream + [record], s.times + [a.uptime], c.stride, c.period);
    var after := More(s, record, a.uptime, [number], 0);
    FilledIsWindow(s, c, record, a, r);
    FillCounts(s.stream, record, s.times + [a.uptime], c);
    hide Filled, Logger.Completed, Sliding.Completed;
    forall j | 0 <= j < |ws|
      ensures IsWindow(ws[j], after, c, s.kept[j]) && s.kept[j] < number
    {
      WindowStays(ws[j], s, c, s.kept[j], record, a.uptime, [number], 0);
    }
    hide IsWindow;
  }

  lemma FilledIsWindow(s: Session, c: Settings, record: SampleRecord, a: Ambient, r: Recorder)
    requires c.stride > 0 && |s.times| == |s.stream| && r.gesture == s.gesture
    requires Filled(s.stream + [record], s.times + [a.uptime], c.stride, c.period).Full?
    ensures
      var fill := Filled(s.stream + [record], s.times + [a.uptime], c.stride, c.period);
      var number := Sliding.Completed(|s.stream|, WINDOW_SIZE, c.Step());
      IsWindow(Logger.Completed(r, fill.start, a, fill.samples),
               More(s, record, a.uptime, [number], 0), c, number)
  {
    CompletedStep(|s.stream|, WINDOW_SIZE, c.Step());
    hide Sliding.Completed, At, StartOf, StartEpoch;
    var all := s.stream + [record];
    assert |all| - 1 == |s.stream|;
  }

  // ---------- in every run

  /** The session being recorded is in step with the buffer. */
  predicate InStep(d: Device) {
    && |d.times| == |d.stream|
    && (d.w.r.state == Recording ==>
          && d.w.r.sessionId in d.sessions
          && d.sessions[d.w.r.sessionId].stream == d.stream && d.sessions[d.w.r.sessionId].times == d.times
          && d.sessions[d.w.r.sessionId].gesture == d.w.r.gesture)
  }

  /** A session is traced, its drops are counted, and its id is one of those handed out. */
  predicate SessionTraced(d: Device, c: Settings, first: u16, id: u16)
    requires c.stride > 0 && id in d.sessions
  {
    && LoggerRuns.Age(id, first) < d.w.starts
    && d.sessions[id].dropped <= d.w.dropped
    && Traced(LoggerRuns.Of(d.w.enqueued, id), d.sessions[id], c)
  }

  predicate AllTraced(d: Device, c: Settings, first: u16)
    requires c.stride > 0
  {
    InStep(d) && forall id: u16 :: id in d.sessions ==> SessionTraced(d, c, first, id)
  }

  lemma {:induction false} TracedAlways(d: Device, c: Settings, steps: seq<Step>)
    requires c.stride > 0 && Fresh(d) && Run(d, c, steps).w.starts <= U16_COUNT
    ensures AllTraced(Run(d, c, steps), c, d.w.r.nextSessionId)
  {
    if steps != [] {
      var init, step := steps[..|steps| - 1], steps[|steps| - 1];
      var v := Run(d, c, init);
      assert v.w.starts <= Apply(v, c, step).w.starts by { StartsGrow(v, c, step); }
      TracedAlways(d, c, init);
      RecorderFollows(d, c, init);
      LoggerRuns.IdsCountUp(d.w, AllSeen(d, c, init));
      hide AllTraced, LoggerRuns.SessionsSound, AllSeen;
      TracedStep(v, c, step, d.w.r.nextSessionId);
    }
  }

  lemma StartsGrow(d: Device, c: Settings, step: Step)
    requires c.stride > 0
    ensures d.w.starts <= Apply(d, c, step).w.starts
  {
    hide Filled;
  }

  lemma InStepKept(d: Device, c: Settings, step: Step)
    requires c.stride > 0 && InStep(d)
    ensures InStep(Apply(d, c, step))
  {
    hide Filled, Logger.Completed, Piece, FileOf, Cut, Sliding.Completed;
  }

  lemma TracedStep(d: Device, c: Settings, step: Step, first: u16)
    requires c.stride > 0 && AllTraced(d, c, first) && LoggerRuns.SessionsSound(d.w, first)
    requires Apply(d, c, step).w.starts <= U16_COUNT
    ensures AllTraced(Apply(d, c, step), c, first)
  {
    InStepKept(d, c, step);
    hide SessionTraced, LoggerRuns.SessionsSound;
    forall id: u16 | id in Apply(d, c, step).sessions
      ensures SessionTraced(Apply(d, c, step), c, first, id)
    {
      match step {
        case Sample(record, a) => SampleTraced(d, c, record, a, first, id);
        case StartSession(mounted, gesture) => StartTraced(d, c, mounted, gesture, first, id);
        case StopSession => SameWindows(d, c, step, first, id);
        case Turn(mounted, opens, limit) => SameWindows(d, c, step, first, id);
      }
    }
  }

  lemma SameWindows(d: Device, c: Settings, step: Step, first: u16, id: u16)
    requires c.stride > 0 && (step.StopSession? || step.Turn?)
    requires id in d.sessions && SessionTraced(d, c, first, id)
    ensures id in Apply(d, c, step).sessions && SessionTraced(Apply(d, c, step), c, first, id)
  {
    hide Traced, LoggerRuns.Age, LoggerRuns.Of, Piece, FileOf, Cut;
  }

  lemma StartTraced(d: Device, c: Settings, mounted: bool, gesture: byte, first: u16, id: u16)
    requires c.stride > 0 && LoggerRuns.SessionsSound(d.w, first)
    requires Apply(d, c, StartSession(mounted, gesture)).w.starts <= U16_COUNT
    requires id in Apply(d, c, StartSession(mounted, gesture)).sessions
    requires id in d.sessions ==> SessionTraced(d, c, first, id)
    ensures SessionTraced(Apply(d, c, StartSession(mounted, gesture)), c, first, id)
  {
    if Starts(d.w.r, mounted, gesture) && id == d.w.r.nextSessionId {
      LoggerRuns.NotYetUsed(d.w.enqueued, id, first, d.w.starts);
      assert Traced([], Session(gesture, [], [], [], 0), c);
    }
    hide Traced, LoggerRuns.Of, LoggerRuns.Numbered;
  }

  lemma SampleTraced(d: Device, c: Settings, record: SampleRecord, a: Ambient, first: u16, id: u16)
    requires c.stride > 0 && InStep(d) && id in d.sessions && SessionTraced(d, c, first, id)
    ensures SessionTraced(Apply(d, c, Sample(record, a)), c, first, id)
  {
    var r, u := d.w.r, Apply(d, c, Sample(record, a));
    var fill := Filled(d.stream + [record], d.times + [a.uptime], c.stride, c.period);
    if r.state == Recording && fill.Full? && |r.queue| < c.depth {
      QueuedTraced(d, c, record, a, first, id);
    } else {
      assert u.w.enqueued == d.w.enqueued;
      if r.state == Recording && id == r.sessionId {
        NothingKept(LoggerRuns.Of(d.w.enqueued, id), d.sessions[id], c, record, a.uptime);
      }
      hide Traced, LoggerRuns.Of, Filled, Logger.Completed, LoggerRuns.Age, Sliding.Completed;
    }
  }

  lemma QueuedTraced(d: Device, c: Settings, record: SampleRecord, a: Ambient, first: u16, id: u16)
    requires c.stride > 0 && InStep(d) && id in d.sessions && SessionTraced(d, c, first, id)
    requires d.w.r.state == Recording && |d.w.r.queue| < c.depth
    requires Filled(d.stream + [record], d.times + [a.uptime], c.stride, c.period).Full?
    ensures SessionTraced(Apply(d, c, Sample(record, a)), c, first, id)
  {
    var r, u := d.w.r, Apply(d, c, Sample(record, a));
    var fill := Filled(d.stream + [record], d.times + [a.uptime], c.stride, c.period);
    var window := Logger.Completed(r, fill.start, a, fill.samples);
    Queued(d, c, record, a);
    hide Apply, Seen, Traced, LoggerRuns.Of, Filled, Logger.Completed, LoggerRuns.Age, Sliding.Completed, More, At,
        StartOf, StartEpoch;
    OneMoreOf(d.w.enqueued, window, id);
    if id == r.sessionId {
      OneKept(LoggerRuns.Of(d.w.enqueued, id), d.sessions[id], c, record, a, r);
    }
  }

  lemma OneMoreOf(all: seq<SampleWindow>, window: SampleWindow, id: u16)
    ensures LoggerRuns.Of(all + [window], id)
         == if window.header.sessionId == id then LoggerRuns.Of(all, id) + [window] else LoggerRuns.Of(all, id)
  {
    LoggerRuns.OfSnoc(all, window, id);
    hide LoggerRuns.Of;
  }

  /** What a sample changes that completes a window for which the queue has room. */
  lemma Queued(d: Device, c: Settings, record: SampleRecord, a: Ambient)
    requires c.stride > 0 && InStep(d) && d.w.r.state == Recording && |d.w.r.queue| < c.depth
    requires Filled(d.stream + [record], d.times + [a.uptime], c.stride, c.period).Full?
    ensures
      var r, u := d.w.r, Apply(d, c, Sample(record, a));
      var fill := Filled(d.stream + [record], d.times + [a.uptime], c.stride, c.period);
      var window := Logger.Completed(r, fill.start, a, fill.samples);
      var number := Sliding.Completed(|d.stream|, WINDOW_SIZE, c.Step());
      && window.header.sessionId == r.sessionId && u.w.enqueued == d.w.enqueued + [window]
      && u.w.starts == d.w.starts && u.w.dropped == d.w.dropped
      && u.sessions == d.sessions[r.sessionId := More(d.sessions[r.sessionId], record, a.uptime, [number], 0)]
      && More(d.sessions[r.sessionId], record, a.uptime, [number], 0).dropped == d.sessions[r.sessionId].dropped
  {
    hide Filled, Sliding.Completed, Windows.SampleWindow.CalculateCRC, StartEpoch;
  }

  // ---------- what the extraction tool finds

  /** Kept all means kept 0, 1, 2 and so on. */
  lemma {:induction false} KeptAll(kept: seq<nat>, n: nat)
    requires Increasing(kept) && (forall j :: 0 <= j < |kept| ==> kept[j] < n)
    ensures |kept| <= n && (|kept| == n ==> forall j :: 0 <= j < n ==> kept[j] == j)
  {
    if kept != [] {
      var last := |kept| - 1;
      KeptAll(kept[..last], kept[last]);
    }
  }

  /** The main result: once the queue is drained without a failed write, extracting the file of a session
      that began empty lists windows of the very samples taken while it was recorded, in order, each whole,
      at its place in the stream, with its own start time and the session's label; if none was dropped, every
      one of them. */
  lemma ExtractReturnsTheStream(d: Device, c: Settings, steps: seq<Step>, session: u16)
    requires c.stride > 0 && Fresh(d) && FileOf(d.w.r.files, session) == []
    requires session in Run(d, c, steps).sessions
    requires var w := Run(d, c, steps).w; w.failed == 0 && w.r.queue == [] && w.starts <= U16_COUNT
    ensures
      var v := Run(d, c, steps);
      var s, found := v.sessions[session], ExtractAll(FileOf(v.w.r.files, session));
      && |found| == |s.kept| == Sliding.Completed(|s.stream|, WINDOW_SIZE, c.Step()) - s.dropped
      && (forall j :: 0 <= j < |found| ==> Shows(found[j], s, c, s.kept[j]))
      && (s.dropped == 0 ==> forall j :: 0 <= j < |found| ==> s.kept[j] == j)
      && s.dropped <= v.w.dropped
  {
    var v, seen := Run(d, c, steps), AllSeen(d, c, steps);
    TracedAlways(d, c, steps);
    RecorderFollows(d, c, steps);
    LoggerRuns.ExtractReturnsTheSession(d.w, seen, session);
    var s, ws := v.sessions[session], LoggerRuns.Of(v.w.enqueued, session);
    assert SessionTraced(v, c, d.w.r.nextSessionId, session);
    hide Run, AllSeen, ExtractAll, LoggerRuns.Of, AllTraced, Sliding.Completed, At, StartOf, FileOf;
    KeptAll(s.kept, Sliding.Completed(|s.stream|, WINDOW_SIZE, c.Step()));
  }

  /** The tool shows the window with this number of the session's stream. */
  predicate Shows(f: Found, s: Session, c: Settings, number: nat)
    requires c.stride > 0
  {
    && At(number, c.Step()) + WINDOW_SIZE <= |s.stream|
    && f.window.samples == WindowAt(s.stream, number, WINDOW_SIZE, c.Step())
    && f.window.header.startUptimeMs == StartOf(s.times, number, c.stride, c.period)
    && f.window.header.gesture == s.gesture
  }

  // ---------- every sample of a session is in its stream

  /** The session has recorded exactly these samples. */
  predicate HasRecorded(v: Device, id: u16, gesture: byte, steps: seq<Step>) {
    && v.w.r.state == Recording && v.w.r.sessionId == id && id in v.sessions
    && var s := v.sessions[id];
    && s.gesture == gesture && |s.stream| == |s.times| == |steps|
    && forall k :: 0 <= k < |steps| ==>
         steps[k].Sample? && s.stream[k] == steps[k].record && s.times[k] == steps[k].ambient.uptime
  }

  lemma OneMoreRecorded(v: Device, c: Settings, id: u16, gesture: byte, steps: seq<Step>, step: Step)
    requires c.stride > 0 && HasRecorded(v, id, gesture, steps) && step.Sample?
    ensures HasRecorded(Apply(v, c, step), id, gesture, steps + [step])
  {
    hide Filled, Logger.Completed, Sliding.Completed;
  }

  predicate OnlySamples(steps: seq<Step>) {
    forall k :: 0 <= k < |steps| ==> steps[k].Sample?
  }

  /** From a start that is accepted on, every sample is the session's, in order, until it is stopped. */
  lemma {:induction false} RecordsEverySample(d: Device, c: Settings, mounted: bool, gesture: byte, steps: seq<Step>)
    requires c.stride > 0 && Starts(d.w.r, mounted, gesture) && OnlySamples(steps)
    ensures HasRecorded(Run(Apply(d, c, StartSession(mounted, gesture)), c, steps), d.w.r.nextSessionId, gesture, steps)
  {
    if steps != [] {
      var init, step := steps[..|steps| - 1], steps[|steps| - 1];
      assert steps == init + [step];
      RecordsEverySample(d, c, mounted, gesture, init);
      hide Apply, HasRecorded;
      OneMoreRecorded(Run(Apply(d, c, StartSession(mounted, gesture)), c, init), c, d.w.r.nextSessionId, gesture, init,
                      step);
    }
  }
}
