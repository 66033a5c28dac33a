/** Whole firmware uploads: any order of requests and of main loop steps. */
module FlasherRuns {
  import opened Bytes
  import opened Events
  import opened FlashDevices
  import opened Flasher

  datatype Step =
    | DoStart(session: Option<u32>, size: Option<u32>, partition: Option<nat>)
    | DoAbort
    | DoUpload(headers: Headers, parts: seq<seq<byte>>, ended: bool)
    | DoAction(beginOk: bool)
    | DoProcess(limit: nat, endOk: bool)
    | DoWatch(alarm: Alarm)

  /** log lists the chunks committed in this session, for the proofs; rebooted is the end of a run. */
  datatype World = World(s: State, log: seq<nat>, rebooted: bool)

  const READY := World(State(Ready, 0, 0, 0, -1, NO_CHUNK, NoAction, 0, 0, [], 0), [], false)

  function Apply(w: World, step: Step, max: nat): World {
    var s := w.s;
    if w.rebooted then w else
    match step
    case DoStart(session, size, partition) => w.(s := StartRequest(s, session, size, partition))
    case DoAbort => w.(s := AbortRequest(s))
    case DoUpload(headers, parts, ended) => w.(s := Upload(s, headers, parts, ended, max))
    case DoAction(beginOk) =>
      var over := s.action == AbortReset || s.action == StartSession;
      World(RunAction(s, beginOk), if over then [] else w.log, s.action == RebootSuccess)
    case DoProcess(limit, endOk) =>
      var logs := Commits(s, limit) && s.chunk.index >= 0;
      w.(s := ProcessChunk(s, limit, endOk), log := if logs then w.log + [s.chunk.index] else w.log)
    case DoWatch(alarm) => w.(s := Watchdog(s, alarm))
  }

  function Run(w: World, steps: seq<Step>, max: nat): World {
    if steps == [] then w else Apply(Run(w, steps[..|steps| - 1], max), steps[|steps| - 1], max)
  }

  function Concat(parts: seq<seq<byte>>): seq<byte> {
    if parts == [] then [] else Concat(parts[..|parts| - 1]) + parts[|parts| - 1]
  }

  // ---------- clients

  /** The image has n chunks, chunk i being c(i). */
  datatype Source = Source(c: nat -> seq<byte>, n: nat)

  /** What a client posts for a chunk is that chunk, whole or cut short. */
  predicate Truthful(step: Step, src: Source) {
    step.DoUpload? && step.headers.index.Some? && step.headers.totalChunks.Some? ==>
      var h := step.headers;
      && h.totalChunks.value == src.n && h.index.value < src.n
      && (h.index.value >= 0 ==>
            var data := src.c(h.index.value);
            Claimed(h) == |data| && Concat(step.parts) <= data)
  }

  predicate AllTruthful(steps: seq<Step>, src: Source) {
    forall k :: 0 <= k < |steps| ==> Truthful(steps[k], src)
  }

  function FlatOf(log: seq<nat>, c: nat -> seq<byte>): seq<byte> {
    if log == [] then [] else FlatOf(log[..|log| - 1], c) + c(log[|log| - 1])
  }

  function LastOf(log: seq<nat>): int {
    if log == [] then -1 else log[|log| - 1]
  }

  predicate Increasing(log: seq<nat>) {
    forall i, j :: 0 <= i < j < |log| ==> log[i] < log[j]
  }

  // ---------- what every run keeps

  predicate ChunkSound(s: State, src: Source, max: nat) {
    var k := s.chunk;
    && (k.state == BufferIdle || k.state == BufferQueued || k.state == BufferError)
    && (k.state == BufferQueued ==>
          && 0 <= k.index < src.n && k.totalChunks == src.n
          && |k.received| == k.expectedSize <= max
          && k.received == src.c(k.index)
          && (s.phase == Receiving ==> k.index > s.lastChunkIndex))
  }

  predicate FlashSound(w: World, src: Source) {
    var s := w.s;
    && s.lastChunkIndex == LastOf(w.log) && Increasing(w.log)
    && (s.phase == Receiving || s.phase == Complete ==>
          && s.flash == FlatOf(w.log, src.c)
          && s.written == |s.flash| <= s.room == s.total)
    && (s.phase == Receiving && src.n > 0 ==> s.lastChunkIndex < src.n - 1)
    && (s.phase == Complete ==> s.lastChunkIndex == src.n - 1 && w.log != [])
  }

  predicate ActionSound(w: World) {
    && (w.s.action == RebootSuccess ==> w.s.phase == Complete)
    && (w.s.action == StartSession ==> w.s.phase == Ready && w.s.pendingTotalSize >= MIN_IMAGE_SIZE)
    && (w.rebooted ==> w.s.phase == Complete)
    && w.s.phase != Verifying && w.s.phase != Erasing
  }

  predicate Sound(w: World, src: Source, max: nat) {
    ChunkSound(w.s, src, max) && FlashSound(w, src) && ActionSound(w)
  }

  lemma FlatSnoc(log: seq<nat>, i: nat, c: nat -> seq<byte>)
    ensures FlatOf(log + [i], c) == FlatOf(log, c) + c(i)
  {
    assert (log + [i])[..|log|] == log;
  }

  /** A post ends with the buffer as it was, emptied, in error, or holding the whole chunk. */
  lemma UploadOutcome(s: State, h: Headers, parts: seq<seq<byte>>, ended: bool, max: nat)
    requires s.chunk.state != BufferReceiving
    ensures
      var u, v := UploadStart(s, h, max), Upload(s, h, parts, ended, max);
      && v == v.(phase := s.phase, chunk := s.chunk).(phase := v.phase, chunk := v.chunk)
      && s == v.(phase := s.phase, chunk := s.chunk)
      && (v.phase == s.phase || (s.phase == Receiving && v.phase == Error))
      && (v.chunk == s.chunk || v.chunk == NO_CHUNK || v.chunk.state == BufferError
          || (u.chunk.state == BufferReceiving && ended && v.phase == s.phase
              && v.chunk == u.chunk.(state := BufferQueued, received := Concat(parts))
                  && |Concat(parts)| == Claimed(h) <= max))
  {
    WritesOutcome(UploadStart(s, h, max), parts, max);
  }

  lemma {:induction false} WritesOutcome(u: State, parts: seq<seq<byte>>, max: nat)
    requires u.chunk.state == BufferReceiving ==>
        u.chunk.received == [] && u.phase == Receiving && u.chunk.expectedSize <= max
    ensures
      var v := UploadWrites(u, parts, max);
      if u.chunk.state != BufferReceiving then v == u
      else v == u.(chunk := u.chunk.(received := Concat(parts)))
           || (v.phase == Error && v.chunk.state == BufferError && v == u.(phase := Error, chunk := v.chunk))
  {
    if parts != [] {
      WritesOutcome(u, parts[..|parts| - 1], max);
    }
  }

  lemma ApplySound(w: World, step: Step, src: Source, max: nat)
    requires Sound(w, src, max) && Truthful(step, src)
    ensures Sound(Apply(w, step, max), src, max)
  {
    match step {
      case DoUpload(h, parts, ended) =>
        UploadSound(w, h, parts, ended, src, max);
      case DoProcess(limit, endOk) =>
        if !w.rebooted {
          ProcessSound(w, limit, endOk, src, max);
        }
      case _ =>
        hide FlatOf, ProcessChunk, Upload;
    }
  }

  lemma UploadSound(w: World, h: Headers, parts: seq<seq<byte>>, ended: bool, src: Source, max: nat)
    requires Sound(w, src, max) && Truthful(DoUpload(h, parts, ended), src)
    ensures Sound(w.(s := Upload(w.s, h, parts, ended, max)), src, max)
  {
    UploadOutcome(w.s, h, parts, ended, max);
    hide Upload, UploadWrites, Concat, FlatOf, LastOf, Increasing;
  }

  lemma ProcessSound(w: World, limit: nat, endOk: bool, src: Source, max: nat)
    requires Sound(w, src, max) && !w.rebooted
    ensures Sound(Apply(w, DoProcess(limit, endOk), max), src, max)
  {
    hide FlatOf, LastOf, Increasing;
    if Commits(w.s, limit) {
      CommitSound(w, limit, endOk, src, max);
    }
  }

  lemma CommitSound(w: World, limit: nat, endOk: bool, src: Source, max: nat)
    requires Sound(w, src, max) && !w.rebooted && Commits(w.s, limit)
    ensures Sound(Apply(w, DoProcess(limit, endOk), max), src, max)
  {
    var s, i := w.s, w.s.chunk.index;
    LogSnoc(w.log, i, src.c);
    CommitIs(s, limit, endOk);
    hide ProcessChunk, FlatOf, LastOf, Increasing, Taken;
  }

  lemma CommitIs(s: State, limit: nat, endOk: bool)
    requires Commits(s, limit) && s.written == |s.flash| && s.room < U32_COUNT
    ensures
      var v := ProcessChunk(s, limit, endOk);
      && v.flash == s.flash + s.chunk.received && v.written == |v.flash| <= s.room == v.room && v.total == s.total
      && v.lastChunkIndex == s.chunk.index && v.chunk == NO_CHUNK
      && v.phase == (if !Final(s.chunk) then Receiving else if endOk then Complete else Error)
      && v.action == (if Final(s.chunk) && endOk then RebootSuccess else s.action)
      && v.pendingTotalSize == s.pendingTotalSize
  {
  }

  lemma LogSnoc(log: seq<nat>, i: nat, c: nat -> seq<byte>)
    requires Increasing(log) && i > LastOf(log)
    ensures Increasing(log + [i]) && LastOf(log + [i]) == i
    ensures FlatOf(log + [i], c) == FlatOf(log, c) + c(i)
  {
    FlatSnoc(log, i, c);
    assert log != [] ==> forall k :: 0 <= k < |log| ==> log[k] <= log[|log| - 1];
  }

  lemma {:induction false} RunSound(w: World, steps: seq<Step>, src: Source, max: nat)
    requires Sound(w, src, max) && AllTruthful(steps, src)
    ensures Sound(Run(w, steps, max), src, max)
  {
    if steps != [] {
      var init := steps[..|steps| - 1];
      assert AllTruthful(init, src);
      RunSound(w, init, src, max);
      ApplySound(Run(w, init, max), steps[|steps| - 1], src, max);
    }
  }

  // ---------- what is in flash when the device restarts

  /** Truthful posts in any order: flash is the committed chunks, each index at most once, in order,
      up to the last one of the image; written is its length. */
  lemma RestartsOnCommitted(steps: seq<Step>, src: Source, max: nat)
    requires AllTruthful(steps, src)
    ensures
      var r := Run(READY, steps, max);
      r.rebooted ==>
        && r.s.flash == FlatOf(r.log, src.c) && r.s.written == |r.s.flash|
        && Increasing(r.log) && LastOf(r.log) == src.n - 1
  {
    RunSound(READY, steps, src, max);
  }

  function FirstN(n: nat): (log: seq<nat>)
    ensures |log| == n && forall j :: 0 <= j < n ==> log[j] == j
  {
    seq(n, j requires 0 <= j => j)
  }

  /** The post fills the buffer with a new chunk. */
  predicate Fills(s: State, step: Step, max: nat) {
    step.DoUpload? && s.chunk.state == BufferIdle && UploadStart(s, step.headers, max).chunk.state == BufferReceiving
  }

  /** The post that last filled the buffer was for the chunk after the last one committed. */
  predicate LastPostInTurn(w: World, steps: seq<Step>, max: nat) {
    if steps == [] then true else
      var init, step := steps[..|steps| - 1], steps[|steps| - 1];
      var v := Run(w, init, max);
      if !v.rebooted && Fills(v.s, step, max) then step.headers.index == Some(v.s.lastChunkIndex + 1)
      else LastPostInTurn(w, init, max)
  }

  predicate EndsSession(v: World, step: Step) {
    !v.rebooted && step.DoAction? && (v.s.action == AbortReset || v.s.action == StartSession)
  }

  /** In the last session, every post whose chunk was committed was for the chunk after the last one
      committed when it was made. */
  predicate CommittedInTurn(w: World, steps: seq<Step>, max: nat) {
    if steps == [] then true else
      var init, step := steps[..|steps| - 1], steps[|steps| - 1];
      var v := Run(w, init, max);
      if EndsSession(v, step) then true
      else if !v.rebooted && step.DoProcess? && Commits(v.s, step.limit) then
        CommittedInTurn(w, init, max) && LastPostInTurn(w, init, max)
      else CommittedInTurn(w, init, max)
  }

  /** What the history of posts says about the state. */
  predicate TurnsKnown(w: World, steps: seq<Step>, max: nat) {
    var r := Run(w, steps, max);
    && (r.s.chunk.state == BufferQueued && r.s.phase == Receiving ==>
          (LastPostInTurn(w, steps, max) <==> r.s.chunk.index == r.s.lastChunkIndex + 1))
    && (CommittedInTurn(w, steps, max) <==> r.log == FirstN(|r.log|))
  }

  lemma {:induction false} TurnsAlwaysKnown(steps: seq<Step>, src: Source, max: nat)
    requires AllTruthful(steps, src)
    ensures TurnsKnown(READY, steps, max)
  {
    if steps != [] {
      var init, step := steps[..|steps| - 1], steps[|steps| - 1];
      assert AllTruthful(init, src);
      TurnsAlwaysKnown(init, src, max);
      RunSound(READY, init, src, max);
      var v := Run(READY, init, max);
      hide Sound, FirstN, LastPostInTurn, CommittedInTurn, Upload, ProcessChunk, RunAction, Watchdog;
      BufferTurn(READY, steps, src, max);
      LogTurn(READY, steps, src, max);
    }
  }

  lemma BufferTurn(w: World, steps: seq<Step>, src: Source, max: nat)
    requires steps != [] && TurnsKnown(w, steps[..|steps| - 1], max)
        && Sound(Run(w, steps[..|steps| - 1], max), src, max)
    ensures
      var r := Run(w, steps, max);
      r.s.chunk.state == BufferQueued && r.s.phase == Receiving ==>
        (LastPostInTurn(w, steps, max) <==> r.s.chunk.index == r.s.lastChunkIndex + 1)
  {
    var init, step := steps[..|steps| - 1], steps[|steps| - 1];
    var v := Run(w, init, max);
    assert Run(w, steps, max) == Apply(v, step, max);
    assert v.s.chunk.state != BufferReceiving;
    hide Run, Sound, Commits, CommittedInTurn, FirstN, Fills;
    if v.rebooted {
      assert Apply(v, step, max) == v;
    } else if step.DoUpload? {
      PostTurn(v.s, step, max);
      assert Apply(v, step, max).s == Upload(v.s, step.headers, step.parts, step.ended, max);
    } else {
      OthersKeepBuffer(v, step, max);
    }
    hide Apply, Upload;
  }

  /** A chunk queued after a post was queued by it, as its headers say, or was there before. */
  lemma PostTurn(s: State, step: Step, max: nat)
    requires step.DoUpload? && s.chunk.state != BufferReceiving
    ensures
      var v := Upload(s, step.headers, step.parts, step.ended, max);
      v.chunk.state == BufferQueued && v.phase == Receiving ==>
        && v.lastChunkIndex == s.lastChunkIndex && s.phase == Receiving
        && if Fills(s, step, max) then step.headers.index == Some(v.chunk.index) else v.chunk == s.chunk
  {
    UploadOutcome(s, step.headers, step.parts, step.ended, max);
    hide Upload, UploadWrites, Concat;
  }

  lemma OthersKeepBuffer(w: World, step: Step, max: nat)
    requires !step.DoUpload?
    ensures
      var r := Apply(w, step, max);
      r.s.chunk.state == BufferQueued && r.s.phase == Receiving ==>
        r.s.chunk == w.s.chunk && r.s.lastChunkIndex == w.s.lastChunkIndex && w.s.phase == Receiving
  {
  }

  predicate Committing(v: World, step: Step) {
    !v.rebooted && step.DoProcess? && Commits(v.s, step.limit)
  }

  /** What a step does to the log. */
  lemma LogAfter(v: World, step: Step, src: Source, max: nat)
    requires Sound(v, src, max)
    ensures Committing(v, step) ==>
              && v.s.chunk.index > LastOf(v.log) == v.s.lastChunkIndex && v.s.chunk.index >= 0
              && v.s.chunk.state == BufferQueued && v.s.phase == Receiving
    ensures Apply(v, step, max).log
         == if EndsSession(v, step) then [] else if Committing(v, step) then v.log + [v.s.chunk.index] else v.log
  {
    hide FlatOf, Increasing, Upload, ProcessChunk, RunAction, Watchdog, Taken, LastOf;
  }

  lemma LogTurn(w: World, steps: seq<Step>, src: Source, max: nat)
    requires steps != [] && TurnsKnown(w, steps[..|steps| - 1], max)
        && Sound(Run(w, steps[..|steps| - 1], max), src, max)
    ensures
      var r := Run(w, steps, max);
      CommittedInTurn(w, steps, max) <==> r.log == FirstN(|r.log|)
  {
    var init, step := steps[..|steps| - 1], steps[|steps| - 1];
    var v := Run(w, init, max);
    assert Run(w, steps, max) == Apply(v, step, max);
    hide Run, Apply, Sound, Commits, FirstN, LastPostInTurn, LastOf;
    LogAfter(v, step, src, max);
    if EndsSession(v, step) {
      NothingInOrder();
    } else if Committing(v, step) {
      TurnSnoc(v.log, v.s.chunk.index);
    }
  }

  lemma NothingInOrder()
    ensures [] == FirstN(0)
  {
  }

  lemma TurnSnoc(log: seq<nat>, i: nat)
    requires i > LastOf(log)
    ensures log + [i] == FirstN(|log| + 1) <==> log == FirstN(|log|) && i == LastOf(log) + 1
  {
    if log == FirstN(|log|) && i == LastOf(log) + 1 {
      assert log + [i] == FirstN(|log| + 1);
    }
    if log + [i] == FirstN(|log| + 1) {
      assert forall j :: 0 <= j < |log| ==> log[j] == (log + [i])[j];
      assert (log + [i])[|log|] == i;
      assert log == FirstN(|log|);
    }
  }

  /** Every chunk of the first n that is not in the log is empty. */
  predicate SkipsOnlyEmpty(log: seq<nat>, n: nat, c: nat -> seq<byte>) {
    forall i :: 0 <= i < n && i !in log ==> c(i) == []
  }

  /** What flash lacks is exactly the skipped chunks: it holds the image only if all of them are empty. */
  lemma {:induction false} FlatIff(log: seq<nat>, n: nat, c: nat -> seq<byte>)
    requires Increasing(log) && LastOf(log) < n
    ensures |FlatOf(log, c)| <= |FlatOf(FirstN(n), c)|
    ensures FlatOf(log, c) == FlatOf(FirstN(n), c) <==> SkipsOnlyEmpty(log, n, c)
    decreases n
  {
    if n > 0 {
      FirstNSnoc(n, c);
      if LastOf(log) == n - 1 {
        var init := log[..|log| - 1];
        assert log == init + [n - 1] && LastOf(init) < n - 1;
        FlatSnoc(init, n - 1, c);
        FlatIff(init, n - 1, c);
        SkipsWithLast(log, init, n, c);
        hide FlatOf, FirstN, LastOf, Increasing, SkipsOnlyEmpty;
        SameSuffix(FlatOf(init, c), FlatOf(FirstN(n - 1), c), c(n - 1));
      } else {
        FlatIff(log, n - 1, c);
        NotBeyond(log, n - 1);
        SkipsWithout(log, n, c);
        hide FlatOf, FirstN, LastOf, Increasing, SkipsOnlyEmpty;
        LongerBy(FlatOf(log, c), FlatOf(FirstN(n - 1), c), c(n - 1));
      }
    }
  }

  lemma SkipsWithLast(log: seq<nat>, init: seq<nat>, n: nat, c: nat -> seq<byte>)
    requires n > 0 && log == init + [n - 1]
    ensures SkipsOnlyEmpty(log, n, c) <==> SkipsOnlyEmpty(init, n - 1, c)
  {
    assert forall i :: 0 <= i < n - 1 ==> (i in log <==> i in init);
  }

  lemma SkipsWithout(log: seq<nat>, n: nat, c: nat -> seq<byte>)
    requires n > 0 && n - 1 !in log
    ensures SkipsOnlyEmpty(log, n, c) <==> SkipsOnlyEmpty(log, n - 1, c) && c(n - 1) == []
  {
  }

  lemma SameSuffix(a: seq<byte>, b: seq<byte>, x: seq<byte>)
    ensures a + x == b + x <==> a == b
  {
    if a + x == b + x {
      assert a == (a + x)[..|a|] && b == (b + x)[..|b|];
    }
  }

  lemma LongerBy(a: seq<byte>, b: seq<byte>, x: seq<byte>)
    requires |a| <= |b|
    ensures a == b + x <==> a == b && x == []
  {
    if a == b + x {
      assert |x| == 0;
    }
  }

  lemma NotBeyond(log: seq<nat>, i: nat)
    requires Increasing(log) && LastOf(log) < i
    ensures i !in log
  {
    assert log != [] ==> forall j :: 0 <= j < |log| ==> log[j] <= log[|log| - 1];
  }

  lemma FirstNextN(log: seq<nat>)
    requires log != [] && log[..|log| - 1] == FirstN(|log| - 1)
    ensures log == FirstN(|log|) <==> log[|log| - 1] == |log| - 1
  {
    assert forall j :: 0 <= j < |log| - 1 ==> log[j] == log[..|log| - 1][j];
  }

  lemma {:induction false} GapIsSkipped(log: seq<nat>)
    requires Increasing(log) && log != FirstN(|log|)
    ensures exists i :: 0 <= i < LastOf(log) && i !in log
  {
    var m := |log| - 1;
    var init := log[..m];
    if init == FirstN(m) {
      assert m > 0 ==> init[m - 1] == m - 1;
      FirstNextN(log);
      assert m !in log;
    } else {
      GapIsSkipped(init);
      var i :| 0 <= i < LastOf(init) && i !in init;
      assert log == init + [log[m]];
      assert i !in log;
    }
  }

  /** Truthful posts in any order: the device restarts with the whole image in flash exactly when every
      skipped chunk is empty, and, for an image without empty chunks, exactly when in the last session
      every post that was committed was for the chunk after the last one committed. */
  lemma WholeImageIff(steps: seq<Step>, src: Source, max: nat)
    requires AllTruthful(steps, src) && Run(READY, steps, max).rebooted
    ensures
      var r, image := Run(READY, steps, max), FlatOf(FirstN(src.n), src.c);
      && (r.s.flash == image <==> SkipsOnlyEmpty(r.log, src.n, src.c))
      && ((forall i :: 0 <= i < src.n ==> src.c(i) != []) ==>
            (r.s.flash == image <==> CommittedInTurn(READY, steps, max)))
  {
    RestartsOnCommitted(steps, src, max);
    TurnsAlwaysKnown(steps, src, max);
    var log := Run(READY, steps, max).log;
    hide Run, CommittedInTurn, LastPostInTurn, FlatOf, Increasing;
    FlatIff(log, src.n, src.c);
    if log == FirstN(|log|) {
      assert forall i :: 0 <= i < src.n ==> log[i] == i;
    } else {
      GapIsSkipped(log);
    }
  }

  /** Each post is for a chunk already committed, or for the next one. */
  predicate StopAndWait(w: World, steps: seq<Step>, max: nat) {
    forall k :: 0 <= k < |steps| && steps[k].DoUpload? && steps[k].headers.index.Some? ==>
      steps[k].headers.index.value <= Run(w, steps[..k], max).s.lastChunkIndex + 1
  }

  predicate NextQueued(w: World) {
    && w.log == FirstN(|w.log|)
    && (w.s.chunk.state == BufferQueued && w.s.phase == Receiving ==> w.s.chunk.index <= w.s.lastChunkIndex + 1)
  }

  lemma {:induction false} EachOnceInOrder(steps: seq<Step>, src: Source, max: nat)
    requires AllTruthful(steps, src) && StopAndWait(READY, steps, max)
    ensures NextQueued(Run(READY, steps, max))
  {
    if steps != [] {
      var init, step := steps[..|steps| - 1], steps[|steps| - 1];
      assert StopAndWait(READY, init, max) by {
        assert forall k :: 0 <= k < |init| ==> init[..k] == steps[..k];
      }
      assert AllTruthful(init, src);
      EachOnceInOrder(init, src, max);
      RunSound(READY, init, src, max);
      assert steps[..|init|] == init;
      OrderStep(Run(READY, init, max), step, src, max);
    }
  }

  lemma OrderStep(w: World, step: Step, src: Source, max: nat)
    requires Sound(w, src, max) && NextQueued(w)
    requires step.DoUpload? && step.headers.index.Some? ==> step.headers.index.value <= w.s.lastChunkIndex + 1
    ensures NextQueued(Apply(w, step, max))
  {
    if step.DoUpload? {
      UploadOutcome(w.s, step.headers, step.parts, step.ended, max);
      hide Upload, UploadWrites, Concat;
    }
    hide FlatOf;
  }

  /** With a stop-and-wait client that re-posts chunks as it likes, a device that restarts into the new
      image has the whole of it in flash, and its length is the announced one exactly if the client
      announced it truly. */
  lemma StopAndWaitRestartsOnImage(steps: seq<Step>, src: Source, max: nat)
    requires AllTruthful(steps, src) && StopAndWait(READY, steps, max)
    ensures
      var r, image := Run(READY, steps, max), FlatOf(FirstN(src.n), src.c);
      r.rebooted ==> r.s.flash == image && (r.s.written == r.s.total <==> |image| == r.s.total)
  {
    RestartsOnCommitted(steps, src, max);
    EachOnceInOrder(steps, src, max);
    var log := Run(READY, steps, max).log;
    if Run(READY, steps, max).rebooted {
      assert |log| == src.n;
    }
  }

  // ---------- one chunk

  /** Posting a chunk that is already committed changes nothing. */
  lemma RepostIgnored(s: State, h: Headers, parts: seq<seq<byte>>, max: nat)
    requires s.phase == Receiving && s.chunk == NO_CHUNK && h.session == Some(s.sessionId) && h.totalChunks.Some?
    requires h.index.Some? && h.index.value <= s.lastChunkIndex
    ensures Upload(s, h, parts, true, max) == Upload(s, h, parts, false, max) == s
  {
    WritesOutcome(s, parts, max);
  }

  /** Posting a chunk above the last one whole, however it is cut into parts, and letting the main loop write it
      commits it. */
  lemma PostCommits(s: State, h: Headers, parts: seq<seq<byte>>, max: nat, limit: nat)
    requires s.phase == Receiving && s.chunk == NO_CHUNK && |s.flash| <= s.room
    requires h.session == Some(s.sessionId) && h.totalChunks.Some? && h.index.Some? && h.index.value > s.lastChunkIndex
    requires 0 < Claimed(h) == |Concat(parts)| <= max
    requires |s.flash| + Claimed(h) <= s.room && Claimed(h) <= limit
    ensures
      var u := Upload(s, h, parts, true, max);
      var v := ProcessChunk(u, limit, true);
      && Commits(u, limit) && u.chunk.index == h.index.value && v.written == (s.written + Claimed(h)) % U32_COUNT
      && v.total == s.total && v.room == s.room && v.sessionId == s.sessionId
          && v.action == (if v.phase == Complete then RebootSuccess else s.action)
      && v.flash == s.flash + Concat(parts) && v.lastChunkIndex == h.index.value
      && v.chunk == NO_CHUNK
      && v.phase == if h.totalChunks.value > 0 && h.index.value == h.totalChunks.value - 1 then Complete else Receiving
  {
    WritesComplete(UploadStart(s, h, max), parts, max);
  }

  lemma {:induction false} WritesComplete(u: State, parts: seq<seq<byte>>, max: nat)
    requires u.chunk.state == BufferReceiving && u.chunk.received == []
    requires |Concat(parts)| <= u.chunk.expectedSize <= max
    ensures UploadWrites(u, parts, max) == u.(chunk := u.chunk.(received := Concat(parts)))
  {
    if parts != [] {
      WritesComplete(u, parts[..|parts| - 1], max);
    }
  }

  // ---------- a whole upload

  function HeadersOf(s: State, src: Source, i: nat): Headers {
    Headers(Some(s.sessionId), Some(i), Some(src.n), Some(|src.c(i)|), None)
  }

  /** The session after the first k chunks have been posted whole, each one written before the next. */
  function Uploaded(s: State, src: Source, k: nat, max: nat): State {
    if k == 0 then s else
      var v := Uploaded(s, src, k - 1, max);
      ProcessChunk(Upload(v, HeadersOf(s, src, k - 1), [src.c(k - 1)], true, max), |src.c(k - 1)|, true)
  }

  /** A session that has just opened. */
  predicate Opened(s: State) {
    s.phase == Receiving && s.chunk == NO_CHUNK && s.lastChunkIndex == -1 && s.flash == []
  }

  predicate Fitting(s: State, src: Source, max: nat) {
    && (forall i :: 0 <= i < src.n ==> 0 < |src.c(i)| <= max)
    && |FlatOf(FirstN(src.n), src.c)| <= s.room
  }

  lemma FirstNSnoc(k: nat, c: nat -> seq<byte>)
    requires k > 0
    ensures FlatOf(FirstN(k), c) == FlatOf(FirstN(k - 1), c) + c(k - 1)
  {
    assert FirstN(k) == FirstN(k - 1) + [k - 1];
    FlatSnoc(FirstN(k - 1), k - 1, c);
  }

  lemma {:induction false} FirstNPrefix(k: nat, n: nat, c: nat -> seq<byte>)
    requires k <= n
    ensures |FlatOf(FirstN(k), c)| <= |FlatOf(FirstN(n), c)|
    decreases n
  {
    if k < n {
      FirstNSnoc(n, c);
      FirstNPrefix(k, n - 1, c);
    }
  }

  /** Posting all chunks in turn puts the image into flash and schedules the restart, not earlier than
      with the last one. */
  lemma {:induction false} UploadCompletes(s: State, src: Source, k: nat, max: nat)
    requires Opened(s) && Fitting(s, src, max) && k <= src.n
    ensures
      var v := Uploaded(s, src, k, max);
      && v.flash == FlatOf(FirstN(k), src.c) && v.lastChunkIndex == k - 1 && v.chunk == NO_CHUNK
      && v.sessionId == s.sessionId && v.room == s.room
      && v.phase == (if 0 < k == src.n then Complete else Receiving)
      && v.action == (if 0 < k == src.n then RebootSuccess else s.action)
    decreases k
  {
    if k > 0 {
      UploadCompletes(s, src, k - 1, max);
      FirstNSnoc(k, src.c);
      FirstNPrefix(k, src.n, src.c);
      OnePart(src.c(k - 1));
      hide Upload, ProcessChunk, FlatOf, FirstN, Concat;
      PostCommits(Uploaded(s, src, k - 1, max), HeadersOf(s, src, k - 1), [src.c(k - 1)], max, |src.c(k - 1)|);
    }
  }

  lemma OnePart(part: seq<byte>)
    ensures Concat([part]) == part
  {
    assert [part][..0] == [];
  }

  // ---------- what the flasher does not check

  function Post(index: int, n: nat, data: seq<byte>): Step {
    DoUpload(Headers(Some(1), Some(index), Some(n), Some(|data|), None), [data], true)
  }

  function ShortRun(index: nat, n: nat): seq<Step> {
    [] + [DoStart(Some(1), Some(1024), Some(4096))] + [DoAction(true)] + [Post(index, n, [7])]
        + [DoProcess(4096, true)] + [DoAction(true)]
  }

  lemma RunSnoc(w: World, steps: seq<Step>, step: Step, max: nat)
    ensures Run(w, steps + [step], max) == Apply(Run(w, steps, max), step, max)
  {
    assert (steps + [step])[..|steps|] == steps;
  }

  lemma RunFive(w: World, a: Step, b: Step, c: Step, d: Step, e: Step, max: nat)
    ensures Run(w, [] + [a] + [b] + [c] + [d] + [e], max)
        == Apply(Apply(Apply(Apply(Apply(w, a, max), b, max), c, max), d, max), e, max)
  {
    hide Apply;
    RunSnoc(w, [], a, max);
    RunSnoc(w, [] + [a], b, max);
    RunSnoc(w, [] + [a] + [b], c, max);
    RunSnoc(w, [] + [a] + [b] + [c], d, max);
    RunSnoc(w, [] + [a] + [b] + [c] + [d], e, max);
  }

  /** The size is not compared: an image of one byte announced as 1024 is restarted into. */
  lemma ShortImageRestarts()
    ensures var r := Run(READY, ShortRun(0, 1), 4096);
      r.rebooted && r.s.flash == [7] && r.s.written == 1 && r.s.total == 1024
  {
    OnePost(0, 1);
  }

  /** A gap is not noticed: posting only the last of two chunks restarts into that chunk alone. */
  lemma SkippedChunkRestarts()
    ensures var r := Run(READY, ShortRun(1, 2), 4096);
      r.rebooted && r.s.flash == [7] && r.log == [1]
  {
    OnePost(1, 2);
  }

  lemma OnePost(index: nat, n: nat)
    requires index == n - 1
    ensures var r := Run(READY, ShortRun(index, n), 4096);
      r.rebooted && r.s.flash == [7] && r.s.written == 1 && r.s.total == 1024 && r.log == [index]
  {
    RunFive(READY, DoStart(Some(1), Some(1024), Some(4096)), DoAction(true), Post(index, n, [7]),
        DoProcess(4096, true), DoAction(true), 4096);
    SessionOpens();
    PostRestarts(index, n);
    hide Apply, Run;
  }

  const OPEN := World(State(Receiving, 1, 0, 1024, -1, NO_CHUNK, NoAction, 0, 0, [], 1024), [], false)

  lemma SessionOpens()
    ensures Apply(Apply(READY, DoStart(Some(1), Some(1024), Some(4096)), 4096), DoAction(true), 4096) == OPEN
  {
  }

  lemma PostRestarts(index: nat, n: nat)
    requires index == n - 1
    ensures
      var r := Apply(Apply(Apply(OPEN, Post(index, n, [7]), 4096), DoProcess(4096, true), 4096), DoAction(true), 4096);
      r.rebooted && r.s.flash == [7] && r.s.written == 1 && r.s.total == 1024 && r.log == [index]
  {
    assert [[7]][..0] == [];
    assert Concat([[7]]) == [7];
    PostCommits(OPEN.s, Post(index, n, [7]).headers, [[7]], 4096, 4096);
    hide Upload, ProcessChunk, Concat, Commits;
  }

  // ---------- what ends a session

  lemma {:induction false} WritesOverflow(u: State, parts: seq<seq<byte>>, max: nat)
    requires u.chunk.state == BufferReceiving && u.chunk.received == [] && u.chunk.expectedSize <= max
    requires |Concat(parts)| > u.chunk.expectedSize
    ensures UploadWrites(u, parts, max).phase == Error && UploadWrites(u, parts, max).chunk.state == BufferError
  {
    var n := |parts| - 1;
    if |Concat(parts[..n])| > u.chunk.expectedSize {
      WritesOverflow(u, parts[..n], max);
    } else {
      WritesComplete(u, parts[..n], max);
    }
  }

  /** A post into an open session with an empty buffer ends the session exactly if a header is missing, it is for
      another session, or its chunk is new and has an impossible size or not the size it claims. */
  lemma PostEndsSessionIff(s: State, h: Headers, parts: seq<seq<byte>>, max: nat)
    requires s.phase == Receiving && s.chunk == NO_CHUNK
    ensures
      var v := Upload(s, h, parts, true, max);
      v.phase == Error <==>
        || h.session.None? || h.index.None? || h.totalChunks.None? || h.session.value != s.sessionId
        || (h.index.value > s.lastChunkIndex
            && (Claimed(h) == 0 || Claimed(h) > max || |Concat(parts)| != Claimed(h)))
  {
    var u := UploadStart(s, h, max);
    if u.chunk.state == BufferReceiving {
      if |Concat(parts)| <= Claimed(h) {
        WritesComplete(u, parts, max);
      } else {
        WritesOverflow(u, parts, max);
      }
    } else {
      WritesOutcome(u, parts, max);
    }
  }

  /** A queued chunk that the device does not take whole ends the session and loses what was written. */
  lemma ShortWriteEnds(s: State, limit: nat, endOk: bool)
    requires s.phase == Receiving && s.chunk.state == BufferQueued && |s.flash| <= s.room
    requires limit < |s.chunk.received| || |s.flash| + |s.chunk.received| > s.room
    ensures ProcessChunk(s, limit, endOk).phase == Error && ProcessChunk(s, limit, endOk).flash == []
  {
  }

  /** An abort, whenever it comes, leaves the flasher as it was at startup, ready for the next session. */
  lemma AbortStartsOver(s: State, beginOk: bool)
    ensures RunAction(AbortRequest(s), beginOk) == READY.s.(room := s.room)
  {
  }

  /** A chunk that is queued when no session receives any more is dropped, and nothing else happens. */
  lemma StrayChunkDropped(s: State, limit: nat, endOk: bool)
    requires s.phase != Receiving && s.chunk.state == BufferQueued
    ensures ProcessChunk(s, limit, endOk) == s.(chunk := NO_CHUNK)
  {
  }
}
