/** Whole recording runs: windows completed, queued, dropped, written and read back, over any order of
    samples, sessions and logger task turns. */
module LoggerRuns {
  import opened Bytes
  import opened Windows
  import opened Logger
  import opened Extract
  import Crc32

  datatype Step =
    | DoOffer(depth: nat, start: u32, ambient: Ambient, samples: seq<SampleRecord>)
    | DoStart(mounted: bool, gesture: byte)
    | DoStop
    | DoWrite(mounted: bool, opens: bool, limit: nat)

  /** Some bytes that one write put into a session's file. */
  datatype Written = Written(session: u16, bytes: seq<byte>)

  /** Next to the recorder: every window that was queued, every one written whole, every piece that went
      into a file, and counts. */
  datatype World = World(r: Recorder, enqueued: seq<SampleWindow>, written: seq<SampleWindow>, pieces: seq<Written>,
                         finished: nat, dropped: nat, failed: nat, cut: nat, starts: nat)

  function Apply(w: World, step: Step): World {
    var r := w.r;
    match step
    case DoOffer(depth, start, a, samples) =>
      var v := w.(r := Offer(r, depth, start, a, samples));
      if r.state != Recording then v
      else if |r.queue| < depth
          then v.(finished := w.finished + 1, enqueued := w.enqueued + [Logger.Completed(r, start, a, samples)])
      else v.(finished := w.finished + 1, dropped := w.dropped + 1)
    case DoStart(mounted, gesture) =>
      w.(r := Start(r, mounted, gesture), starts := if Starts(r, mounted, gesture) then w.starts + 1 else w.starts)
    case DoStop => w.(r := Stop(r))
    case DoWrite(mounted, opens, limit) =>
      var v := w.(r := WriteNext(r, mounted, opens, limit));
      if r.queue == [] then v
      else if !mounted || !opens then v.(failed := w.failed + 1)
      else
        var window := r.queue[0];
        var u := v.(pieces := w.pieces + [Written(window.header.sessionId, Piece(window, limit))]);
        if Cut(window, limit) then u.(failed := w.failed + 1, cut := w.cut + 1) else u.(written := w.written + [window])
  }

  function Run(w: World, steps: seq<Step>): World {
    if steps == [] then w else Apply(Run(w, steps[..|steps| - 1]), steps[|steps| - 1])
  }

  predicate Fresh(w: World) {
    && w.r.state != Recording && w.r.queue == [] && w.r.dropCount == 0
    && w == World(w.r, [], [], [], 0, 0, 0, 0, 0)
  }

  /** The windows of one session. */
  function Of(ws: seq<SampleWindow>, session: u16): (s: seq<SampleWindow>)
    ensures |s| <= |ws|
  {
    if ws == [] then [] else
      var w := ws[|ws| - 1];
      Of(ws[..|ws| - 1], session) + if w.header.sessionId == session then [w] else []
  }

  lemma OfSnoc(ws: seq<SampleWindow>, w: SampleWindow, session: u16)
    ensures Of(ws + [w], session) == Of(ws, session) + if w.header.sessionId == session then [w] else []
  {
    assert (ws + [w])[..|ws|] == ws;
  }

  // ---------- nothing is lost uncounted

  predicate Accounted(w: World) {
    && w.finished == |w.enqueued| + w.dropped
    && w.r.dropCount == w.dropped % U32_COUNT
    && |w.enqueued| == |w.written| + w.failed + |w.r.queue|
    && w.enqueued[|w.enqueued| - |w.r.queue|..] == w.r.queue
    && (w.failed == 0 ==> w.enqueued == w.written + w.r.queue)
    && w.cut <= w.failed
  }

  lemma AccountedStep(w: World, step: Step)
    requires Accounted(w)
    ensures Accounted(Apply(w, step))
  {
    hide Logger.Completed, Windows.Serialize, FileOf, Piece, Cut;
    match step {
      case DoOffer(depth, start, a, samples) => OfferAccounted(w, depth, start, a, samples);
      case DoWrite(mounted, opens, limit) => WriteAccounted(w, mounted, opens, limit);
      case _ =>
    }
  }

  lemma OfferAccounted(w: World, depth: nat, start: u32, a: Ambient, samples: seq<SampleRecord>)
    requires Accounted(w)
    ensures Accounted(Apply(w, DoOffer(depth, start, a, samples)))
  {
    hide Logger.Completed, Windows.Serialize;
    var c := Logger.Completed(w.r, start, a, samples);
    TailSnoc(w.enqueued, w.r.queue, c);
    NextDrop(w.dropped);
    assert w.written + (w.r.queue + [c]) == w.written + w.r.queue + [c];
  }

  lemma NextDrop(n: nat)
    ensures (n % U32_COUNT + 1) % U32_COUNT == (n + 1) % U32_COUNT
  {
  }

  lemma TailSnoc(all: seq<SampleWindow>, queue: seq<SampleWindow>, c: SampleWindow)
    requires |queue| <= |all| && all[|all| - |queue|..] == queue
    ensures (all + [c])[|all| - |queue|..] == queue + [c]
  {
  }

  lemma WriteAccounted(w: World, mounted: bool, opens: bool, limit: nat)
    requires Accounted(w)
    ensures Accounted(Apply(w, DoWrite(mounted, opens, limit)))
  {
    hide Logger.Completed, Windows.Serialize, FileOf, Piece, Cut;
    if w.r.queue != [] {
      TailRest(w.enqueued, w.r.queue);
      Rejoin(w.written, w.r.queue);
    }
  }

  lemma Rejoin(done: seq<SampleWindow>, queue: seq<SampleWindow>)
    requires queue != []
    ensures done + queue == (done + [queue[0]]) + queue[1..]
  {
  }

  lemma TailRest(all: seq<SampleWindow>, queue: seq<SampleWindow>)
    requires 0 < |queue| <= |all| && all[|all| - |queue|..] == queue
    ensures all[|all| - (|queue| - 1)..] == queue[1..]
  {
  }

  /** Every window completed while recording was queued or counted as dropped; every queued one is
      written, failed or still waiting, in queue order. */
  lemma {:induction false} EveryWindowAccounted(w: World, steps: seq<Step>)
    requires Fresh(w)
    ensures Accounted(Run(w, steps))
  {
    if steps != [] {
      EveryWindowAccounted(w, steps[..|steps| - 1]);
      AccountedStep(Run(w, steps[..|steps| - 1]), steps[|steps| - 1]);
    }
  }

  // ---------- ids within a session

  /** Sessions started since the first id first. */
  function Age(session: u16, first: u16): nat {
    (session - first) % U16_COUNT
  }

  predicate Numbered(ws: seq<SampleWindow>, session: u16) {
    forall j :: 0 <= j < |Of(ws, session)| ==> Of(ws, session)[j].header.windowId == j % U16_COUNT
  }

  predicate SessionsSound(w: World, first: u16) {
    && Age(w.r.nextSessionId, first) == w.starts % U16_COUNT
    && (forall k :: 0 <= k < |w.enqueued| ==> Age(w.enqueued[k].header.sessionId, first) < w.starts)
    && (w.r.state == Recording ==>
          && Age(w.r.sessionId, first) < w.starts
          && w.r.windowId == |Of(w.enqueued, w.r.sessionId)| % U16_COUNT)
    && forall s: u16 :: Numbered(w.enqueued, s)
  }

  /** As long as session ids have not come round, the windows queued for a session carry the ids
      0, 1, 2 and so on, whatever other sessions do. */
  lemma {:induction false} IdsCountUp(w: World, steps: seq<Step>)
    requires Fresh(w) && Run(w, steps).starts <= U16_COUNT
    ensures SessionsSound(Run(w, steps), w.r.nextSessionId)
  {
    if steps != [] {
      var init, step := steps[..|steps| - 1], steps[|steps| - 1];
      IdsCountUp(w, init);
      SessionStep(Run(w, init), step, w.r.nextSessionId);
    }
  }

  lemma SessionStep(w: World, step: Step, first: u16)
    requires SessionsSound(w, first) && Apply(w, step).starts <= U16_COUNT
    ensures SessionsSound(Apply(w, step), first)
  {
    hide Numbered;
    match step {
      case DoOffer(depth, start, a, samples) =>
        if w.r.state == Recording && |w.r.queue| < depth {
          OfferKeepsNumbers(w, Logger.Completed(w.r, start, a, samples));
        }
      case DoStart(mounted, gesture) =>
        if Starts(w.r, mounted, gesture) {
          NotYetUsed(w.enqueued, w.r.nextSessionId, first, w.starts);
          NextAge(w.r.nextSessionId, first, w.starts);
        }
      case _ =>
    }
  }

  lemma OfferKeepsNumbers(w: World, window: SampleWindow)
    requires window.header.sessionId == w.r.sessionId && window.header.windowId == w.r.windowId
    requires w.r.windowId == |Of(w.enqueued, w.r.sessionId)| % U16_COUNT
    requires forall s: u16 :: Numbered(w.enqueued, s)
    ensures forall s: u16 :: Numbered(w.enqueued + [window], s)
    ensures (w.r.windowId + 1) % U16_COUNT == |Of(w.enqueued + [window], w.r.sessionId)| % U16_COUNT
  {
    forall s: u16
      ensures Numbered(w.enqueued + [window], s)
    {
      assert Numbered(w.enqueued, s);
      OfSnoc(w.enqueued, window, s);
    }
    OfSnoc(w.enqueued, window, w.r.sessionId);
  }

  lemma {:induction false} NotYetUsed(ws: seq<SampleWindow>, session: u16, first: u16, starts: nat)
    requires forall k :: 0 <= k < |ws| ==> Age(ws[k].header.sessionId, first) < starts
    requires Age(session, first) == starts
    ensures Of(ws, session) == []
  {
    if ws != [] {
      NotYetUsed(ws[..|ws| - 1], session, first, starts);
    }
  }

  lemma NextAge(session: u16, first: u16, starts: nat)
    requires Age(session, first) == starts < U16_COUNT
    ensures Age((session + 1) % U16_COUNT, first) == (starts + 1) % U16_COUNT
  {
  }

  // ---------- files

  /** The pieces that went into the file of one session. */
  function PiecesOf(pieces: seq<Written>, session: u16): seq<seq<byte>> {
    if pieces == [] then [] else
      var p := pieces[|pieces| - 1];
      PiecesOf(pieces[..|pieces| - 1], session) + if p.session == session then [p.bytes] else []
  }

  lemma PiecesSnoc(pieces: seq<Written>, p: Written, session: u16)
    ensures PiecesOf(pieces + [p], session) == PiecesOf(pieces, session) + if p.session == session then [p.bytes]
        else []
  {
    assert (pieces + [p])[..|pieces|] == pieces;
  }

  predicate FilesSound(w: World, before: map<u16, seq<byte>>) {
    forall s: u16 :: FileOf(w.r.files, s) == FileOf(before, s) + Join(PiecesOf(w.pieces, s))
  }

  lemma JoinSnoc(raws: seq<seq<byte>>, raw: seq<byte>)
    ensures Join(raws + [raw]) == Join(raws) + raw
  {
    assert (raws + [raw])[..|raws|] == raws;
  }

  /** Each session's file grows by exactly the pieces written for that session, in order, whatever the
      file system takes of each. */
  lemma {:induction false} FilesHoldPieces(w: World, steps: seq<Step>)
    requires Fresh(w)
    ensures FilesSound(Run(w, steps), w.r.files)
  {
    if steps == [] {
      assert forall s: u16 :: FileOf(w.r.files, s) + [] == FileOf(w.r.files, s);
    } else {
      FilesHoldPieces(w, steps[..|steps| - 1]);
      FileStep(Run(w, steps[..|steps| - 1]), steps[|steps| - 1], w.r.files);
    }
  }

  lemma FileStep(w: World, step: Step, before: map<u16, seq<byte>>)
    requires FilesSound(w, before)
    ensures FilesSound(Apply(w, step), before)
  {
    hide Windows.Serialize, Join, PiecesOf, Logger.Completed, Piece, Cut, FileOf;
    if step.DoWrite? && w.r.queue != [] && step.mounted && step.opens {
      var window, v := w.r.queue[0], Apply(w, step);
      var p := Written(window.header.sessionId, Piece(window, step.limit));
      assert v.pieces == w.pieces + [p];
      assert v.r.files == w.r.files[p.session := FileOf(w.r.files, p.session) + p.bytes];
      hide Apply;
      forall s: u16
        ensures FileOf(v.r.files, s) == FileOf(before, s) + Join(PiecesOf(v.pieces, s))
      {
        OneFile(w.r.files, w.pieces, before, p, s);
      }
    } else {
      assert Apply(w, step).r.files == w.r.files && Apply(w, step).pieces == w.pieces;
    }
  }

  lemma OneFile(files: map<u16, seq<byte>>, pieces: seq<Written>, before: map<u16, seq<byte>>, p: Written, s: u16)
    requires FileOf(files, s) == FileOf(before, s) + Join(PiecesOf(pieces, s))
    ensures FileOf(files[p.session := FileOf(files, p.session) + p.bytes], s)
         == FileOf(before, s) + Join(PiecesOf(pieces + [p], s))
  {
    PiecesSnoc(pieces, p, s);
    JoinSnoc(PiecesOf(pieces, s), p.bytes);
    hide Join, PiecesOf;
    if s != p.session {
      assert PiecesOf(pieces, s) + [] == PiecesOf(pieces, s);
    }
  }

  /** Unless a write was cut short, those pieces are the session's written windows. */
  lemma {:induction false} PiecesAreWindows(w: World, steps: seq<Step>, session: u16)
    requires Fresh(w) && Run(w, steps).cut == 0
    ensures PiecesOf(Run(w, steps).pieces, session) == Raws(Of(Run(w, steps).written, session))
  {
    if steps == [] {
      assert Raws([]) == [];
    } else {
      var init, step := steps[..|steps| - 1], steps[|steps| - 1];
      PiecesAreWindows(w, init, session);
      PieceStep(Run(w, init), step, session);
    }
  }

  lemma PieceStep(w: World, step: Step, session: u16)
    requires Apply(w, step).cut == 0 && PiecesOf(w.pieces, session) == Raws(Of(w.written, session))
    ensures PiecesOf(Apply(w, step).pieces, session) == Raws(Of(Apply(w, step).written, session))
  {
    hide Windows.Serialize, PiecesOf, Of, Logger.Completed, Raws, FileOf;
    if step.DoWrite? && w.r.queue != [] && step.mounted && step.opens {
      var window := w.r.queue[0];
      PiecesSnoc(w.pieces, Written(window.header.sessionId, Piece(window, step.limit)), session);
      OfSnoc(w.written, window, session);
      RawsOne(Of(w.written, session), window);
    }
  }

  lemma RawsOne(ws: seq<SampleWindow>, w: SampleWindow)
    ensures Raws(ws + [w]) == Raws(ws) + [Windows.Serialize(w)] && Raws(ws) + [] == Raws(ws) && ws + [] == ws
  {
    hide Windows.Serialize;
  }

  /** So unless a write was cut short, each session's file grows by its written windows, in order. */
  lemma FilesHoldWritten(w: World, steps: seq<Step>, session: u16)
    requires Fresh(w) && Run(w, steps).cut == 0
    ensures
      var r := Run(w, steps);
      FileOf(r.r.files, session) == FileOf(w.r.files, session) + Join(Raws(Of(r.written, session)))
  {
    FilesHoldPieces(w, steps);
    PiecesAreWindows(w, steps, session);
  }

  // ---------- and back again

  /** Windows come with as many samples as a window has. */
  predicate WholeWindows(steps: seq<Step>) {
    forall k :: 0 <= k < |steps| && steps[k].DoOffer? ==> |steps[k].samples| == WINDOW_SIZE
  }

  lemma CompletedIsComplete(r: Recorder, start: u32, a: Ambient, samples: seq<SampleRecord>)
    requires |samples| == WINDOW_SIZE
    ensures Complete(Logger.Completed(r, start, a, samples))
  {
    hide Crc32.Checksum, HeaderBytes, SampleBytes;
  }

  lemma {:induction false} QueuedAreComplete(w: World, steps: seq<Step>)
    requires Fresh(w) && WholeWindows(steps)
    ensures forall k :: 0 <= k < |Run(w, steps).enqueued| ==> Complete(Run(w, steps).enqueued[k])
  {
    if steps != [] {
      var init, step := steps[..|steps| - 1], steps[|steps| - 1];
      QueuedAreComplete(w, init);
      if step.DoOffer? {
        CompletedIsComplete(Run(w, init).r, step.start, step.ambient, step.samples);
      }
      hide Complete, Logger.Completed;
    }
  }

  lemma {:induction false} OfComplete(ws: seq<SampleWindow>, session: u16)
    requires forall k :: 0 <= k < |ws| ==> Complete(ws[k])
    ensures forall k :: 0 <= k < |Of(ws, session)| ==> Complete(Of(ws, session)[k])
  {
    hide Complete;
    if ws != [] {
      OfComplete(ws[..|ws| - 1], session);
    }
  }

  lemma DrainedFile(w: World, steps: seq<Step>, session: u16)
    requires Fresh(w) && FileOf(w.r.files, session) == []
    requires Run(w, steps).failed == 0 && Run(w, steps).r.queue == []
    ensures FileOf(Run(w, steps).r.files, session) == Join(Raws(Of(Run(w, steps).enqueued, session)))
  {
    EveryWindowAccounted(w, steps);
    var r := Run(w, steps);
    assert r.cut == 0 && r.enqueued == r.written;
    hide Run, Join, Raws, Of, Accounted;
    FilesHoldWritten(w, steps, session);
  }

  lemma NumberedExtracted(ws: seq<SampleWindow>)
    requires forall k :: 0 <= k < |ws| ==> Complete(ws[k]) && ws[k].header.windowId == k % U16_COUNT
    ensures
      var found := ExtractAll(Join(Raws(ws)));
      && found == Listed(ws)
      && forall k :: 0 <= k < |found| ==> found[k].index == k && found[k].window.header.windowId == k % U16_COUNT
  {
    hide Complete, Join, Raws, ExtractAll;
    ExtractRoundTrip(ws);
  }

  /** The main result: once the queue is drained without a failed write, extracting the file of a
      session that began empty lists exactly its windows, in order, with ids 0, 1, 2 and so on. */
  lemma ExtractReturnsTheSession(w: World, steps: seq<Step>, session: u16)
    requires Fresh(w) && WholeWindows(steps) && FileOf(w.r.files, session) == []
    requires Run(w, steps).failed == 0 && Run(w, steps).r.queue == [] && Run(w, steps).starts <= U16_COUNT
    ensures
      var r := Run(w, steps);
      var found := ExtractAll(FileOf(r.r.files, session));
      && found == Listed(Of(r.enqueued, session))
      && forall k :: 0 <= k < |found| ==> found[k].index == k && found[k].window.header.windowId == k % U16_COUNT
  {
    DrainedFile(w, steps, session);
    QueuedAreComplete(w, steps);
    IdsCountUp(w, steps);
    var enqueued := Run(w, steps).enqueued;
    assert Numbered(enqueued, session);
    hide Run, Complete, Of, Join, Raws, ExtractAll, SessionsSound;
    OfComplete(enqueued, session);
    NumberedExtracted(Of(enqueued, session));
  }
}
