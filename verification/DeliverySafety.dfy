/** No event is lost and none is taken for delivered without an acknowledgement of that very event. */
module DeliverySafety {
  import opened Bytes
  import opened Events
  import opened History
  import opened Pending
  import opened Delivery
  import opened DeliveryTable
  import Frame
  import HistoryRuns

  // ---------- the ring sees a run of history operations

  function RingOp(w: World, step: Step): seq<HistoryRuns.Op> {
    match step
    case LogEvent(durationMs, uptime, epoch) => [HistoryRuns.DoLog(durationMs, uptime, epoch)]
    case SkipIds(id) => [HistoryRuns.DoFastForward(id)]
    case SyncTime(epoch, uptime) => [HistoryRuns.DoTimeSync(epoch, uptime)]
    case AckMark(k) =>
      if k < |w.acks| && !w.acks[k].marked then [HistoryRuns.DoMark(w.acks[k].eventId)] else []
    case _ => []
  }

  function RingOps(w: World, s: Setup, steps: seq<Step>): seq<HistoryRuns.Op>
    requires Shape(w)
  {
    if steps == [] then [] else
      var init := steps[..|steps| - 1];
      RingOps(w, s, init) + RingOp(Run(w, s, init), steps[|steps| - 1])
  }

  lemma {:induction false} RingFollows(w: World, s: Setup, steps: seq<Step>)
    requires Shape(w)
    ensures Run(w, s, steps).hist == HistoryRuns.Run(w.hist, s.capacity, RingOps(w, s, steps))
  {
    if steps != [] {
      var init, step := steps[..|steps| - 1], steps[|steps| - 1];
      RingFollows(w, s, init);
      var v := Run(w, s, init);
      var ops, more := RingOps(w, s, init), RingOp(v, step);
      if more == [] {
        assert ops + more == ops;
      } else {
        assert (ops + more)[..|ops + more| - 1] == ops;
      }
      StepOnRing(v, s, step);
    }
  }

  lemma StepOnRing(v: World, s: Setup, step: Step)
    requires Shape(v)
    ensures var ops := RingOp(v, step);
      Apply(v, s, step).hist == if ops == [] then v.hist else HistoryRuns.Apply(v.hist, s.capacity, ops[0])
    ensures |RingOp(v, step)| <= 1
  {
    hide Log, TimeSync, FastForward, MarkSynced, Send, Serialize;
  }

  /** Everything there was to deliver: what the ring held at first and what was logged since. */
  function Pool(w: World, s: Setup, steps: seq<Step>): seq<EventCore>
    requires Shape(w)
  {
    Cores(w.hist.events) + HistoryRuns.Logged(w.hist, s.capacity, RingOps(w, s, steps))
  }

  /** After any interleaved run the ring holds exactly the newest events: none ever leaves it
      except to make room for a newer one. */
  lemma OnlyOverflowForgets(w: World, s: Setup, steps: seq<Step>)
    requires Shape(w) && |w.hist.events| <= s.capacity
    ensures Cores(Run(w, s, steps).hist.events) == Last(Pool(w, s, steps), s.capacity)
  {
    RingFollows(w, s, steps);
    HistoryRuns.RingIsNewestLogged(w.hist, s.capacity, RingOps(w, s, steps));
  }

  lemma StoredInPool(w: World, s: Setup, steps: seq<Step>, e: Event)
    requires Shape(w) && |w.hist.events| <= s.capacity && e in Run(w, s, steps).hist.events
    ensures e.Core() in Pool(w, s, steps)
  {
    OnlyOverflowForgets(w, s, steps);
    hide Run, Pool;
    var v := Run(w, s, steps).hist.events;
    var i :| 0 <= i < |v| && v[i] == e;
    assert Cores(v)[i] == e.Core();
  }

  lemma PoolGrows(w: World, s: Setup, steps: seq<Step>)
    requires Shape(w) && steps != []
    ensures Pool(w, s, steps[..|steps| - 1]) <= Pool(w, s, steps)
  {
    var init := steps[..|steps| - 1];
    var ops, more := RingOps(w, s, init), RingOp(Run(w, s, init), steps[|steps| - 1]);
    StepOnRing(Run(w, s, init), s, steps[|steps| - 1]);
    if more == [] {
      assert ops + more == ops;
    } else {
      assert (ops + more)[..|ops + more| - 1] == ops;
    }
  }

  // ---------- frames carry events

  /** The slot waits for the acknowledgement of a frame that was built from event e. */
  predicate Carries(slot: Slot, e: Event) {
    && slot.msgType == MSG_DETECTION_EVENT
    && slot.data == Frame.Encode(Frame.Message(MSG_DETECTION_EVENT, slot.seqNum, Serialize(e)))
  }

  lemma CarriedId(slot: Slot, e: Event)
    requires Carries(slot, e)
    ensures |slot.data| >= Frame.HEADER_SIZE + 4 && EventIdIn(slot.data) == e.id
  {
    var m := Frame.Message(MSG_DETECTION_EVENT, slot.seqNum, Serialize(e));
    SerializedId(e);
    FramePayload(m);
    assert slot.data[Frame.HEADER_SIZE..][..4] == Serialize(e)[..4];
  }

  lemma FramePayload(m: Frame.Message)
    requires 4 <= |m.payload| <= Frame.MAX_PAYLOAD_SIZE
    ensures Frame.Encode(m)[Frame.HEADER_SIZE..][..4] == m.payload[..4]
  {
    hide Frame.HeaderBytes;
    assert Frame.Body(m)[Frame.HEADER_SIZE..] == m.payload;
  }

  /** Every copy in a task's hand and every waiting detection frame is of an event of the pool. */
  ghost predicate Genuine(v: World, pool: seq<EventCore>) {
    && (forall k :: 0 <= k < |v.hand| ==> v.hand[k].Core() in pool)
    && (forall i :: 0 <= i < |v.link.slots| ==> GenuineSlot(v.link.slots[i], pool))
  }

  ghost predicate GenuineSlot(slot: Slot, pool: seq<EventCore>) {
    slot.active && slot.msgType == MSG_DETECTION_EVENT ==> exists e :: Carries(slot, e) && e.Core() in pool
  }

  lemma GenuineSlotKept(slot: Slot, next: Slot, pool: seq<EventCore>)
    requires GenuineSlot(slot, pool)
    requires next.active ==>
               slot.active && next.msgType == slot.msgType && next.data == slot.data && next.seqNum == slot.seqNum
    ensures GenuineSlot(next, pool)
  {
    if next.active && next.msgType == MSG_DETECTION_EVENT {
      var e :| Carries(slot, e) && e.Core() in pool;
      assert Carries(next, e);
    }
  }

  lemma GenuineGrows(v: World, pool: seq<EventCore>, more: seq<EventCore>)
    requires Genuine(v, pool) && pool <= more
    ensures Genuine(v, more)
  {
    forall i | 0 <= i < |v.link.slots|
      ensures GenuineSlot(v.link.slots[i], more)
    {
      var slot := v.link.slots[i];
      assert GenuineSlot(slot, pool);
      if slot.active && slot.msgType == MSG_DETECTION_EVENT {
        var e :| Carries(slot, e) && e.Core() in pool;
        assert e.Core() in more;
      }
    }
  }

  lemma GenuineStep(v: World, s: Setup, step: Step, pool: seq<EventCore>)
    requires Shape(v) && Genuine(v, pool)
    requires forall e :: e in v.hist.events ==> e.Core() in pool
    ensures Genuine(Apply(v, s, step), pool)
  {
    hide Log, TimeSync, FastForward, MarkSynced, Carries, Select, Send, Serialize;
    var u := Apply(v, s, step);
    match step {
      case FetchUnsynced => SelectSound(v.hist.events, (e: Event) => !e.IsSynced());
      case FetchSince(id) => SelectSound(v.hist.events, (e: Event) => e.id > id);
      case SendEvent(k, radioOk, now) =>
        if k < |v.hand| {
          GenuineSend(v, MSG_DETECTION_EVENT, Serialize(v.hand[k]), true, radioOk, now, v.hand[k], pool);
        }
      case SendOther(msgType, payload, requireAck, radioOk, now) =>
        if msgType != MSG_DETECTION_EVENT {
          GenuineSend(v, msgType, payload, requireAck, radioOk, now, Event(0, 0, 0, 0, 0, 0), pool);
        }
      case _ =>
        forall i | 0 <= i < |u.link.slots|
          ensures GenuineSlot(u.link.slots[i], pool)
        {
          GenuineSlotKept(v.link.slots[i], u.link.slots[i], pool);
        }
    }
  }

  lemma GenuineSend(v: World, msgType: byte, payload: seq<byte>, requireAck: bool, radioOk: bool, now: u32, e: Event,
                    pool: seq<EventCore>)
    requires Shape(v) && Genuine(v, pool)
    requires msgType == MSG_DETECTION_EVENT ==> payload == Serialize(e) && e.Core() in pool
    ensures Genuine(SendMessage(v, msgType, payload, requireAck, radioOk, now), pool)
  {
    var u := SendMessage(v, msgType, payload, requireAck, radioOk, now);
    var t := v.link.slots;
    if Tracks(v.link, payload, requireAck) {
      var frame := Frame.Encode(Frame.Message(msgType, v.link.txSeqNum, payload));
      var filled := NewSlot(v.link.txSeqNum, msgType, frame, now);
      assert GenuineSlot(filled, pool) by {
        if msgType == MSG_DETECTION_EVENT {
          assert Carries(filled, e);
        }
      }
    }
    hide Frame.Encode, Carries, Serialize;
    forall i | 0 <= i < |t|
      ensures GenuineSlot(u.link.slots[i], pool)
    {
      if Tracks(v.link, payload, requireAck) && i == FirstFree(t) {
        var filled := NewSlot(v.link.txSeqNum, msgType, Frame.Encode(Frame.Message(msgType, v.link.txSeqNum, payload)),
            now);
        GenuineSlotKept(filled, u.link.slots[i], pool);
      } else {
        GenuineSlotKept(t[i], u.link.slots[i], pool);
      }
    }
  }

  lemma {:induction false} GenuineAlways(w: World, s: Setup, steps: seq<Step>)
    requires Initial(w) && |w.hist.events| <= s.capacity
    ensures Genuine(Run(w, s, steps), Pool(w, s, steps))
  {
    if steps != [] {
      var init := steps[..|steps| - 1];
      GenuineAlways(w, s, init);
      PoolGrows(w, s, steps);
      var v := Run(w, s, init);
      forall e | e in v.hist.events
        ensures e.Core() in Pool(w, s, init)
      {
        StoredInPool(w, s, init, e);
      }
      GenuineStep(v, s, steps[|steps| - 1], Pool(w, s, init));
      GenuineGrows(Run(w, s, steps), Pool(w, s, init), Pool(w, s, steps));
    }
  }

  // ---------- synced means acknowledged

  /** At step k an ACK arrived for the number of a slot that was waiting with a frame of event e. */
  predicate Acknowledged(w: World, s: Setup, steps: seq<Step>, k: nat, i: nat, e: Event)
    requires Shape(w) && k < |steps|
  {
    && steps[k].AckArrive?
    && var t := Run(w, s, steps[..k]).link.slots;
    && i < |t| && t[i].Holds(steps[k].seqNum) && Carries(t[i], e)
  }

  ghost predicate EverAcknowledged(w: World, s: Setup, steps: seq<Step>, id: u32)
    requires Shape(w)
  {
    exists k: nat, i: nat, e :: k < |steps| && Acknowledged(w, s, steps, k, i, e) && e.id == id
        && e.Core() in Pool(w, s, steps)
  }

  lemma EverGrows(w: World, s: Setup, steps: seq<Step>, id: u32)
    requires Shape(w) && steps != [] && EverAcknowledged(w, s, steps[..|steps| - 1], id)
    ensures EverAcknowledged(w, s, steps, id)
  {
    hide Pool, Carries;
    var init := steps[..|steps| - 1];
    var k: nat, i: nat, e :| k < |init| && Acknowledged(w, s, init, k, i, e) && e.id == id
        && e.Core() in Pool(w, s, init);
    PoolGrows(w, s, steps);
    assert init[..k] == steps[..k];
    assert Acknowledged(w, s, steps, k, i, e);
  }

  /** Some ACK in its gap is about to mark this id. */
  ghost predicate InGap(v: World, id: u32) {
    exists a :: a in v.acks && a.eventId == id
  }

  ghost predicate SyncedIn(h: History, core: EventCore) {
    exists f :: f in h.events && f.IsSynced() && f.Core() == core
  }

  lemma {:induction false} MarksWereAcknowledged(w: World, s: Setup, steps: seq<Step>)
    requires Initial(w) && |w.hist.events| <= s.capacity
    ensures forall id :: InGap(Run(w, s, steps), id) ==> EverAcknowledged(w, s, steps, id)
    ensures forall e :: e in Run(w, s, steps).hist.events && e.IsSynced() ==>
              EverAcknowledged(w, s, steps, e.id) || SyncedIn(w.hist, e.Core())
  {
    if steps != [] {
      var init, step := steps[..|steps| - 1], steps[|steps| - 1];
      MarksWereAcknowledged(w, s, init);
      var v, u := Run(w, s, init), Run(w, s, steps);
      hide EverAcknowledged;
      forall id | EverAcknowledged(w, s, init, id)
        ensures EverAcknowledged(w, s, steps, id)
      {
        EverGrows(w, s, steps, id);
      }
      forall id | InGap(u, id)
        ensures EverAcknowledged(w, s, steps, id)
      {
        AckOrigin(w, s, steps, id);
      }
      forall e | e in u.hist.events && e.IsSynced()
        ensures EverAcknowledged(w, s, steps, e.id) || SyncedIn(w.hist, e.Core())
      {
        SyncOrigin(v, s, step, e);
        if SyncedIn(v.hist, e.Core()) {
          var f :| f in v.hist.events && f.IsSynced() && f.Core() == e.Core();
          assert f.id == f.Core().id == e.id;
        }
      }
    }
  }

  /** A task in the gap was there before, or its ACK arrived just now. */
  lemma AckOrigin(w: World, s: Setup, steps: seq<Step>, id: u32)
    requires Initial(w) && |w.hist.events| <= s.capacity && steps != [] && InGap(Run(w, s, steps), id)
    ensures EverAcknowledged(w, s, steps, id) || InGap(Run(w, s, steps[..|steps| - 1]), id)
  {
    var init, step := steps[..|steps| - 1], steps[|steps| - 1];
    var v, u := Run(w, s, init), Run(w, s, steps);
    KeptTask(v, s, step, id);
    if !InGap(v, id) {
      var i := FirstHolding(v.link.slots, step.seqNum);
      GenuineAlways(w, s, init);
      ArrivedNow(w, s, steps, i, id);
    }
  }

  lemma ArrivedNow(w: World, s: Setup, steps: seq<Step>, i: nat, id: u32)
    requires Shape(w) && steps != []
    requires var v := Run(w, s, steps[..|steps| - 1]);
      && Genuine(v, Pool(w, s, steps[..|steps| - 1])) && steps[|steps| - 1].AckArrive?
      && LookUp(v.link.slots, steps[|steps| - 1].seqNum) == Detection(i, id)
    ensures EverAcknowledged(w, s, steps, id)
  {
    var init, step := steps[..|steps| - 1], steps[|steps| - 1];
    hide Run, Carries, Pool;
    var e := LookedUp(Run(w, s, init), Pool(w, s, init), step.seqNum, i, id);
    PoolGrows(w, s, steps);
    assert steps[..|init|] == init;
    assert Acknowledged(w, s, steps, |init|, i, e);
  }

  /** What an ACK looks up is the id of an event that the slot carries. */
  lemma LookedUp(v: World, pool: seq<EventCore>, seqNum: u16, i: nat, id: u32) returns (e: Event)
    requires Genuine(v, pool) && LookUp(v.link.slots, seqNum) == Detection(i, id)
    ensures i < |v.link.slots| && v.link.slots[i].Holds(seqNum) && Carries(v.link.slots[i], e)
    ensures e.id == id && e.Core() in pool
  {
    var slot := v.link.slots[i];
    assert GenuineSlot(slot, pool);
    e :| Carries(slot, e) && e.Core() in pool;
    CarriedId(slot, e);
  }

  lemma KeptTask(v: World, s: Setup, step: Step, id: u32)
    requires Shape(v) && InGap(Apply(v, s, step), id)
    ensures
      var t := v.link.slots;
      InGap(v, id) || (step.AckArrive? && LookUp(t, step.seqNum) == Detection(FirstHolding(t, step.seqNum), id))
  {
    hide Log, TimeSync, FastForward, MarkSynced, Send, Serialize;
    var u := Apply(v, s, step);
    var a :| a in u.acks && a.eventId == id;
    if step.AckMark? && a !in v.acks {
      assert v.acks[step.k] in v.acks && v.acks[step.k].eventId == id;
    }
  }

  /** An event synced after a step was synced before it, or the step marked its id. */
  lemma SyncOrigin(v: World, s: Setup, step: Step, e: Event)
    requires Shape(v) && e in Apply(v, s, step).hist.events && e.IsSynced()
    ensures InGap(v, e.id) || SyncedIn(v.hist, e.Core())
  {
    hide Log, TimeSync, FastForward, MarkSynced, Send, Serialize, LookUp;
    var h := v.hist;
    match step {
      case LogEvent(durationMs, uptime, epoch) => LogOrigin(h, s.capacity, durationMs, uptime, epoch, e);
      case SyncTime(epoch, uptime) => StampOrigin(h, epoch, uptime, e);
      case AckMark(k) =>
        if k < |v.acks| && !v.acks[k].marked {
          MarkOrigin(h, v.acks[k].eventId, e);
          assert v.acks[k] in v.acks;
        }
      case SkipIds(id) => assert Apply(v, s, step).hist.events == h.events by { SkipOrigin(h, id); }
      case _ =>
    }
  }

  lemma LogOrigin(h: History, capacity: nat, durationMs: u16, uptime: u32, epoch: u32, e: Event)
    requires e in Log(h, capacity, durationMs, uptime, epoch).events && e.IsSynced()
    ensures SyncedIn(h, e.Core())
  {
    var all := h.events + [NewEvent(h, capacity, durationMs, uptime, epoch)];
    assert e in all;
    assert e in h.events;
  }

  lemma StampOrigin(h: History, epoch: u32, uptime: u32, e: Event)
    requires e in TimeSync(h, epoch, uptime).events && e.IsSynced()
    ensures SyncedIn(h, e.Core())
  {
    hide Stamp;
    var i :| 0 <= i < |h.events| && Backfill(h.events[i], h.bootCount, epoch, uptime) == e;
    assert h.events[i] in h.events && h.events[i].Core() == e.Core();
  }

  lemma MarkOrigin(h: History, id: u32, e: Event)
    requires e in MarkSynced(h, id).events && e.IsSynced()
    ensures e.id == id || SyncedIn(h, e.Core())
  {
    var i :| 0 <= i < |h.events| && MarkSynced(h, id).events[i] == e;
    if i == FirstWithId(h.events, id) {
      SyncKeepsCore(h.events[i]);
    } else {
      assert e == h.events[i] && e in h.events;
    }
  }

  lemma SkipOrigin(h: History, id: u32)
    ensures FastForward(h, id).events == h.events
  {
  }

  /** The main safety property. If an event of the ring is flagged synced after a run, it was so
      before the run, or an ACK arrived during it for the number of a slot whose frame had been built
      from that very event: same id, same uptime, same boot, same duration. */
  lemma SyncedOnlyByItsAck(w: World, s: Setup, steps: seq<Step>, e: Event) returns (k: nat, i: nat, sent: Event)
    requires Initial(w) && |w.hist.events| <= s.capacity
    requires HistoryRuns.Ordered(w.hist) && HistoryRuns.NoWrap(w.hist, s.capacity, RingOps(w, s, steps))
    requires e in Run(w, s, steps).hist.events && e.IsSynced()
    requires !SyncedIn(w.hist, e.Core())
    ensures k < |steps| && Acknowledged(w, s, steps, k, i, sent) && sent.Core() == e.Core()
  {
    assert Shape(w);
    hide Run, Pool, Acknowledged, RingOps, HistoryRuns.NoWrap, HistoryRuns.Ordered, Initial, SyncedIn;
    MarksWereAcknowledged(w, s, steps);
    assert EverAcknowledged(w, s, steps, e.id);
    k, i, sent :| k < |steps| && Acknowledged(w, s, steps, k, i, sent) && sent.id == e.id
        && sent.Core() in Pool(w, s, steps);
    StoredInPool(w, s, steps, e);
    PoolIdsUnique(w, s, steps);
    hide EverAcknowledged;
    SameIdSameCore(Pool(w, s, steps), sent.Core(), e.Core());
  }

  lemma SameIdSameCore(pool: seq<EventCore>, a: EventCore, b: EventCore)
    requires HistoryRuns.Increasing(pool) && a in pool && b in pool && a.id == b.id
    ensures a == b
  {
  }

  lemma PoolIdsUnique(w: World, s: Setup, steps: seq<Step>)
    requires Shape(w) && HistoryRuns.Ordered(w.hist)
    requires HistoryRuns.NoWrap(w.hist, s.capacity, RingOps(w, s, steps))
    ensures HistoryRuns.Increasing(Pool(w, s, steps))
  {
    HistoryRuns.IdsOrderTheRun(w.hist, s.capacity, RingOps(w, s, steps));
    var a, b := Cores(w.hist.events), HistoryRuns.Logged(w.hist, s.capacity, RingOps(w, s, steps));
    forall i: nat, j: nat | i < j < |a + b|
      ensures var all: seq<EventCore> := a + b; all[i].id < all[j].id
    {
      if i < |a| {
        assert a[i].id <= w.hist.latestId;
      }
    }
  }
}
