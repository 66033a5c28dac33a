/** The pump feeds the oldest event that is not synced yet into the protocol, over and over. */
module DeliveryPump {
  import opened Bytes
  import opened Events
  import opened History
  import opened HistoryServices
  import opened ProtocolHandlers
  import Governor
  import Pending
  import Frame

  const MIN_PUMP_INTERVAL_MS: u32 := 150
  const MAX_PENDING_BEFORE_BACKOFF := 8

  predicate TooEarly(lastAttempt: u32, now: u32) {
    (now - lastAttempt) % U32_COUNT < MIN_PUMP_INTERVAL_MS
  }

  /** The event that an update offers to the protocol, if any. */
  function Due(lastAttempt: u32, t: Pending.Table, v: seq<Event>, transportReady: bool, historyLocked: bool, now: u32)
    : Option<Event>
  {
    if !TooEarly(lastAttempt, now) && transportReady && Pending.CountActive(t) < MAX_PENDING_BEFORE_BACKOFF
        && historyLocked
    then NextUnsynced(v) else None
  }

  class DetectionDeliveryPump {
    const history: HistoryService
    const protocol: ProtocolHandler
    var lastPumpAttemptMs: u32

    constructor (history: HistoryService, protocol: ProtocolHandler, now: u32)
      ensures this.history == history && this.protocol == protocol && lastPumpAttemptMs == now
    {
      this.history, this.protocol, lastPumpAttemptMs := history, protocol, now;
    }

    method IsProtocolReady() returns (ready: bool)
      requires protocol.Valid()
      ensures ready <==> Pending.CountActive(protocol.pendingMessages[..]) < MAX_PENDING_BEFORE_BACKOFF
    {
      var pendingCount := protocol.GetPendingCount();
      return pendingCount < MAX_PENDING_BEFORE_BACKOFF;
    }

    /** An update that is too early, or finds no transport, too many waiting messages or nothing to
        send, leaves the link and the governor alone; otherwise the oldest unsynced event is offered. */
    method Update(transportReady: bool, historyLocked: bool, env: Env)
      requires history.Valid() && protocol.Valid()
      modifies this, protocol`txSeqNum, protocol`detectionWindowStart, protocol`detectionEventCount,
        protocol.pendingMessages, protocol.txFrameBuffer, protocol.radio
      ensures protocol.Valid()
      ensures lastPumpAttemptMs == if TooEarly(old(lastPumpAttemptMs), env.now) then old(lastPumpAttemptMs) else env.now
      ensures
        var t, v := old(protocol.pendingMessages[..]), history.View();
        var due := Due(old(lastPumpAttemptMs), t, v, transportReady, historyLocked, env.now);
        var gate := old(protocol.TheGate());
        && protocol.TheGate() == (if due.Some? then gate.Offered(env.now) else gate)
        && if due.Some? && gate.Admits(env.now) then
             var one := SendOne(old(protocol.TheLink()), due.value, env);
             protocol.TheLink() == one.link
                 && protocol.radio.attempted == old(protocol.radio.attempted) + Attempts(one.onAir)
           else
             protocol.TheLink() == old(protocol.TheLink()) && protocol.radio.attempted == old(protocol.radio.attempted)
    {
      hide NextUnsynced, Serialize, RingView, RingChecksum, CarriesIds, Pending.Send, Governor.Gate.Offered,
          Governor.Gate.Admits;
      var now := env.now;
      if (now - lastPumpAttemptMs) % U32_COUNT < MIN_PUMP_INTERVAL_MS {
        return;
      }
      lastPumpAttemptMs := now;
      if !transportReady {
        return;
      }
      var ready := IsProtocolReady();
      if !ready {
        return;
      }
      var found, event := history.GetNextUnsynced(historyLocked);
      if !found {
        return;
      }
      var _ := protocol.SendDetectionEvent(event, false, env);
    }
  }

  /** Backing off at eight waiting messages, the pump never lacks a slot: what it offers to a working
      link is sent and tracked, and at most eight messages wait afterwards. */
  lemma ReadyMeansRoom(link: Pending.Link, e: Event, env: Env)
    requires |link.slots| == Pending.MAX_PENDING_MESSAGES
        && Pending.CountActive(link.slots) < MAX_PENDING_BEFORE_BACKOFF
    ensures
      var one := SendOne(link, e, env);
      && (one.sent <==> env.connected && env.locked && env.radioOk)
      && Pending.CountActive(one.link.slots) <= MAX_PENDING_BEFORE_BACKOFF
      && (one.sent ==> Pending.CountActive(one.link.slots) == Pending.CountActive(link.slots) + 1)
  {
    hide Serialize, Frame.Encode, Pending.CountActive;
    var t, free := link.slots, Pending.FirstFree(link.slots);
    Pending.FullIff(t);
    var frame := Frame.Encode(Frame.Message(Pending.MSG_DETECTION_EVENT, link.txSeqNum, Serialize(e)));
    var slot := Pending.NewSlot(link.txSeqNum, Pending.MSG_DETECTION_EVENT, frame, env.now);
    var u := t[free := slot];
    Pending.ActiveUpdate(t, free, slot);
    var i := Pending.FirstHolding(u, link.txSeqNum);
    assert u[free].Holds(link.txSeqNum);
    Pending.ActiveUpdate(u, i, u[i].Freed());
  }
}
