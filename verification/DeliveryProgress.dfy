/** The other half of delivery: the pump's guards do not block for ever, and from every state everything
    that is stored can be delivered. */
module DeliveryProgress {
  import opened Bytes
  import opened Events
  import opened History
  import opened Pending
  import opened DeliveryTable
  import opened DeliveryPump
  import opened DeliveryPumping
  import opened ProtocolHandlers
  import Delivery
  import DeliveryRetries
  import DeliverySafety
  import Frame
  import Governor
  import HistoryRuns

  // ---------- the guards do not block for ever

  /** A step that puts nothing new on the air. */
  predicate Silent(y: System, step: Step) {
    if step.Pump? then Attempted(y, step).None? else !step.step.SendEvent? && !step.step.SendOther?
  }

  predicate AllSilent(y: System, s: Delivery.Setup, steps: seq<Step>)
    requires Shape(y.world)
  {
    forall k :: 0 <= k < |steps| ==> Silent(At(y, s, steps, k), steps[k])
  }

  function Timeouts(y: System, s: Delivery.Setup, steps: seq<Step>): nat
    requires Shape(y.world)
  {
    if steps == [] then 0 else
      var init, step := steps[..|steps| - 1], steps[|steps| - 1];
      Timeouts(y, s, init)
      + if step.Other? && DeliveryRetries.TimesOut(Run(y, s, init).world, s, step.step) then 1 else 0
  }

  lemma {:induction false} SilenceDrains(y: System, s: Delivery.Setup, steps: seq<Step>)
    requires Shape(y.world) && AllSilent(y, s, steps)
    ensures Timeouts(y, s, steps) + Potential(Run(y, s, steps).world.link.slots, s.timing)
         <= Potential(y.world.link.slots, s.timing)
  {
    if steps != [] {
      var n := |steps| - 1;
      var init, step := steps[..n], steps[n];
      assert AllSilent(y, s, init) by {
        assert forall k :: 0 <= k < n ==> init[..k] == steps[..k];
      }
      SilenceDrains(y, s, init);
      assert Silent(At(y, s, steps, n), step);
      var v := Run(y, s, init);
      hide Potential, DeliveryRetries.TimesOut, Delivery.Apply, Attempted;
      if step.Other? {
        DeliveryRetries.StepSpends(v.world, s, step.step);
      }
    }
  }

  lemma {:induction false} SpentTable(t: Table, c: Config)
    requires Potential(t, c) == 0
    ensures CountActive(t) == 0 && forall i :: 0 <= i < |t| ==> !t[i].active
  {
    if t != [] {
      SpentTable(t[..|t| - 1], c);
    }
  }

  /** The back-off ends by itself: after any stretch in which nothing new goes on the air and as many
      messages time out as there are transmissions left, an update on a ready link that comes 150 ms after the
      last, with room in the governor's window or after it, hands on the oldest unsynced event. */
  lemma GuardsOpen(y: System, s: Delivery.Setup, steps: seq<Step>, step: Step)
    requires Shape(y.world) && AllSilent(y, s, steps)
    requires Timeouts(y, s, steps) >= Potential(y.world.link.slots, s.timing)
    requires step.Pump? && step.transportReady && step.historyLocked && step.env.connected && step.env.locked
    requires !TooEarly(Run(y, s, steps).lastAttempt, step.env.now)
    requires var gate := Run(y, s, steps).gate;
      gate.Elapsed(step.env.now) > Governor.DETECTION_RATE_WINDOW_MS || gate.count < Governor.MAX_DETECTIONS_PER_WINDOW
    ensures Attempted(Run(y, s, steps), step) == NextUnsynced(Run(y, s, steps).world.hist.events)
  {
    SilenceDrains(y, s, steps);
    SpentTable(Run(y, s, steps).world.link.slots, s.timing);
    hide Run, CountActive, Potential, NextUnsynced, TooEarly;
  }

  /** A time at which the interval has passed and the governor opens a new window. */
  lemma SomeTime(lastAttempt: u32, gate: Governor.Gate) returns (now: u32)
    ensures !TooEarly(lastAttempt, now) && gate.Elapsed(now) > Governor.DETECTION_RATE_WINDOW_MS
  {
    GapGrows(gate.windowStart, gate.windowStart, Governor.DETECTION_RATE_WINDOW_MS + 1);
    now := (gate.windowStart + Governor.DETECTION_RATE_WINDOW_MS + 1) % U32_COUNT;
    if TooEarly(lastAttempt, now) {
      GapGrows(lastAttempt, now, MIN_PUMP_INTERVAL_MS);
      GapGrows(gate.windowStart, now, MIN_PUMP_INTERVAL_MS);
      now := (now + MIN_PUMP_INTERVAL_MS) % U32_COUNT;
    }
  }

  /** The time since a mark on the wrapping clock, a while later. */
  lemma GapGrows(mark: u32, now: u32, d: nat)
    requires (now - mark) % U32_COUNT + d < U32_COUNT
    ensures ((now + d) % U32_COUNT - mark) % U32_COUNT == (now - mark) % U32_COUNT + d
  {
    assert (now - mark) % U32_COUNT == if now >= mark then now - mark else now - mark + U32_COUNT;
    assert (now + d) % U32_COUNT == if now + d < U32_COUNT then now + d else now + d - U32_COUNT;
  }

  // ---------- and from every state there is a run that delivers everything

  function Others(steps: seq<Delivery.Step>): (r: seq<Step>)
    ensures |r| == |steps| && forall k :: 0 <= k < |steps| ==> r[k] == Other(steps[k])
  {
    seq(|steps|, k requires 0 <= k < |steps| => Other(steps[k]))
  }

  lemma {:induction false} OthersRun(y: System, s: Delivery.Setup, steps: seq<Delivery.Step>)
    requires Shape(y.world)
    ensures Run(y, s, Others(steps)) == y.(world := Delivery.Run(y.world, s, steps))
  {
    if steps != [] {
      var n := |steps| - 1;
      OthersRun(y, s, steps[..n]);
      assert Others(steps)[..n] == Others(steps[..n]);
      hide Delivery.Apply;
    }
  }

  /** Sending into an idle table: the ACK of that number finds the event. */
  lemma IdleSends(w: Delivery.World, s: Delivery.Setup, env: Env, e: Event)
    requires Shape(w) && |w.link.slots| > 0 && (forall i :: 0 <= i < |w.link.slots| ==> !w.link.slots[i].active)
    requires NextUnsynced(w.hist.events) == Some(e) && env.radioOk
    ensures
      var v := FetchAndSend(w, s, env);
      && v.hist == w.hist && v.acks == w.acks && |v.link.slots| == |w.link.slots|
      && LookUp(v.link.slots, w.link.txSeqNum) == Detection(0, e.id)
  {
    Fetched(w, s);
    var m := Frame.Message(MSG_DETECTION_EVENT, w.link.txSeqNum, Serialize(e));
    var slot := NewSlot(w.link.txSeqNum, MSG_DETECTION_EVENT, Frame.Encode(m), env.now);
    assert FirstFree(w.link.slots) == 0;
    var u := w.link.slots[0 := slot];
    DeliverySafety.CarriedId(slot, e);
    hide Frame.Encode, Serialize, NextUnsynced, EventIdIn;
    assert FetchAndSend(w, s, env).link.slots == u;
    assert u[0].Holds(w.link.txSeqNum) && FirstHolding(u, w.link.txSeqNum) == 0;
  }

  lemma AckOfIdle(w: Delivery.World, s: Delivery.Setup, seqNum: u16, i: nat, id: u32)
    requires Shape(w) && LookUp(w.link.slots, seqNum) == Detection(i, id)
    ensures
      var v := Delivery.Apply(w, s, Delivery.AckArrive(seqNum));
      && Shape(v) && v.link == w.link && Delivery.Apply(v, s, Delivery.AckMark(|w.acks|)).hist == MarkSynced(w.hist, id)
      && |Delivery.Apply(v, s, Delivery.AckMark(|w.acks|)).link.slots| == |w.link.slots|
  {
    hide MarkSynced;
  }

  /** Let everything time out, let the pump send, receive the ACK: the oldest unsynced event is marked. */
  lemma DeliverOldest(y: System, s: Delivery.Setup, e: Event) returns (steps: seq<Step>)
    requires Shape(y.world) && Good(y) && |y.world.link.slots| > 0 && s.timing.ackTimeoutMs < U32_COUNT - 1
    requires NextUnsynced(y.world.hist.events) == Some(e)
    ensures
      var z := Run(y, s, steps);
      Good(z) && |z.world.link.slots| == |y.world.link.slots| && z.world.hist == MarkSynced(y.world.hist, e.id)
  {
    hide Run, At, Good, NextUnsynced, MarkSynced, CountActive;
    var quiet := Quieten(y, s);
    var rest := FromIdle(Run(y, s, quiet), s, e);
    steps := quiet + rest;
    Joined(y, s, quiet, rest);
  }

  lemma Quieten(y: System, s: Delivery.Setup) returns (steps: seq<Step>)
    requires Shape(y.world) && Good(y) && s.timing.ackTimeoutMs < U32_COUNT - 1
    ensures
      var z := Run(y, s, steps);
      && Good(z) && |z.world.link.slots| == |y.world.link.slots| && z.world.hist == y.world.hist
      && CountActive(z.world.link.slots) == 0
      && forall i :: 0 <= i < |z.world.link.slots| ==> !z.world.link.slots[i].active
  {
    hide Potential, Good, CountActive;
    var quiet := DeliveryRetries.TimeoutsAlwaysDrain(y.world, s);
    assert forall step :: step in quiet ==> !step.SendEvent? && !step.SendOther?;
    DeliveryRetries.TimeoutsRunOut(y.world, s, quiet);
    OthersRun(y, s, quiet);
    steps := Others(quiet);
    QuietIsGood(y, s, quiet);
    hide Run, Others;
    SpentTable(Run(y, s, steps).world.link.slots, s.timing);
  }

  lemma QuietIsGood(y: System, s: Delivery.Setup, quiet: seq<Delivery.Step>)
    requires Shape(y.world) && Good(y) && DeliveryRetries.OnlyRetries(quiet)
    ensures Good(Run(y, s, Others(quiet)))
  {
    hide Run, At, Booked, HistoryRuns.Ordered, NoMore;
    AtEnds(y, s, Others(quiet));
    assert forall k :: 0 <= k < |quiet| ==> quiet[k] in quiet;
    Keeps(y, s, Others(quiet), 0, |quiet|, 0);
  }

  lemma Joined(y: System, s: Delivery.Setup, first: seq<Step>, rest: seq<Step>)
    requires Shape(y.world)
    ensures Run(y, s, first + rest) == Run(Run(y, s, first), s, rest)
  {
    Split(y, s, first + rest, |first|);
    assert (first + rest)[..|first|] == first && (first + rest)[|first|..] == rest;
    AtOf(y, s, first + rest, |first|, first);
    hide Run;
  }

  lemma AtOf(y: System, s: Delivery.Setup, steps: seq<Step>, k: nat, init: seq<Step>)
    requires Shape(y.world) && k <= |steps| && steps[..k] == init
    ensures At(y, s, steps, k) == Run(y, s, init)
  {
  }

  lemma FromIdle(z: System, s: Delivery.Setup, e: Event) returns (steps: seq<Step>)
    requires Shape(z.world) && Good(z) && |z.world.link.slots| > 0 && CountActive(z.world.link.slots) == 0
    requires forall i :: 0 <= i < |z.world.link.slots| ==> !z.world.link.slots[i].active
    requires NextUnsynced(z.world.hist.events) == Some(e)
    ensures
      var r := Run(z, s, steps);
      Good(r) && |r.world.link.slots| == |z.world.link.slots| && r.world.hist == MarkSynced(z.world.hist, e.id)
  {
    var w := z.world;
    assert Shape(w);
    var now := SomeTime(z.lastAttempt, z.gate);
    var env := Env(true, true, true, now);
    var a, b, c := Pump(true, true, env), Other(Delivery.AckArrive(w.link.txSeqNum)), Other(Delivery.AckMark(|w.acks|));
    assert Attempted(z, a) == Some(e) by {
      hide NextUnsynced, CountActive, TooEarly, Booked;
    }
    hide Good, Attempted, NextUnsynced, MarkSynced, CountActive;
    IdleSends(w, s, env, e);
    var z1 := Apply(z, s, a);
    assert z1.world == FetchAndSend(w, s, env);
    hide FetchAndSend, LookUp;
    AckOfIdle(z1.world, s, w.link.txSeqNum, 0, e.id);
    steps := [a, b, c];
    hide Delivery.Apply;
    ThreeSteps(z, s, a, b, c);
  }

  lemma ThreeSteps(z: System, s: Delivery.Setup, a: Step, b: Step, c: Step)
    requires Shape(z.world) && Good(z) && Safe(z, a) && !Logs(b) && !Logs(c)
    ensures Run(z, s, [a, b, c]) == Apply(Apply(Apply(z, s, a), s, b), s, c) && Good(Run(z, s, [a, b, c]))
  {
    DeliveryPumping.RunSnoc(z, s, [], a);
    DeliveryPumping.RunSnoc(z, s, [a], b);
    DeliveryPumping.RunSnoc(z, s, [a, b], c);
    assert [] + [a] == [a] && [a] + [b] == [a, b] && [a, b] + [c] == [a, b, c];
    assert Run(z, s, []) == z;
    hide Run, Apply, NoMore, Good;
    assert Fine(z, 0);
    StepKeeps(z, s, a, 0);
    StepKeeps(Apply(z, s, a), s, b, 0);
    StepKeeps(Apply(Apply(z, s, a), s, b), s, c, 0);
  }

  predicate Logs(step: Step) {
    step.Other? && step.step.LogEvent?
  }

  /** From every state, whatever waits and however many ACKs are in their gap, a run of retries, pump
      updates and ACKs leaves every stored event synced and none lost. */
  lemma {:induction false} EverythingCanBeDelivered(y: System, s: Delivery.Setup) returns (steps: seq<Step>)
    requires Shape(y.world) && Good(y) && |y.world.link.slots| > 0 && s.timing.ackTimeoutMs < U32_COUNT - 1
    ensures
      var before, after := y.world.hist.events, Run(y, s, steps).world.hist.events;
      Cores(after) == Cores(before) && forall e :: e in after ==> e.IsSynced()
    decreases CountUnsynced(y.world.hist.events)
  {
    var h := y.world.hist;
    if NextUnsynced(h.events).None? {
      SelectSound(h.events, (e: Event) => !e.IsSynced());
      assert forall e :: e in h.events && !e.IsSynced() ==> e in Select(h.events, (e: Event) => !e.IsSynced());
      return [];
    }
    var e := NextUnsynced(h.events).value;
    MarkingOldest(h);
    hide NextUnsynced, CountUnsynced, MarkSynced, Cores, HistoryRuns.Ordered;
    var first := DeliverOldest(y, s, e);
    var z := Run(y, s, first);
    var rest := EverythingCanBeDelivered(z, s);
    steps := first + rest;
    Joined(y, s, first, rest);
  }

  /** The oldest unsynced event is found under its own id, so marking it makes one fewer. */
  lemma MarkingOldest(h: History)
    requires HistoryRuns.Ordered(h) && NextUnsynced(h.events).Some?
    ensures
      var g := MarkSynced(h, NextUnsynced(h.events).value.id);
      CountUnsynced(g.events) == CountUnsynced(h.events) - 1 && HistoryRuns.Ordered(g)
          && Cores(g.events) == Cores(h.events)
  {
    var unsynced := Select(h.events, (e: Event) => !e.IsSynced());
    var e := NextUnsynced(h.events).value;
    SelectSound(h.events, (e: Event) => !e.IsSynced());
    assert unsynced[0] in unsynced;
    var i :| 0 <= i < |h.events| && h.events[i] == e;
    assert FirstWithId(h.events, e.id) == i;
    CountUpdate(h.events, i);
    HistoryRuns.OthersKeepCores(h, 0, HistoryRuns.DoMark(e.id));
    HistoryRuns.OthersKeepIds(h, MarkSynced(h, e.id));
  }
}
