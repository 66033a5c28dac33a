/** Progress of whole runs that the pump drives: whatever the other tasks do in between, and whichever of
    its updates its guards let through, what it owes gets delivered as long as some of its attempts are
    acknowledged. */
module DeliveryPumping {
  import opened Bytes
  import opened Events
  import opened History
  import opened Pending
  import opened DeliveryTable
  import opened DeliveryPump
  import opened ProtocolHandlers
  import Delivery
  import DeliverySafety
  import Governor
  import Frame
  import HistoryRuns

  datatype System = System(world: Delivery.World, gate: Governor.Gate, lastAttempt: u32)

  /** An update of the pump, or a step of any other task. */
  datatype Step =
    | Pump(transportReady: bool, historyLocked: bool, env: Env)
    | Other(step: Delivery.Step)

  function DueIn(y: System, step: Step): Option<Event>
    requires step.Pump?
  {
    Due(y.lastAttempt, y.world.link.slots, y.world.hist.events, step.transportReady, step.historyLocked, step.env.now)
  }

  /** The event that an update hands on for sending, past its guards, the governor and the lock. */
  function Attempted(y: System, step: Step): Option<Event> {
    if step.Pump? && y.gate.Admits(step.env.now) && step.env.connected && step.env.locked then DueIn(y, step)
    else None
  }

  /** Fetch the oldest unsynced event and send it. */
  function FetchAndSend(w: Delivery.World, s: Delivery.Setup, env: Env): (r: Delivery.World)
    requires Shape(w)
    ensures Shape(r)
  {
    Delivery.ApplyKeepsShape(w, s, Delivery.FetchUnsynced);
    var v := Delivery.Apply(w, s, Delivery.FetchUnsynced);
    Delivery.ApplyKeepsShape(v, s, Delivery.SendEvent(|w.hand|, env.radioOk, env.now));
    Delivery.Apply(v, s, Delivery.SendEvent(|w.hand|, env.radioOk, env.now))
  }

  function Apply(y: System, s: Delivery.Setup, step: Step): (r: System)
    requires Shape(y.world)
    ensures Shape(r.world)
  {
    match step
    case Pump(_, _, env) =>
      System(if Attempted(y, step).Some? then FetchAndSend(y.world, s, env) else y.world,
             if DueIn(y, step).Some? then y.gate.Offered(env.now) else y.gate,
             if TooEarly(y.lastAttempt, env.now) then y.lastAttempt else env.now)
    case Other(l) =>
      Delivery.ApplyKeepsShape(y.world, s, l);
      y.(world := Delivery.Apply(y.world, s, l))
  }

  function Run(y: System, s: Delivery.Setup, steps: seq<Step>): (r: System)
    requires Shape(y.world)
    ensures Shape(r.world)
  {
    if steps == [] then y else Apply(Run(y, s, steps[..|steps| - 1]), s, steps[|steps| - 1])
  }

  /** A pump step does to the link, the gate and the clock of the pump what the contract of its update
      method says. */
  lemma PumpIsUpdate(y: System, s: Delivery.Setup, step: Step)
    requires Shape(y.world) && step.Pump?
    ensures
      var z, due := Apply(y, s, step), DueIn(y, step);
      && z.world.hist == y.world.hist
      && z.lastAttempt == (if TooEarly(y.lastAttempt, step.env.now) then y.lastAttempt else step.env.now)
      && z.gate == (if due.Some? then y.gate.Offered(step.env.now) else y.gate)
      && z.world.link == if due.Some? && y.gate.Admits(step.env.now)
                         then SendOne(y.world.link, due.value, step.env).link else y.world.link
  {
    hide Send, Serialize, Governor.Gate.Admits, Governor.Gate.Offered, NextUnsynced, CountActive;
  }

  lemma RunSnoc(y: System, s: Delivery.Setup, steps: seq<Step>, step: Step)
    requires Shape(y.world)
    ensures Run(y, s, steps + [step]) == Apply(Run(y, s, steps), s, step)
  {
    assert (steps + [step])[..|steps|] == steps;
    hide Apply;
  }

  /** The state before step k. */
  function At(y: System, s: Delivery.Setup, steps: seq<Step>, k: nat): (r: System)
    requires Shape(y.world) && k <= |steps|
    ensures Shape(r.world)
  {
    Run(y, s, steps[..k])
  }

  lemma AtNext(y: System, s: Delivery.Setup, steps: seq<Step>, k: nat)
    requires Shape(y.world) && k < |steps|
    ensures At(y, s, steps, k + 1) == Apply(At(y, s, steps, k), s, steps[k])
  {
    assert steps[..k + 1] == steps[..k] + [steps[k]];
    RunSnoc(y, s, steps[..k], steps[k]);
  }

  lemma AtEnds(y: System, s: Delivery.Setup, steps: seq<Step>)
    requires Shape(y.world)
    ensures At(y, s, steps, 0) == y && At(y, s, steps, |steps|) == Run(y, s, steps)
  {
    assert steps[..|steps|] == steps;
  }

  // ---------- what is owed

  /** The ids up to a limit of the stored events that are not synced. */
  function Owed(v: seq<Event>, limit: u32): set<u32> {
    set e | e in v && !e.IsSynced() && e.id <= limit :: e.id
  }

  lemma MarkPays(h: History, id: u32, limit: u32)
    requires HistoryRuns.Ordered(h)
    ensures Owed(MarkSynced(h, id).events, limit) == Owed(h.events, limit) - {id}
  {
    var v, u, i := h.events, MarkSynced(h, id).events, FirstWithId(h.events, id);
    if i < |v| {
      SyncKeepsCore(v[i]);
      assert v[i].SetSynced().id == v[i].id == id;
    }
    hide FirstWithId, MarkSynced;
    forall e
      ensures e in u && !e.IsSynced() <==> e in v && !e.IsSynced() && e.id != id
    {
      OnlyThatOne(h, id, e);
    }
  }

  /** Marking an id leaves exactly the unsynced events with other ids. */
  lemma OnlyThatOne(h: History, id: u32, e: Event)
    requires HistoryRuns.Ordered(h)
    ensures e in MarkSynced(h, id).events && !e.IsSynced() <==> e in h.events && !e.IsSynced() && e.id != id
  {
    var v, u, i := h.events, MarkSynced(h, id).events, FirstWithId(h.events, id);
    if i < |v| {
      SyncKeepsCore(v[i]);
    }
    if e in u && !e.IsSynced() {
      var j :| 0 <= j < |u| && u[j] == e;
      assert v[j] == e;
    }
    if e in v && !e.IsSynced() && e.id != id {
      var j :| 0 <= j < |v| && v[j] == e;
      assert u[j] == e;
    }
  }

  lemma LogOwes(h: History, capacity: nat, durationMs: u16, uptime: u32, epoch: u32, limit: u32)
    requires h.latestId != U32_COUNT - 1 && limit <= h.latestId
    ensures Owed(Log(h, capacity, durationMs, uptime, epoch).events, limit) <= Owed(h.events, limit)
  {
    var e := NewEvent(h, capacity, durationMs, uptime, epoch);
    assert e.id > limit;
    assert forall x :: x in Log(h, capacity, durationMs, uptime, epoch).events ==> x in h.events + [e];
    assert forall x :: x in h.events + [e] ==> x in h.events || x == e;
    hide NewEvent;
  }

  lemma StampOwes(h: History, epoch: u32, uptime: u32, limit: u32)
    ensures Owed(TimeSync(h, epoch, uptime).events, limit) <= Owed(h.events, limit)
  {
    hide Stamp;
    var u := TimeSync(h, epoch, uptime).events;
    forall x | x in Owed(u, limit)
      ensures x in Owed(h.events, limit)
    {
      var e :| e in u && !e.IsSynced() && e.id <= limit && e.id == x;
      var j :| 0 <= j < |u| && u[j] == e;
      assert h.events[j] in h.events;
    }
  }

  // ---------- what every step keeps

  /** Tickets are not handed out in advance. */
  predicate Booked(w: Delivery.World) {
    && Shape(w)
    && (forall i :: 0 <= i < |w.books.ticket| ==> w.books.ticket[i] < w.books.next)
    && (forall k :: 0 <= k < |w.acks| ==> w.acks[k].ticket < w.books.next)
  }

  predicate Good(y: System) {
    Booked(y.world) && HistoryRuns.Ordered(y.world.hist)
  }

  predicate Fine(y: System, limit: u32) {
    Good(y) && limit <= y.world.hist.latestId
  }

  function Debt(y: System, limit: u32): set<u32> {
    Owed(y.world.hist.events, limit)
  }

  predicate NoMore(z: System, y: System, limit: u32) {
    Debt(z, limit) <= Debt(y, limit)
  }

  /** One owed event fewer at least, if any is left. */
  predicate Fewer(z: System, y: System, limit: u32) {
    NoMore(z, y, limit) && (Debt(z, limit) == {} || Debt(z, limit) != Debt(y, limit))
  }

  /** The step does not log with an exhausted id counter. */
  predicate Safe(y: System, step: Step) {
    step.Other? && step.step.LogEvent? ==> y.world.hist.latestId != U32_COUNT - 1
  }

  predicate AllSafe(y: System, s: Delivery.Setup, steps: seq<Step>)
    requires Shape(y.world)
  {
    forall k :: 0 <= k < |steps| ==> Safe(At(y, s, steps, k), steps[k])
  }

  lemma LiveBooked(w: Delivery.World, s: Delivery.Setup, l: Delivery.Step)
    requires Booked(w)
    ensures Booked(Delivery.Apply(w, s, l))
  {
    hide Log, TimeSync, FastForward, MarkSynced, Send, Serialize, NextUnsynced, Since, Retried, Judge, Clear, ClearAll;
    hide AfterLookup, AfterRecheck, CountActive, Delivery.FailureFrees;
    Delivery.ApplyKeepsShape(w, s, l);
  }

  lemma LiveOwes(w: Delivery.World, s: Delivery.Setup, l: Delivery.Step, limit: u32)
    requires Shape(w) && HistoryRuns.Ordered(w.hist) && limit <= w.hist.latestId
    requires l.LogEvent? ==> w.hist.latestId != U32_COUNT - 1
    ensures var h := Delivery.Apply(w, s, l).hist;
      HistoryRuns.Ordered(h) && limit <= h.latestId && Owed(h.events, limit) <= Owed(w.hist.events, limit)
  {
    var h := w.hist;
    DeliverySafety.StepOnRing(w, s, l);
    var ops := DeliverySafety.RingOp(w, l);
    hide Delivery.Apply, Owed, HistoryRuns.Ordered;
    if ops != [] {
      match ops[0] {
        case DoLog(durationMs, uptime, epoch) =>
          HistoryRuns.LogKeepsOrderIff(h, s.capacity, durationMs, uptime, epoch);
          HistoryRuns.LogLatest(h, s.capacity, durationMs, uptime, epoch);
          LogOwes(h, s.capacity, durationMs, uptime, epoch, limit);
        case DoTimeSync(epoch, uptime) =>
          HistoryRuns.OthersKeepCores(h, s.capacity, ops[0]);
          HistoryRuns.OthersKeepIds(h, HistoryRuns.Apply(h, s.capacity, ops[0]));
          StampOwes(h, epoch, uptime, limit);
        case DoMark(id) =>
          HistoryRuns.OthersKeepCores(h, s.capacity, ops[0]);
          HistoryRuns.OthersKeepIds(h, HistoryRuns.Apply(h, s.capacity, ops[0]));
          MarkPays(h, id, limit);
        case DoFastForward(id) =>
          HistoryRuns.OthersKeepIds(h, HistoryRuns.Apply(h, s.capacity, ops[0]));
        case DoMarkAll(ids) => assert false;
      }
    }
  }

  lemma StepKeeps(y: System, s: Delivery.Setup, step: Step, limit: u32)
    requires Fine(y, limit) && Safe(y, step)
    ensures Fine(Apply(y, s, step), limit) && NoMore(Apply(y, s, step), y, limit)
  {
    assert Shape(y.world);
    hide Delivery.Apply, Owed, HistoryRuns.Ordered, Booked;
    match step {
      case Pump(_, _, env) =>
        PumpIsUpdate(y, s, step);
        if Attempted(y, step).Some? {
          LiveBooked(y.world, s, Delivery.FetchUnsynced);
          LiveBooked(Delivery.Apply(y.world, s, Delivery.FetchUnsynced), s,
                     Delivery.SendEvent(|y.world.hand|, env.radioOk, env.now));
        }
      case Other(l) =>
        LiveBooked(y.world, s, l);
        LiveOwes(y.world, s, l, limit);
    }
  }

  lemma {:induction false} Keeps(y: System, s: Delivery.Setup, steps: seq<Step>, i: nat, j: nat, limit: u32)
    requires Shape(y.world) && AllSafe(y, s, steps) && i <= j <= |steps|
    requires Fine(At(y, s, steps, i), limit)
    ensures Fine(At(y, s, steps, j), limit) && NoMore(At(y, s, steps, j), At(y, s, steps, i), limit)
    decreases j
  {
    hide Run, Apply, Debt, Fine, Safe;
    if i < j {
      AtNext(y, s, steps, j - 1);
      hide At;
      Keeps(y, s, steps, i, j - 1, limit);
      StepKeeps(At(y, s, steps, j - 1), s, steps[j - 1], limit);
    }
  }

  // ---------- one attempt

  /** The message with this ticket carries e, wherever it waits and whoever handles its ACK. */
  predicate Carried(w: Delivery.World, ticket: nat, e: Event)
    requires Shape(w)
  {
    && ticket < w.books.next
    && (forall i :: 0 <= i < |w.link.slots| && w.link.slots[i].active && w.books.ticket[i] == ticket ==>
          DeliverySafety.Carries(w.link.slots[i], e))
    && (forall k :: 0 <= k < |w.acks| && w.acks[k].ticket == ticket ==> w.acks[k].eventId == e.id)
  }

  lemma SendCarries(w: Delivery.World, s: Delivery.Setup, k: nat, radioOk: bool, now: u32)
    requires Booked(w) && k < |w.hand|
    ensures Carried(Delivery.Apply(w, s, Delivery.SendEvent(k, radioOk, now)), w.books.next, w.hand[k])
  {
    hide Frame.Encode, Serialize;
  }

  lemma LiveCarries(w: Delivery.World, s: Delivery.Setup, l: Delivery.Step, ticket: nat, e: Event)
    requires Booked(w) && Carried(w, ticket, e)
    ensures Carried(Delivery.Apply(w, s, l), ticket, e)
  {
    Delivery.ApplyKeepsShape(w, s, l);
    match l {
      case SendEvent(k, radioOk, now) =>
        if k < |w.hand| {
          OtherSendCarries(w, MSG_DETECTION_EVENT, Serialize(w.hand[k]), true, radioOk, now, ticket, e);
        }
      case SendOther(msgType, payload, requireAck, radioOk, now) =>
        if msgType != MSG_DETECTION_EVENT {
          OtherSendCarries(w, msgType, payload, requireAck, radioOk, now, ticket, e);
        }
      case AckArrive(seqNum) => ArriveCarries(w, s, seqNum, ticket, e);
      case _ => FreeingCarries(w, s, l, ticket, e);
    }
  }

  lemma FreeingCarries(w: Delivery.World, s: Delivery.Setup, l: Delivery.Step, ticket: nat, e: Event)
    requires Booked(w) && Carried(w, ticket, e) && !l.SendEvent? && !l.SendOther? && !l.AckArrive?
    ensures Shape(Delivery.Apply(w, s, l)) && Carried(Delivery.Apply(w, s, l), ticket, e)
  {
    hide Log, TimeSync, FastForward, MarkSynced, Frame.Encode, Serialize;
    Delivery.ApplyKeepsShape(w, s, l);
  }

  lemma OtherSendCarries(w: Delivery.World, msgType: byte, payload: seq<byte>, requireAck: bool, radioOk: bool,
      now: u32, ticket: nat, e: Event)
    requires Booked(w) && Carried(w, ticket, e)
    ensures var v := Delivery.SendMessage(w, msgType, payload, requireAck, radioOk, now);
      Shape(v) && Carried(v, ticket, e)
  {
    hide Frame.Encode, Serialize;
  }

  /** An ACK that is looked up for the message reads the id of its event. */
  lemma ArriveCarries(w: Delivery.World, s: Delivery.Setup, seqNum: u16, ticket: nat, e: Event)
    requires Booked(w) && Carried(w, ticket, e)
    ensures var v := Delivery.Apply(w, s, Delivery.AckArrive(seqNum)); Shape(v) && Carried(v, ticket, e)
  {
    var t := w.link.slots;
    var i := FirstHolding(t, seqNum);
    if i < |t| && w.books.ticket[i] == ticket {
      DeliverySafety.CarriedId(t[i], e);
    }
    hide DeliverySafety.Carries, EventIdIn, Frame.Encode, Serialize;
  }

  lemma StepCarries(y: System, s: Delivery.Setup, step: Step, ticket: nat, e: Event)
    requires Good(y) && Carried(y.world, ticket, e)
    ensures Carried(Apply(y, s, step).world, ticket, e)
  {
    assert Booked(y.world) && Shape(y.world);
    hide Delivery.Apply, Carried, Booked, HistoryRuns.Ordered;
    match step {
      case Pump(_, _, env) =>
        if Attempted(y, step).Some? {
          var v := Delivery.Apply(y.world, s, Delivery.FetchUnsynced);
          LiveBooked(y.world, s, Delivery.FetchUnsynced);
          LiveCarries(y.world, s, Delivery.FetchUnsynced, ticket, e);
          LiveCarries(v, s, Delivery.SendEvent(|y.world.hand|, env.radioOk, env.now), ticket, e);
        }
      case Other(l) => LiveCarries(y.world, s, l, ticket, e);
    }
  }

  lemma {:induction false} Carries(y: System, s: Delivery.Setup, steps: seq<Step>, i: nat, j: nat, ticket: nat,
      e: Event, limit: u32)
    requires Shape(y.world) && AllSafe(y, s, steps) && i <= j <= |steps|
    requires Fine(At(y, s, steps, i), limit) && Carried(At(y, s, steps, i).world, ticket, e)
    ensures Carried(At(y, s, steps, j).world, ticket, e)
    decreases j
  {
    hide Run, Apply, Carried, Good, NoMore, Safe;
    if i < j {
      AtNext(y, s, steps, j - 1);
      hide At;
      Carries(y, s, steps, i, j - 1, ticket, e, limit);
      Keeps(y, s, steps, i, j - 1, limit);
      StepCarries(At(y, s, steps, j - 1), s, steps[j - 1], ticket, e);
    }
  }

  /** What the pump hands on is the oldest unsynced event, and its message carries it. */
  lemma AttemptCarries(y: System, s: Delivery.Setup, step: Step)
    requires Good(y) && Attempted(y, step).Some?
    ensures
      var e := Attempted(y, step).value;
      && NextUnsynced(y.world.hist.events) == Some(e)
      && Carried(Apply(y, s, step).world, y.world.books.next, e)
  {
    var w, env := y.world, step.env;
    assert Booked(w) && Shape(w);
    LiveBooked(w, s, Delivery.FetchUnsynced);
    Fetched(w, s);
    hide Delivery.Apply, Carried, Booked, HistoryRuns.Ordered, NextUnsynced;
    SendCarries(Delivery.Apply(w, s, Delivery.FetchUnsynced), s, |w.hand|, env.radioOk, env.now);
  }

  lemma Fetched(w: Delivery.World, s: Delivery.Setup)
    requires Shape(w) && NextUnsynced(w.hist.events).Some?
    ensures Delivery.Apply(w, s, Delivery.FetchUnsynced) == w.(hand := w.hand + [NextUnsynced(w.hist.events).value])
  {
  }

  // ---------- attempts that are acknowledged

  /** The step marks the event of an ACK that was for the message with this ticket. */
  predicate Marks(w: Delivery.World, step: Step, ticket: nat) {
    && step.Other? && step.step.AckMark? && step.step.k < |w.acks|
    && !w.acks[step.step.k].marked && w.acks[step.step.k].ticket == ticket
  }

  /** At step a the pump hands an event on, and at step m the ACK of that very message marks it. */
  predicate Served(y: System, s: Delivery.Setup, steps: seq<Step>, a: nat, m: nat)
    requires Shape(y.world) && a < m < |steps|
  {
    && Attempted(At(y, s, steps, a), steps[a]).Some?
    && Marks(At(y, s, steps, m).world, steps[m], At(y, s, steps, a).world.books.next)
  }

  ghost predicate SomeServed(y: System, s: Delivery.Setup, steps: seq<Step>)
    requires Shape(y.world)
  {
    exists a: nat, m: nat :: a < m < |steps| && Served(y, s, steps, a, m)
  }

  /** The oldest unsynced event is owed if any is. */
  lemma OldestIsOwed(h: History, e: Event, limit: u32)
    requires HistoryRuns.Ordered(h) && NextUnsynced(h.events) == Some(e) && Owed(h.events, limit) != {}
    ensures e.id in Owed(h.events, limit)
  {
    var v, p := h.events, (e: Event) => !e.IsSynced();
    SelectSound(v, p);
    assert Select(v, p)[0] == e && e in Select(v, p);
    var x :| x in Owed(v, limit);
    var f :| f in v && !f.IsSynced() && f.id <= limit && f.id == x;
    OldestFirst(v, p, f);
  }

  lemma {:induction false} OldestFirst(v: seq<Event>, p: Event -> bool, f: Event)
    requires forall i, j :: 0 <= i < j < |v| ==> v[i].id < v[j].id
    requires f in v && p(f)
    ensures Select(v, p) != [] && Select(v, p)[0].id <= f.id
  {
    var n := |v| - 1;
    var init := v[..n];
    assert v == init + [v[n]];
    if f in init {
      OldestFirst(init, p, f);
    } else if Select(init, p) != [] {
      SelectSound(init, p);
      assert Select(init, p)[0] in Select(init, p);
    }
  }

  /** One acknowledged attempt pays at least one of the events owed, unless none is left. */
  lemma ServedPays(y: System, s: Delivery.Setup, steps: seq<Step>, limit: u32)
    requires Shape(y.world) && Fine(y, limit) && AllSafe(y, s, steps) && SomeServed(y, s, steps)
    ensures Fewer(Run(y, s, steps), y, limit)
  {
    hide Served, Run, Fine, Fewer, AllSafe;
    var a: nat, m: nat :| a < m < |steps| && Served(y, s, steps, a, m);
    PaysBy(y, s, steps, a, m, limit);
  }

  lemma PaysBy(y: System, s: Delivery.Setup, steps: seq<Step>, a: nat, m: nat, limit: u32)
    requires Shape(y.world) && Fine(y, limit) && AllSafe(y, s, steps) && a < m < |steps| && Served(y, s, steps, a, m)
    ensures Fewer(Run(y, s, steps), y, limit)
  {
    hide Run, Apply, Fine, NoMore, Fewer, Served, AllSafe;
    AtEnds(y, s, steps);
    hide At;
    Keeps(y, s, steps, 0, a, limit);
    MarkedAt(y, s, steps, a, m, limit);
    Keeps(y, s, steps, m + 1, |steps|, limit);
    Chain(y, At(y, s, steps, a), At(y, s, steps, m + 1), Run(y, s, steps), limit);
  }

  lemma Chain(a: System, b: System, c: System, d: System, limit: u32)
    requires NoMore(b, a, limit) && Fewer(c, b, limit) && NoMore(d, c, limit)
    ensures Fewer(d, a, limit)
  {
    hide Debt;
  }

  lemma AttemptOwed(y: System, step: Step, limit: u32)
    requires Good(y) && Attempted(y, step).Some?
    ensures Debt(y, limit) == {} || Attempted(y, step).value.id in Debt(y, limit)
  {
    hide Owed, NextUnsynced, Booked;
    if Debt(y, limit) != {} {
      OldestIsOwed(y.world.hist, Attempted(y, step).value, limit);
    }
  }

  lemma MarkedAt(y: System, s: Delivery.Setup, steps: seq<Step>, a: nat, m: nat, limit: u32)
    requires Shape(y.world) && AllSafe(y, s, steps) && a < m < |steps| && Served(y, s, steps, a, m)
    requires Fine(At(y, s, steps, a), limit)
    ensures Fine(At(y, s, steps, m + 1), limit) && Fewer(At(y, s, steps, m + 1), At(y, s, steps, a), limit)
  {
    hide At, Run, Apply, Debt, Carried, AllSafe, NoMore, Fewer, Marks, Fine, Good, Attempted, Served;
    ServedIs(y, s, steps, a, m);
    var start, mid, stop := At(y, s, steps, a), At(y, s, steps, m), At(y, s, steps, m + 1);
    var e := Sent(start, s, steps[a], limit);
    AtNext(y, s, steps, a);
    AtNext(y, s, steps, m);
    Keeps(y, s, steps, a, a + 1, limit);
    Carries(y, s, steps, a + 1, m, start.world.books.next, e, limit);
    Keeps(y, s, steps, a, m, limit);
    Keeps(y, s, steps, a, m + 1, limit);
    MarkStepPays(mid, s, steps[m], start.world.books.next, e, limit);
    PaidOff(start, mid, stop, e.id, limit);
  }

  lemma ServedIs(y: System, s: Delivery.Setup, steps: seq<Step>, a: nat, m: nat)
    requires Shape(y.world) && a < m < |steps| && Served(y, s, steps, a, m)
    ensures Attempted(At(y, s, steps, a), steps[a]).Some?
    ensures Marks(At(y, s, steps, m).world, steps[m], At(y, s, steps, a).world.books.next)
  {
    hide At, Attempted, Marks;
  }

  /** The event of an attempt. */
  lemma Sent(y: System, s: Delivery.Setup, step: Step, limit: u32) returns (e: Event)
    requires Shape(y.world) && Fine(y, limit) && Attempted(y, step).Some?
    ensures Carried(Apply(y, s, step).world, y.world.books.next, e)
    ensures Debt(y, limit) == {} || e.id in Debt(y, limit)
  {
    e := Attempted(y, step).value;
    AttemptCarries(y, s, step);
    AttemptOwed(y, step, limit);
  }

  lemma PaidOff(start: System, mid: System, stop: System, id: u32, limit: u32)
    requires NoMore(mid, start, limit) && Debt(stop, limit) == Debt(mid, limit) - {id}
    requires Debt(start, limit) == {} || id in Debt(start, limit)
    ensures Fewer(stop, start, limit)
  {
    hide Debt;
  }

  lemma MarkStepPays(y: System, s: Delivery.Setup, step: Step, ticket: nat, e: Event, limit: u32)
    requires Shape(y.world) && Fine(y, limit) && Carried(y.world, ticket, e) && Marks(y.world, step, ticket)
    ensures Debt(Apply(y, s, step), limit) == Debt(y, limit) - {e.id}
  {
    MarkPays(y.world.hist, e.id, limit);
    hide Owed, MarkSynced;
  }

  // ---------- whole runs

  /** How often the pump hands an event on. */
  function Attempts(y: System, s: Delivery.Setup, steps: seq<Step>): nat
    requires Shape(y.world)
  {
    if steps == [] then 0 else
      var init := steps[..|steps| - 1];
      Attempts(y, s, init) + if Attempted(Run(y, s, init), steps[|steps| - 1]).Some? then 1 else 0
  }

  /** In every stretch of the run with m attempts, one of those attempts is acknowledged. */
  ghost predicate Fair(y: System, s: Delivery.Setup, steps: seq<Step>, m: nat)
    requires Shape(y.world)
  {
    && m > 0
    && forall i: nat, j: nat :: i <= j <= |steps| && Attempts(At(y, s, steps, i), s, steps[i..j]) >= m ==>
         SomeServed(At(y, s, steps, i), s, steps[i..j])
  }

  lemma {:induction false} Split(y: System, s: Delivery.Setup, steps: seq<Step>, n: nat)
    requires Shape(y.world) && n <= |steps|
    ensures Run(y, s, steps) == Run(At(y, s, steps, n), s, steps[n..])
    ensures Attempts(y, s, steps) == Attempts(y, s, steps[..n]) + Attempts(At(y, s, steps, n), s, steps[n..])
    decreases |steps|
  {
    var m := |steps| - 1;
    if n == |steps| {
      assert steps[..n] == steps;
    } else {
      var init, rest := steps[..m], steps[n..];
      Split(y, s, init, n);
      assert init[..n] == steps[..n] && init[n..] == rest[..|rest| - 1] && rest[|rest| - 1] == steps[m];
      Unfold(y, s, steps);
      Unfold(At(y, s, steps, n), s, rest);
      assert At(y, s, init, n) == At(y, s, steps, n);
      hide Run, Attempts, At, Apply, Attempted;
    }
  }

  lemma Unfold(y: System, s: Delivery.Setup, steps: seq<Step>)
    requires Shape(y.world) && steps != []
    ensures
      var init, step := steps[..|steps| - 1], steps[|steps| - 1];
      && Run(y, s, steps) == Apply(Run(y, s, init), s, step)
      && Attempts(y, s, steps) == Attempts(y, s, init) + if Attempted(Run(y, s, init), step).Some? then 1 else 0
  {
    hide Apply, Attempted;
  }

  /** Runs from the middle of a run. */
  lemma SplitAt(y: System, s: Delivery.Setup, steps: seq<Step>, n: nat, k: nat)
    requires Shape(y.world) && n <= |steps| && k <= |steps| - n
    ensures At(At(y, s, steps, n), s, steps[n..], k) == At(y, s, steps, n + k)
  {
    Split(y, s, steps[..n + k], n);
    assert steps[..n + k][..n] == steps[..n] && steps[..n + k][n..] == steps[n..][..k];
    hide Run, Attempts;
  }

  lemma LaterSafe(y: System, s: Delivery.Setup, steps: seq<Step>, n: nat)
    requires Shape(y.world) && AllSafe(y, s, steps) && n <= |steps|
    ensures AllSafe(y, s, steps[..n]) && AllSafe(At(y, s, steps, n), s, steps[n..])
  {
    hide Run, Safe;
    forall k | 0 <= k < n
      ensures Safe(At(y, s, steps[..n], k), steps[..n][k])
    {
      assert steps[..n][..k] == steps[..k];
    }
    hide At;
    forall k | 0 <= k < |steps| - n
      ensures Safe(At(At(y, s, steps, n), s, steps[n..], k), steps[n..][k])
    {
      SplitAt(y, s, steps, n, k);
    }
  }

  lemma LaterFair(y: System, s: Delivery.Setup, steps: seq<Step>, m: nat, n: nat)
    requires Shape(y.world) && Fair(y, s, steps, m) && n <= |steps|
    ensures Fair(At(y, s, steps, n), s, steps[n..], m)
  {
    hide At, Attempts, SomeServed;
    forall i: nat, j: nat | i <= j <= |steps| - n
        && Attempts(At(At(y, s, steps, n), s, steps[n..], i), s, steps[n..][i..j]) >= m
      ensures SomeServed(At(At(y, s, steps, n), s, steps[n..], i), s, steps[n..][i..j])
    {
      SplitAt(y, s, steps, n, i);
      assert steps[n..][i..j] == steps[n + i..n + j];
    }
  }

  /** Where the m-th attempt has been made. */
  lemma {:induction false} AfterAttempts(y: System, s: Delivery.Setup, steps: seq<Step>, m: nat) returns (n: nat)
    requires Shape(y.world) && Attempts(y, s, steps) >= m
    ensures n <= |steps| && Attempts(y, s, steps[..n]) == m
  {
    n := |steps|;
    assert steps[..n] == steps;
    if Attempts(y, s, steps) > m {
      hide Run, Attempted;
      n := AfterAttempts(y, s, steps[..|steps| - 1], m);
      assert steps[..|steps| - 1][..n] == steps[..n];
    }
  }

  /** With that fairness, every m attempts pay at least one event, until nothing is owed. */
  lemma {:induction false} AttemptsPay(y: System, s: Delivery.Setup, steps: seq<Step>, m: nat, n: nat, limit: u32)
    requires Shape(y.world) && Fine(y, limit) && AllSafe(y, s, steps) && Fair(y, s, steps, m)
    requires Attempts(y, s, steps) >= Product(n, m)
    ensures var left := Debt(Run(y, s, steps), limit); left == {} || |left| + n <= |Debt(y, limit)|
    decreases n
  {
    hide Run, Attempts, Debt, Fine, Fair, AllSafe;
    if n == 0 {
      AtEnds(y, s, steps);
      hide At;
      Keeps(y, s, steps, 0, |steps|, limit);
      NotLarger(Debt(Run(y, s, steps), limit), Debt(y, limit));
    } else {
      hide At;
      ProductStep(n, m);
      hide Product;
      var cut := Pay(y, s, steps, m, limit);
      AttemptsPay(At(y, s, steps, cut), s, steps[cut..], m, n - 1, limit);
    }
  }

  /** A stretch of the run with m attempts, which pays an event. */
  lemma Pay(y: System, s: Delivery.Setup, steps: seq<Step>, m: nat, limit: u32) returns (cut: nat)
    requires Shape(y.world) && Fine(y, limit) && AllSafe(y, s, steps) && Fair(y, s, steps, m)
    requires Attempts(y, s, steps) >= m
    ensures cut <= |steps|
    ensures
      var z, rest := At(y, s, steps, cut), steps[cut..];
      && Fine(z, limit) && AllSafe(z, s, rest) && Fair(z, s, rest, m)
      && (Debt(z, limit) == {} || |Debt(z, limit)| < |Debt(y, limit)|)
      && Attempts(z, s, rest) == Attempts(y, s, steps) - m && Run(y, s, steps) == Run(z, s, rest)
  {
    hide Run, Attempts, Debt, Fine, NoMore, Fair, AllSafe, SomeServed;
    AtEnds(y, s, steps);
    hide At;
    cut := AfterAttempts(y, s, steps, m);
    LaterSafe(y, s, steps, cut);
    LaterFair(y, s, steps, m, cut);
    Split(y, s, steps, cut);
    FairCut(y, s, steps, m, cut);
    Keeps(y, s, steps, 0, cut, limit);
    PaidAtCut(y, s, steps, cut, limit);
  }

  function Product(n: nat, m: nat): nat {
    n * m
  }

  lemma ProductStep(n: nat, m: nat)
    requires n > 0
    ensures Product(n, m) == m + Product(n - 1, m)
  {
  }

  lemma FairCut(y: System, s: Delivery.Setup, steps: seq<Step>, m: nat, cut: nat)
    requires Shape(y.world) && Fair(y, s, steps, m) && cut <= |steps| && Attempts(y, s, steps[..cut]) == m
    ensures SomeServed(y, s, steps[..cut])
  {
    AtEnds(y, s, steps);
    hide Run, At, Attempts, SomeServed;
    assert steps[0..cut] == steps[..cut];
  }

  lemma PaidAtCut(y: System, s: Delivery.Setup, steps: seq<Step>, cut: nat, limit: u32)
    requires Shape(y.world) && Fine(y, limit) && cut <= |steps|
    requires AllSafe(y, s, steps[..cut]) && SomeServed(y, s, steps[..cut])
    ensures var left := Debt(At(y, s, steps, cut), limit); left == {} || |left| < |Debt(y, limit)|
  {
    ServedPays(y, s, steps[..cut], limit);
    hide Run, Debt, Fine, AllSafe, SomeServed;
    if Debt(At(y, s, steps, cut), limit) != {} {
      SmallerSet(Debt(At(y, s, steps, cut), limit), Debt(y, limit));
    }
  }

  lemma SmallerSet<T>(a: set<T>, b: set<T>)
    requires a <= b && a != b
    ensures |a| < |b|
  {
    assert b == a + (b - a);
  }

  lemma NotLarger<T>(a: set<T>, b: set<T>)
    requires a <= b
    ensures |a| <= |b|
  {
    assert b == a + (b - a);
  }

  /** The main result. Take any run of pump updates, sends of other tasks, retries, ACKs in two halves,
      lost frames, reconnects, new events and time syncs, in any order. If in every stretch of it with m
      attempts of the pump one of those attempts is acknowledged, then every m attempts take at least one
      off the events that were unsynced at first, until each of them that is still stored is synced: the
      pump never makes more than m attempts per event before all are through. */
  lemma PumpCatchesUp(y: System, s: Delivery.Setup, steps: seq<Step>, m: nat)
    requires Shape(y.world) && Good(y) && AllSafe(y, s, steps) && Fair(y, s, steps, m)
    ensures
      var limit, v := y.world.hist.latestId, Run(y, s, steps).world.hist.events;
      || (forall e :: e in v && e.id <= limit ==> e.IsSynced())
      || |Owed(v, limit)| + Attempts(y, s, steps) / m <= |Owed(y.world.hist.events, limit)|
    ensures |Owed(y.world.hist.events, y.world.hist.latestId)| <= CountUnsynced(y.world.hist.events)
  {
    var limit, n := y.world.hist.latestId, Attempts(y, s, steps) / m;
    OwedIsCounted(y.world.hist.events, limit);
    WholeParts(Attempts(y, s, steps), m);
    AttemptsPay(y, s, steps, m, n, limit);
    hide Run, Attempts, CountUnsynced, Fair, AllSafe, Good;
    var v := Run(y, s, steps).world.hist.events;
    if Owed(v, limit) == {} {
      NothingOwed(v, limit);
    }
  }

  lemma WholeParts(x: nat, m: nat)
    requires m > 0
    ensures Product(x / m, m) <= x
  {
  }

  lemma NothingOwed(v: seq<Event>, limit: u32)
    requires Owed(v, limit) == {}
    ensures forall e :: e in v && e.id <= limit ==> e.IsSynced()
  {
    forall e | e in v && e.id <= limit
      ensures e.IsSynced()
    {
      assert e.IsSynced() || e.id in Owed(v, limit);
    }
  }

  lemma {:induction false} OwedIsCounted(v: seq<Event>, limit: u32)
    ensures |Owed(v, limit)| <= CountUnsynced(v)
  {
    if v != [] {
      var n := |v| - 1;
      var e := v[n];
      OwedIsCounted(v[..n], limit);
      assert v == v[..n] + [e];
      var more := if !e.IsSynced() then {e.id} else {};
      assert Owed(v, limit) <= Owed(v[..n], limit) + more;
      Within(Owed(v, limit), Owed(v[..n], limit), more);
    }
  }

  lemma Within<T>(a: set<T>, b: set<T>, c: set<T>)
    requires a <= b + c
    ensures |a| <= |b| + |c|
  {
    if a != b + c {
      SmallerSet(a, b + c);
    }
    assert b + c == b + (c - b);
    if c - b != c {
      SmallerSet(c - b, c);
    }
  }

  // ---------- when the pump makes an attempt

  /** An update hands an event on exactly if 150 ms have passed since the last attempt, the link is ready, fewer
      than eight messages wait, the governor has room, and locks and connection allow it; it is then the oldest
      unsynced one. */
  lemma AttemptIff(y: System, step: Step)
    ensures
      Attempted(y, step).Some? <==>
        && step.Pump? && (step.env.now - y.lastAttempt) % 4294967296 >= 150 && step.transportReady
        && CountActive(y.world.link.slots) < 8 && step.historyLocked && y.gate.Admits(step.env.now)
        && step.env.connected && step.env.locked && NextUnsynced(y.world.hist.events).Some?
    ensures Attempted(y, step).Some? ==> Attempted(y, step) == NextUnsynced(y.world.hist.events)
  {
  }
}
