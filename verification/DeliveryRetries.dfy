/** Retransmission is bounded: per message over any run, and altogether once sending stops. */
module DeliveryRetries {
  import opened Bytes
  import opened Events
  import opened History
  import opened Pending
  import opened Delivery
  import opened DeliveryTable
  import Frame

  // ---------- how often one message goes on the air

  /** Whether a step hands the frame of the message with this ticket to the radio. */
  predicate Transmits(w: World, s: Setup, step: Step, ticket: nat)
    requires Shape(w)
  {
    match step
    case SendEvent(k, radioOk, now) =>
      && k < |w.hand| && ticket == w.books.next
      && Send(w.link, MSG_DETECTION_EVENT, Serialize(w.hand[k]), true, radioOk, now).onAir.Some?
    case SendOther(msgType, payload, requireAck, radioOk, now) =>
      && msgType != MSG_DETECTION_EVENT && ticket == w.books.next
      && Send(w.link, msgType, payload, requireAck, radioOk, now).onAir.Some?
    case RetrySlot(i, now) =>
      i < |w.link.slots| && w.books.ticket[i] == ticket && Judge(w.link.slots[i], now, s.timing).Retry?
    case _ => false
  }

  function Transmissions(w: World, s: Setup, steps: seq<Step>, ticket: nat): nat
    requires Shape(w)
  {
    if steps == [] then 0 else
      var init := steps[..|steps| - 1];
      Transmissions(w, s, init, ticket) + if Transmits(Run(w, s, init), s, steps[|steps| - 1], ticket) then 1 else 0
  }

  /** What a state and the transmissions so far have to do with each other, for one ticket. */
  predicate Counted(v: World, c: Config, ticket: nat, sent: nat)
    requires Shape(v)
  {
    && sent <= 1 + c.maxRetryCount
    && (ticket >= v.books.next ==> sent == 0)
    && forall i :: 0 <= i < |v.link.slots| && v.link.slots[i].active && v.books.ticket[i] == ticket ==>
         sent == 1 + v.link.slots[i].retryCount
  }

  lemma CountedKept(v: World, s: Setup, step: Step, ticket: nat, sent: nat)
    requires Ledger(v) && Recent(v, U16_COUNT) && NotOverrun(v, step) && Counted(v, s.timing, ticket, sent)
    ensures Counted(Apply(v, s, step), s.timing, ticket, sent + if Transmits(v, s, step, ticket) then 1 else 0)
  {
    hide Recent, Log, TimeSync, FastForward, MarkSynced;
    match step {
      case SendEvent(k, radioOk, now) =>
        if k < |v.hand| {
          SendCounted(v, s, MSG_DETECTION_EVENT, Serialize(v.hand[k]), true, radioOk, now, ticket, sent);
        }
      case SendOther(msgType, payload, requireAck, radioOk, now) =>
        if msgType != MSG_DETECTION_EVENT {
          SendCounted(v, s, msgType, payload, requireAck, radioOk, now, ticket, sent);
        }
      case RetrySlot(i, now) =>
        if i < |v.link.slots| {
          assert v.link.slots[i].active && v.books.ticket[i] == ticket ==> sent == 1 + v.link.slots[i].retryCount;
        }
      case _ => FreeingCounted(v, s, step, ticket, sent);
    }
  }

  lemma FreeingCounted(v: World, s: Setup, step: Step, ticket: nat, sent: nat)
    requires Shape(v) && !step.SendEvent? && !step.SendOther? && !step.RetrySlot? && Counted(v, s.timing, ticket, sent)
    ensures Counted(Apply(v, s, step), s.timing, ticket, sent)
  {
    hide Log, TimeSync, FastForward, MarkSynced;
  }

  lemma SendCounted(v: World, s: Setup, msgType: byte, payload: seq<byte>, requireAck: bool, radioOk: bool, now: u32,
                    ticket: nat, sent: nat)
    requires Ledger(v) && Counted(v, s.timing, ticket, sent)
    ensures
      var onAir := ticket == v.books.next && Send(v.link, msgType, payload, requireAck, radioOk, now).onAir.Some?;
      var count := sent + if onAir then 1 else 0;
      Counted(SendMessage(v, msgType, payload, requireAck, radioOk, now), s.timing, ticket, count)
  {
    hide Frame.Encode;
  }

  /** No message is transmitted more than once plus the retry limit, in any run. */
  lemma {:induction false} TransmissionsBounded(w: World, s: Setup, steps: seq<Step>, ticket: nat)
    requires Initial(w) && NeverOverrun(w, s, steps) && ticket >= w.books.next
    ensures Transmissions(w, s, steps, ticket) <= 1 + s.timing.maxRetryCount
    ensures Counted(Run(w, s, steps), s.timing, ticket, Transmissions(w, s, steps, ticket))
  {
    if steps != [] {
      var init := steps[..|steps| - 1];
      forall k | 0 <= k < |init|
        ensures NotOverrun(Run(w, s, init[..k]), init[k])
      {
        assert init[..k] == steps[..k];
      }
      TransmissionsBounded(w, s, init, ticket);
      LedgerAlways(w, s, init);
      assert steps[..|init|] == init;
      CountedKept(Run(w, s, init), s, steps[|steps| - 1], ticket, Transmissions(w, s, init, ticket));
    }
  }

  // ---------- with no new sends, timeouts run out

  predicate TimesOut(w: World, s: Setup, step: Step) {
    step.RetrySlot? && step.slot < |w.link.slots| && !Judge(w.link.slots[step.slot], step.now, s.timing).Wait?
  }

  function Timeouts(w: World, s: Setup, steps: seq<Step>): nat
    requires Shape(w)
  {
    if steps == [] then 0 else
      var init := steps[..|steps| - 1];
      Timeouts(w, s, init) + if TimesOut(Run(w, s, init), s, steps[|steps| - 1]) then 1 else 0
  }

  lemma FreeSpends(t: Table, i: nat, c: Config)
    ensures Potential(FreeAt(t, i), c) <= Potential(t, c)
  {
    if i < |t| {
      PotentialUpdate(t, i, t[i].Freed(), c);
    }
  }

  lemma {:induction false} ClearAllSpends(t: Table, c: Config)
    ensures Potential(ClearAll(t), c) == 0
  {
    if t != [] {
      ClearAllSpends(t[..|t| - 1], c);
      assert ClearAll(t)[..|t| - 1] == ClearAll(t[..|t| - 1]);
    }
  }

  lemma StepSpends(w: World, s: Setup, step: Step)
    requires Shape(w) && !step.SendEvent? && !step.SendOther?
    ensures Potential(Apply(w, s, step).link.slots, s.timing) + (if TimesOut(w, s, step) then 1 else 0)
         <= Potential(w.link.slots, s.timing)
  {
    hide Potential, Log, TimeSync, FastForward, MarkSynced;
    var t, c := w.link.slots, s.timing;
    match step {
      case RetrySlot(i, now) =>
        if i < |t| {
          TimeoutSpendsPotential(t, i, now, c);
        }
      case AckArrive(seqNum) => FreeSpends(t, FirstHolding(t, seqNum), c);
      case AckFinish(k) =>
        if k < |w.acks| {
          FreeSpends(t, w.acks[k].slot, c);
        }
      case Nack(seqNum) => FreeSpends(t, FirstHolding(t, seqNum), c);
      case Disconnect => ClearAllSpends(t, c);
      case Reconnect => ClearAllSpends(t, c);
      case _ =>
    }
  }

  /** Whatever else happens, a stretch without sends has at most as many timeouts as the waiting
      messages have transmissions left: after those the table is quiet. */
  lemma {:induction false} TimeoutsRunOut(w: World, s: Setup, steps: seq<Step>)
    requires Shape(w)
    requires forall step :: step in steps ==> !step.SendEvent? && !step.SendOther?
    ensures Timeouts(w, s, steps)
        + Potential(Run(w, s, steps).link.slots, s.timing) <= Potential(w.link.slots, s.timing)
  {
    if steps != [] {
      var init, step := steps[..|steps| - 1], steps[|steps| - 1];
      assert step in steps;
      TimeoutsRunOut(w, s, init);
      StepSpends(Run(w, s, init), s, step);
    }
  }

  // ---------- everything times out in the end

  predicate OnlyRetries(steps: seq<Step>) {
    forall step :: step in steps ==> step.RetrySlot?
  }

  /** Such a stretch always exists: time moves on until every waiting message has timed out for good. */
  lemma {:induction false} TimeoutsAlwaysDrain(w: World, s: Setup) returns (steps: seq<Step>)
    requires Shape(w) && s.timing.ackTimeoutMs < U32_COUNT - 1
    ensures OnlyRetries(steps) && Timeouts(w, s, steps) == Potential(w.link.slots, s.timing)
    ensures Run(w, s, steps).hist == w.hist && Run(w, s, steps).acks == w.acks
    decreases Potential(w.link.slots, s.timing)
  {
    var t, c := w.link.slots, s.timing;
    if Potential(t, c) == 0 {
      return [];
    }
    var i := SomeActive(t, c);
    var now: u32 := (t[i].sentTime + c.ackTimeoutMs + 1) % U32_COUNT;
    OverdueNow(t[i].sentTime, c.ackTimeoutMs);
    TimeoutSpendsPotential(t, i, now, c);
    var step := RetrySlot(i, now);
    var v := Apply(w, s, step);
    hide Potential, TimeoutsLeft, Retried;
    var rest := TimeoutsAlwaysDrain(v, s);
    steps := [step] + rest;
    FirstTimeout(w, s, step, rest);
  }

  lemma {:induction false} SomeActive(t: Table, c: Config) returns (i: nat)
    requires Potential(t, c) > 0
    ensures i < |t| && t[i].active
  {
    if t[|t| - 1].active {
      i := |t| - 1;
    } else {
      i := SomeActive(t[..|t| - 1], c);
    }
  }

  lemma OverdueNow(sentTime: u32, timeout: u32)
    requires timeout < U32_COUNT - 1
    ensures ((sentTime + timeout + 1) % U32_COUNT - sentTime) % U32_COUNT == timeout + 1
  {
  }

  /** Runs and their timeouts, seen from the first step. */
  lemma {:induction false} FirstTimeout(w: World, s: Setup, step: Step, rest: seq<Step>)
    requires Shape(w)
    ensures Run(w, s, [step] + rest) == Run(Apply(w, s, step), s, rest)
    ensures Timeouts(w, s, [step] + rest)
         == (if TimesOut(w, s, step) then 1 else 0)
             + Timeouts(Apply(w, s, step), s, rest)
  {
    hide Apply, TimesOut;
    if rest == [] {
      assert [step] + rest == [step];
      assert [step][..0] == [];
    } else {
      FirstTimeout(w, s, step, rest[..|rest| - 1]);
      assert ([step] + rest)[..|rest|] == [step] + rest[..|rest| - 1];
    }
  }
}
